/**
  The transcript's path, `os.path.splitext(wav_path)[0] + ".txt"`
  (transcribe_segments.py line 29), with POSIX `os.path.splitext`: the
  extension is the part from the last '.' of the last path component, unless
  that component has nothing but dots before it (".bashrc" has no extension).
*/
module OutputPath {

  /** `s.rfind(c)`: the index of the last occurrence of `c` in `s`, or -1. */
  function LastIndexOf(s: string, c: char): (r: int)
    ensures -1 <= r < |s|
    ensures r >= 0 ==> s[r] == c
    ensures forall k :: r < k < |s| ==> s[k] != c
  {
    if |s| == 0 then -1
    else if s[|s| - 1] == c then |s| - 1
    else LastIndexOf(s[..|s| - 1], c)
  }

  /** Some character of `s[lo..hi]` is not a dot. */
  predicate HasNonDot(s: string, lo: int, hi: int)
    requires 0 <= lo <= hi <= |s|
  {
    exists k :: lo <= k < hi && s[k] != '.'
  }

  /** The last path component of `p` holds a character other than '.'. */
  predicate HasNamedFile(p: string) {
    HasNonDot(p, LastIndexOf(p, '/') + 1, |p|)
  }

  /** `os.path.splitext(p)`: the pair `(root, ext)`. */
  function SplitExt(p: string): (r: (string, string))
    ensures r.0 + r.1 == p
    ensures r.1 == [] || (r.1[0] == '.' && forall k :: 1 <= k < |r.1| ==> r.1[k] != '.' && r.1[k] != '/')
    ensures r.1 != [] ==> HasNamedFile(r.0)
    ensures r.1 == [] ==>
      forall k, d :: LastIndexOf(p, '/') < k < d < |p| && p[d] == '.' ==> p[k] == '.'
  {
    var sep := LastIndexOf(p, '/');
    var dot := LastIndexOf(p, '.');
    if dot > sep && HasNonDot(p, sep + 1, dot) then
      var root := p[..dot];
      assert LastIndexOf(root, '/') == sep by {
        LastIndexOfPrefix(p, '/', dot);
      }
      (root, p[dot..])
    else
      (p, [])
  }

  /** The last occurrence of `c` is the only index holding `c` with no `c` after it. */
  lemma LastIndexOfUnique(s: string, c: char, r: int)
    requires -1 <= r < |s|
    requires r >= 0 ==> s[r] == c
    requires forall k :: r < k < |s| ==> s[k] != c
    ensures LastIndexOf(s, c) == r
  {
  }

  /** Cutting off a tail that holds no `c` leaves the last `c` where it was. */
  lemma LastIndexOfPrefix(p: string, c: char, n: nat)
    requires n <= |p|
    requires forall k :: n <= k < |p| ==> p[k] != c
    ensures LastIndexOf(p[..n], c) == LastIndexOf(p, c)
  {
    var a := LastIndexOf(p[..n], c);
    assert a >= 0 ==> p[a] == p[..n][a];
    LastIndexOfUnique(p, c, a);
  }

  /** `os.path.splitext(wav_path)[0] + ".txt"`. */
  function OutputPathOf(wavPath: string): (out: string)
    ensures |out| == |SplitExt(wavPath).0| + 4
    ensures out[..|out| - 4] == SplitExt(wavPath).0 && out[|out| - 4..] == ".txt"
    ensures out[..|out| - 4] <= wavPath
  {
    SplitExt(wavPath).0 + ".txt"
  }

  /**
    Splitting the output path again gives back the input's root with the
    extension ".txt", whenever the input names a file (its last component is
    not empty and not made of dots only).
  */
  lemma OutputPathSplitsBack(wavPath: string)
    requires HasNamedFile(SplitExt(wavPath).0)
    ensures SplitExt(OutputPathOf(wavPath)) == (SplitExt(wavPath).0, ".txt")
  {
    var root := SplitExt(wavPath).0;
    var out := OutputPathOf(wavPath);
    var sep := LastIndexOf(root, '/');
    LastIndexOfPrefix(out, '/', |root|);
    LastIndexOfUnique(out, '.', |root|);
    var k :| sep + 1 <= k < |root| && root[k] != '.';
    assert out[k] == root[k];
  }

  /** Without a named file the ".txt" becomes part of the root: "dir/" gives "dir/.txt", whose extension is empty. */
  lemma OutputPathOfDirectory()
    ensures OutputPathOf("dir/") == "dir/.txt"
    ensures SplitExt("dir/.txt") == ("dir/.txt", "")
  {
    assert !HasNonDot("dir/", 4, 4);
    LastIndexOfUnique("dir/.txt", '/', 3);
    LastIndexOfUnique("dir/.txt", '.', 4);
    assert !HasNonDot("dir/.txt", 4, 4);
  }

  /** The output path is the input path itself exactly when the input already ends in the extension ".txt". */
  lemma OutputPathIsInputIff(wavPath: string)
    ensures OutputPathOf(wavPath) == wavPath <==> SplitExt(wavPath).1 == ".txt"
  {
    var (root, ext) := SplitExt(wavPath);
    if OutputPathOf(wavPath) == wavPath {
      assert root + ".txt" == root + ext;
      assert ext == (root + ext)[|root|..];
    }
  }

  /** The configured input "files.wav" is transcribed to "files.txt". */
  lemma ConfiguredOutputPath()
    ensures OutputPathOf("files.wav") == "files.txt"
  {
    LastIndexOfUnique("files.wav", '/', -1);
    LastIndexOfUnique("files.wav", '.', 5);
    assert "files.wav"[0] != '.';
    assert "files.wav"[..5] == "files";
  }

  /** An existing extension is replaced, not appended to: "a/b.wav" gives "a/b.txt". */
  lemma ReplacesExtension()
    ensures OutputPathOf("a/b.wav") == "a/b.txt"
  {
    LastIndexOfUnique("a/b.wav", '/', 1);
    LastIndexOfUnique("a/b.wav", '.', 3);
    assert "a/b.wav"[2] != '.';
    assert "a/b.wav"[..3] == "a/b";
  }
}
