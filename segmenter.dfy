/**
  The segmenter: how the audio buffer of `total` samples is cut into fixed
  windows of 30 seconds at 16 kHz (transcribe_segments.py lines 8, 18, 24-25,
  36-37), and which window is too short to be transcribed (lines 41-42).
*/
module Segmenter {

  /** Whisper always works at 16 kHz (`sr = 16000`). */
  const SampleRate: nat := 16000

  /** `segment_sec = 30`. */
  const SegmentSeconds: nat := 30

  /** `segment_samples = int(segment_sec * sr)`, that is 480000. */
  const SegmentSamples: nat := SegmentSeconds * SampleRate

  /** A window with fewer samples than `sr * 0.5` (8000) is never transcribed. */
  const MinSegmentSamples: nat := SampleRate / 2

  /** One window of the buffer: the half-open sample range [start, end). */
  datatype Segment = Segment(index: nat, start: nat, end: nat) {
    function Length(): int { end - start }
  }

  /**
    `total_segments = math.ceil(total_samples / segment_samples)`: the least
    number of windows whose combined nominal length reaches `total`.
  */
  function SegmentCount(total: nat): (n: nat)
    ensures total <= n * SegmentSamples
    ensures n > 0 ==> (n - 1) * SegmentSamples < total
  {
    (total + SegmentSamples - 1) / SegmentSamples
  }

  /** The count is THE integer ceiling: exactly the counts `m` at least as large cover `total`. */
  lemma SegmentCountIsCeiling(total: nat, m: nat)
    ensures total <= m * SegmentSamples <==> SegmentCount(total) <= m
  {
    var n := SegmentCount(total);
    if m < n {
      assert m * SegmentSamples <= (n - 1) * SegmentSamples;
    } else {
      assert n * SegmentSamples <= m * SegmentSamples;
    }
  }

  /** No windows for an empty buffer. */
  lemma NoSegmentsForEmptyBuffer()
    ensures SegmentCount(0) == 0
  {
  }

  /**
    Window `i` of the loop: `start = i * segment_samples`,
    `end = min((i + 1) * segment_samples, total_samples)`.
  */
  function SegmentAt(total: nat, i: nat): (s: Segment)
    requires i < SegmentCount(total)
    ensures s.index == i
    ensures s.start < s.end <= total
    ensures s.Length() <= SegmentSamples
  {
    var end := if (i + 1) * SegmentSamples <= total then (i + 1) * SegmentSamples else total;
    Segment(i, i * SegmentSamples, end)
  }

  /** The first window starts at sample 0, each window starts where the previous one ends, and the last one ends at `total`. */
  lemma SegmentsContiguous(total: nat, i: nat)
    requires i < SegmentCount(total)
    ensures i == 0 ==> SegmentAt(total, i).start == 0
    ensures i + 1 < SegmentCount(total) ==> SegmentAt(total, i + 1).start == SegmentAt(total, i).end
    ensures i + 1 == SegmentCount(total) ==> SegmentAt(total, i).end == total
  {
  }

  /** Windows do not overlap: an earlier window ends no later than a later one starts. */
  lemma SegmentsDisjoint(total: nat, i: nat, j: nat)
    requires i < j < SegmentCount(total)
    ensures SegmentAt(total, i).end <= SegmentAt(total, j).start
  {
    assert (i + 1) * SegmentSamples <= j * SegmentSamples;
  }

  /** Every sample of the buffer lies in exactly one window, the one numbered `p / segment_samples`. */
  lemma SampleInExactlyOneSegment(total: nat, p: nat)
    requires p < total
    ensures p / SegmentSamples < SegmentCount(total)
    ensures SegmentAt(total, p / SegmentSamples).start <= p < SegmentAt(total, p / SegmentSamples).end
    ensures forall i :: 0 <= i < SegmentCount(total) && SegmentAt(total, i).start <= p < SegmentAt(total, i).end ==> i == p / SegmentSamples
  {
    var k := p / SegmentSamples;
    SegmentCountIsCeiling(total, k);
    forall i | 0 <= i < SegmentCount(total) && SegmentAt(total, i).start <= p < SegmentAt(total, i).end
      ensures i == k
    {
      if i < k {
        SegmentsDisjoint(total, i, k);
      } else if k < i {
        SegmentsDisjoint(total, k, i);
      }
    }
  }

  /** Every window but the last is a full 30 seconds; the last holds the remainder, between 1 sample and a full window. */
  lemma SegmentLengths(total: nat, i: nat)
    requires i < SegmentCount(total)
    ensures i + 1 < SegmentCount(total) ==> SegmentAt(total, i).Length() == SegmentSamples
    ensures i + 1 == SegmentCount(total) ==>
      SegmentAt(total, i).Length() == total - i * SegmentSamples &&
      1 <= SegmentAt(total, i).Length() <= SegmentSamples
  {
    if i + 1 < SegmentCount(total) {
      SegmentCountIsCeiling(total, i + 1);
    }
  }

  /** Sum of the lengths of the first `k` windows. */
  function PrefixLength(total: nat, k: nat): int
    requires k <= SegmentCount(total)
  {
    if k == 0 then 0 else PrefixLength(total, k - 1) + SegmentAt(total, k - 1).Length()
  }

  /** The first `k` windows hold `min(k * segment_samples, total)` samples. */
  lemma {:induction false} PrefixLengthCovers(total: nat, k: nat)
    requires k <= SegmentCount(total)
    ensures PrefixLength(total, k) == if k * SegmentSamples <= total then k * SegmentSamples else total
  {
    if k > 0 {
      PrefixLengthCovers(total, k - 1);
      SegmentCountIsCeiling(total, k - 1);
    }
  }

  /** The window lengths add up to the whole buffer. */
  lemma SegmentLengthsSumToTotal(total: nat)
    ensures PrefixLength(total, SegmentCount(total)) == total
  {
    PrefixLengthCovers(total, SegmentCount(total));
  }

  /** `len(segment_audio) < sr * 0.5`: the window is skipped, never transcribed. */
  predicate Skipped(total: nat, i: nat)
    requires i < SegmentCount(total)
  {
    SegmentAt(total, i).Length() < MinSegmentSamples
  }

  /** Only the last window can be skipped, and it is exactly when the remainder is a non-zero part shorter than half a second. */
  lemma OnlyTailSkipped(total: nat, i: nat)
    requires i < SegmentCount(total)
    ensures Skipped(total, i) ==> i + 1 == SegmentCount(total)
    ensures i + 1 == SegmentCount(total) ==>
      (Skipped(total, i) <==> 0 < total % SegmentSamples < MinSegmentSamples)
  {
    SegmentLengths(total, i);
    if i + 1 == SegmentCount(total) {
      var tail := total - i * SegmentSamples;
      assert total == i * SegmentSamples + tail && 1 <= tail <= SegmentSamples;
      if tail < SegmentSamples {
        assert total % SegmentSamples == tail;
      } else {
        assert total % SegmentSamples == 0;
      }
    }
  }

  /** The indices of the first `k` windows that are not skipped, in increasing order. */
  function SubmittedUpTo(total: nat, k: nat): seq<nat>
    requires k <= SegmentCount(total)
  {
    if k == 0 then []
    else SubmittedUpTo(total, k - 1) + (if Skipped(total, k - 1) then [] else [k - 1])
  }

  /** A window is in the list exactly when it is below `k` and not skipped, and the list is strictly increasing. */
  lemma {:induction false} SubmittedUpToMembers(total: nat, k: nat)
    requires k <= SegmentCount(total)
    ensures forall i: nat :: i in SubmittedUpTo(total, k) <==> i < k && !Skipped(total, i)
    ensures forall j, j' :: 0 <= j < j' < |SubmittedUpTo(total, k)| ==>
      SubmittedUpTo(total, k)[j] < SubmittedUpTo(total, k)[j']
  {
    if k > 0 {
      SubmittedUpToMembers(total, k - 1);
      var prev := SubmittedUpTo(total, k - 1);
      forall j | 0 <= j < |prev| ensures prev[j] < k - 1 {
        assert prev[j] in prev;
      }
    }
  }

  /** Every window is submitted except a skipped tail. */
  lemma {:induction false} SubmittedCount(total: nat, k: nat)
    requires k <= SegmentCount(total)
    ensures k < SegmentCount(total) ==> |SubmittedUpTo(total, k)| == k
    ensures k == SegmentCount(total) > 0 ==>
      |SubmittedUpTo(total, k)| == if Skipped(total, k - 1) then k - 1 else k
  {
    if k > 0 {
      SubmittedCount(total, k - 1);
      OnlyTailSkipped(total, k - 1);
    }
  }

  /** 95 s at 16 kHz: four windows, the last one 5 s long (80000 samples) and therefore transcribed. */
  lemma NinetyFiveSecondBuffer()
    ensures SegmentCount(95 * SampleRate) == 4
    ensures SegmentAt(95 * SampleRate, 3) == Segment(3, 90 * SampleRate, 95 * SampleRate)
    ensures SegmentAt(95 * SampleRate, 3).Length() == 80000
    ensures forall i :: 0 <= i < 4 ==> !Skipped(95 * SampleRate, i)
  {
  }

  /** 90.3 s at 16 kHz: four windows, the last one 0.3 s long (4800 samples) and therefore skipped. */
  lemma NinetyPointThreeSecondBuffer()
    ensures SegmentCount(1444800) == 4
    ensures SegmentAt(1444800, 3) == Segment(3, 90 * SampleRate, 1444800)
    ensures SegmentAt(1444800, 3).Length() == 4800
    ensures Skipped(1444800, 3)
    ensures forall i :: 0 <= i < 3 ==> !Skipped(1444800, i)
  {
  }
}
