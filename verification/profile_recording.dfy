// Recording samples (crates/js/src/profiler.rs).
module ProfileRecording {
  import opened ProfileTrie

  // The start a profiler records: the first timestamp that is not zero.
  function FirstNonZero(samples: seq<Sample>): nat {
    if samples == [] then 0
    else
      var before := FirstNonZero(samples[..|samples| - 1]);
      if before == 0 then samples[|samples| - 1].timestampMs else before
  }

  lemma FirstNonZeroAppend(samples: seq<Sample>, next: Sample)
    ensures FirstNonZero(samples + [next]) 
      == if FirstNonZero(samples) == 0 then next.timestampMs else FirstNonZero(samples)
  {
    assert (samples + [next])[..|samples|] == samples;
  }

  lemma {:induction false} FirstNonZeroIs(samples: seq<Sample>)
    ensures samples != [] && samples[0].timestampMs > 0 ==> FirstNonZero(samples) == samples[0].timestampMs
    ensures FirstNonZero(samples) == 0 <==> forall i :: 0 <= i < |samples| ==> samples[i].timestampMs == 0
  {
    if samples != [] {
      FirstNonZeroIs(samples[..|samples| - 1]);
    }
  }

  class Profiler {
    var samples: seq<Sample>
    var startMs: nat
    var endMs: nat

    constructor ()
      ensures Recorded() && samples == [] && startMs == 0 && endMs == 0
    {
      samples, startMs, endMs := [], 0, 0;
    }

    ghost predicate Recorded()
      reads this
    {
      && startMs == FirstNonZero(samples)
      && endMs == LastTime(samples, 0)
    }

    method PushRaw(timestampMs: nat, frames: seq<Frame>)
      requires Recorded()
      modifies this
      ensures Recorded() && samples == old(samples) + [Sample(timestampMs, frames)]
    {
      if startMs == 0 {
        startMs := timestampMs;
      }
      endMs := timestampMs;
      samples := samples + [Sample(timestampMs, frames)];
    }
  }
}
