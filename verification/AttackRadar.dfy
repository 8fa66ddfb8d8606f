/**
 The shield's traffic monitor: a one-pass detector of sustained high traffic, against the
 history of polls it has seen. Byte counters are unsigned 64-bit and wrap around.
 */
module AttackRadar {
  import opened Wrappers

  const TWO_TO_THE_64 := 0x1_0000_0000_0000_0000

  type Counter = c: int | 0 <= c < TWO_TO_THE_64

  /** One turn of the polling loop: the read failed, the interface was not listed, or its counter was read at a time. */
  datatype Poll = ReadFailed | NotListed | Sample(rx: Counter, at: int)

  // ---- The history, read declaratively ----

  /** The counter of the last sample among the first n polls, 0 when there is none. */
  function LastRx(polls: seq<Poll>, n: nat): Counter
    requires n <= |polls|
  {
    if n == 0 then 0
    else if polls[n - 1].Sample? then polls[n - 1].rx
    else LastRx(polls, n - 1)
  }

  /** The bytes received since the previous sample; polls after a zero counter have none. */
  function Delta(polls: seq<Poll>, i: nat): Option<Counter>
    requires i < |polls|
  {
    if polls[i].Sample? && LastRx(polls, i) != 0
    then Some((polls[i].rx - LastRx(polls, i)) % TWO_TO_THE_64)
    else None
  }

  predicate Above(polls: seq<Poll>, i: nat, threshold: Counter)
    requires i < |polls|
  {
    Delta(polls, i).Some? && Delta(polls, i).value > threshold
  }

  predicate Below(polls: seq<Poll>, i: nat, threshold: Counter)
    requires i < |polls|
  {
    Delta(polls, i).Some? && Delta(polls, i).value <= threshold
  }

  predicate NoneBelow(polls: seq<Poll>, i: nat, j: nat, threshold: Counter)
    requires j <= |polls|
  {
    forall k | i < k < j :: !Below(polls, k, threshold)
  }

  /** Poll s starts the maximal run of high traffic that is still unbroken before poll n. */
  ghost predicate CurrentRun(polls: seq<Poll>, s: nat, n: nat, threshold: Counter)
    requires n <= |polls|
  {
    && s < n && Above(polls, s, threshold) && NoneBelow(polls, s, n, threshold)
    && forall j | 0 <= j < s && Above(polls, j, threshold) :: !NoneBelow(polls, j, s, threshold)
  }

  /** The handler is due at poll i: traffic is high, and the run it belongs to is at least thresholdTime old. */
  ghost predicate Sustained(polls: seq<Poll>, i: nat, threshold: Counter, thresholdTime: int)
    requires i < |polls|
  {
    && Above(polls, i, threshold)
    && exists s: nat :: CurrentRun(polls, s, i, threshold) && polls[i].at - polls[s].at >= thresholdTime
  }

  /** A run has one start. */
  lemma RunUnique(polls: seq<Poll>, s: nat, u: nat, n: nat, threshold: Counter)
    requires n <= |polls| && CurrentRun(polls, s, n, threshold) && CurrentRun(polls, u, n, threshold)
    ensures s == u
  {
    if u < s {
      assert NoneBelow(polls, u, s, threshold);
    }
  }

  /** The last sample before poll i. */
  ghost predicate LastSample(polls: seq<Poll>, k: nat, i: nat)
    requires i <= |polls|
  {
    k < i && polls[k].Sample? && forall j | k < j < i :: !polls[j].Sample?
  }

  lemma {:induction false} LastRxIs(polls: seq<Poll>, n: nat)
    requires n <= |polls|
    ensures LastRx(polls, n) != 0 ==> exists k: nat :: LastSample(polls, k, n) && polls[k].rx == LastRx(polls, n)
    ensures forall k: nat | LastSample(polls, k, n) :: polls[k].rx == LastRx(polls, n)
  {
    if n != 0 {
      LastRxIs(polls, n - 1);
      if polls[n - 1].Sample? {
        assert LastSample(polls, n - 1, n);
      } else {
        forall k: nat
          ensures LastSample(polls, k, n) <==> LastSample(polls, k, n - 1)
        {
        }
      }
    }
  }

  /** Poll i saw d bytes: the last sample's counter, if not zero, plus d, in 64 bits, is the counter now. */
  ghost predicate Saw(polls: seq<Poll>, i: nat, d: Counter)
    requires i < |polls|
  {
    && polls[i].Sample?
    && exists k: nat :: LastSample(polls, k, i) && polls[k].rx != 0 && (polls[k].rx + d) % TWO_TO_THE_64 == polls[i].rx
  }

  lemma DeltaIsWhatWasSeen(polls: seq<Poll>, i: nat, d: Counter)
    requires i < |polls|
    ensures Delta(polls, i) == Some(d) <==> Saw(polls, i, d)
  {
    LastRxIs(polls, i);
    if polls[i].Sample? && LastRx(polls, i) != 0 {
      var k: nat :| LastSample(polls, k, i) && polls[k].rx == LastRx(polls, i);
      Wraps(polls[k].rx, d, polls[i].rx);
    }
  }

  lemma Wraps(before: Counter, d: Counter, after: Counter)
    ensures (before + d) % TWO_TO_THE_64 == after <==> (after - before) % TWO_TO_THE_64 == d
  {
  }

  ghost predicate SawMore(polls: seq<Poll>, i: nat, threshold: Counter)
    requires i < |polls|
  {
    exists d: Counter :: Saw(polls, i, d) && d > threshold
  }

  ghost predicate SawNoMore(polls: seq<Poll>, i: nat, threshold: Counter)
    requires i < |polls|
  {
    exists d: Counter :: Saw(polls, i, d) && d <= threshold
  }

  lemma AboveIsSawMore(polls: seq<Poll>, i: nat, threshold: Counter)
    requires i < |polls|
    ensures Above(polls, i, threshold) <==> SawMore(polls, i, threshold)
    ensures Below(polls, i, threshold) <==> SawNoMore(polls, i, threshold)
  {
    hide Saw;
    if Delta(polls, i).Some? {
      DeltaIsWhatWasSeen(polls, i, Delta(polls, i).value);
    }
    forall d: Counter
      ensures Delta(polls, i) == Some(d) <==> Saw(polls, i, d)
    {
      DeltaIsWhatWasSeen(polls, i, d);
    }
  }

  /** The clock does not go back from one sample to a later one. */
  ghost predicate ClockForward(polls: seq<Poll>) {
    forall i, j | 0 <= i < j < |polls| && polls[i].Sample? && polls[j].Sample? :: polls[i].at <= polls[j].at
  }

  /**
   On a clock that does not go back, traffic is sustained at a poll exactly when it is high there
   and was high at some poll at least thresholdTime before, and was seen low at none between.
   */
  lemma SustainedIff(polls: seq<Poll>, i: nat, threshold: Counter, thresholdTime: int)
    requires i < |polls| && ClockForward(polls)
    ensures Sustained(polls, i, threshold, thresholdTime) <==>
            && SawMore(polls, i, threshold)
            && exists s: nat :: s < i && SawMore(polls, s, threshold) && polls[i].at - polls[s].at >= thresholdTime
                                && forall k | s < k < i :: !SawNoMore(polls, k, threshold)
  {
    forall k: nat | k < |polls|
      ensures Above(polls, k, threshold) <==> SawMore(polls, k, threshold)
      ensures Below(polls, k, threshold) <==> SawNoMore(polls, k, threshold)
      ensures Above(polls, k, threshold) ==> polls[k].Sample?
    {
      AboveIsSawMore(polls, k, threshold);
    }
    hide SawMore;
    hide SawNoMore;
    hide Above;
    hide Below;
    if s: nat :| && s < i && SawMore(polls, i, threshold) && SawMore(polls, s, threshold)
                 && polls[i].at - polls[s].at >= thresholdTime
                 && forall k | s < k < i :: !SawNoMore(polls, k, threshold) {
      var start := RunOrNone(polls, i, threshold);
      assert NoneBelow(polls, s, i, threshold);
      StartsNotAfter(polls, start, s, i, threshold);
    }
  }

  lemma StartsNotAfter(polls: seq<Poll>, start: nat, s: nat, i: nat, threshold: Counter)
    requires i <= |polls| && CurrentRun(polls, start, i, threshold)
    requires s < i && Above(polls, s, threshold) && NoneBelow(polls, s, i, threshold)
    ensures start <= s
  {
    hide Above;
    hide Below;
    assert forall m: nat | m <= i :: NoneBelow(polls, s, m, threshold);
  }

  // ---- One poll more ----

  /** Below: no run. Above: the run goes on, or starts here. Neither: nothing changes. */
  lemma RunAfter(polls: seq<Poll>, s: nat, n: nat, threshold: Counter)
    requires n < |polls|
    ensures CurrentRun(polls, s, n + 1, threshold) <==>
            !Below(polls, n, threshold) &&
            (CurrentRun(polls, s, n, threshold) ||
             (s == n && Above(polls, n, threshold) &&
              forall j | 0 <= j < n && Above(polls, j, threshold) :: !NoneBelow(polls, j, n, threshold)))
  {
    hide Delta;
    if s < n {
      assert NoneBelow(polls, s, n + 1, threshold) <==>
          NoneBelow(polls, s, n, threshold) && !Below(polls, n, threshold);
    }
  }

  /** Either a run is under way before poll n, or every high poll has been followed by a low one. */
  lemma {:induction false} RunOrNone(polls: seq<Poll>, n: nat, threshold: Counter) returns (s: nat)
    requires n <= |polls|
    ensures CurrentRun(polls, s, n, threshold) ||
            forall j | 0 <= j < n && Above(polls, j, threshold) :: !NoneBelow(polls, j, n, threshold)
  {
    hide Delta;
    s := 0;
    if n != 0 {
      s := RunOrNone(polls, n - 1, threshold);
      if !CurrentRun(polls, s, n - 1, threshold) && Above(polls, n - 1, threshold) {
        s := n - 1;
      }
      RunAfter(polls, s, n - 1, threshold);
      if Below(polls, n - 1, threshold) {
        forall j | 0 <= j < n
          ensures j < n - 1 ==> !NoneBelow(polls, j, n, threshold)
        {
        }
      } else if !CurrentRun(polls, s, n, threshold) {
        forall j | 0 <= j < n && Above(polls, j, threshold)
          ensures !NoneBelow(polls, j, n, threshold)
        {
          assert j < n - 1 && !NoneBelow(polls, j, n - 1, threshold);
        }
      }
    }
  }

  /** The flag and start time that the loop keeps, read as a statement about the history. */
  ghost predicate Knows(polls: seq<Poll>, n: nat, threshold: Counter, above: bool, since: int)
    requires n <= |polls|
  {
    && (above <==> exists s: nat :: CurrentRun(polls, s, n, threshold))
    && forall s: nat | CurrentRun(polls, s, n, threshold) :: polls[s].Sample? && polls[s].at == since
  }

  /** What the loop does with the delta of poll n keeps it so, and fires exactly when traffic is sustained. */
  lemma KnowsMore(polls: seq<Poll>, n: nat, threshold: Counter, thresholdTime: int, above: bool, since: int)
    requires n < |polls| && Knows(polls, n, threshold, above, since)
    ensures Above(polls, n, threshold) ==>
              Knows(polls, n + 1, threshold, true, if above then since else polls[n].at)
    ensures Below(polls, n, threshold) ==> Knows(polls, n + 1, threshold, false, since)
    ensures Delta(polls, n).None? ==> Knows(polls, n + 1, threshold, above, since)
    ensures Sustained(polls, n, threshold, thresholdTime) <==>
            Above(polls, n, threshold) && above && polls[n].at - since >= thresholdTime
  {
    var run := RunOrNone(polls, n, threshold);
    forall s: nat
      ensures CurrentRun(polls, s, n + 1, threshold) <==>
              !Below(polls, n, threshold) &&
              (CurrentRun(polls, s, n, threshold) ||
               (s == n && Above(polls, n, threshold) &&
                forall j | 0 <= j < n && Above(polls, j, threshold) :: !NoneBelow(polls, j, n, threshold)))
    {
      RunAfter(polls, s, n, threshold);
    }
    hide NoneBelow;
    hide LastRx;
    if above {
      var s: nat :| CurrentRun(polls, s, n, threshold);
      assert CurrentRun(polls, s, n, threshold);
    }
    if Above(polls, n, threshold) && !above {
      assert CurrentRun(polls, n, n + 1, threshold);
    }
  }

  // ---- The loop ----

  /**
   StartMonitoring over any sequence of polls: `fired` tells for each poll the bytes passed
   to the attack handler, or None. The handler is called exactly when the history
   says that high traffic is sustained; the flag is up exactly while a run is
   unbroken, and the start time is that of the run's first poll.
   */
  method StartMonitoring(polls: seq<Poll>, maxBytesThreshold: Counter, thresholdTime: int)
    returns (fired: seq<Option<Counter>>, aboveThreshold: bool, aboveThresholdStart: int)
    ensures |fired| == |polls|
    ensures forall i | 0 <= i < |polls| ::
              fired[i] == if Sustained(polls, i, maxBytesThreshold, thresholdTime) then Delta(polls, i) else None
    ensures aboveThreshold <==> exists s: nat :: CurrentRun(polls, s, |polls|, maxBytesThreshold)
    ensures forall s: nat | CurrentRun(polls, s, |polls|, maxBytesThreshold) :: aboveThresholdStart == polls[s].at
  {
    hide CurrentRun;
    hide Sustained;
    hide Knows;
    var lastRx: Counter := 0;
    fired, aboveThreshold, aboveThresholdStart := [], false, 0;
    KnowsNothing(polls, maxBytesThreshold);
    for n := 0 to |polls|
      invariant |fired| == n && lastRx == LastRx(polls, n)
      invariant forall i | 0 <= i < n ::
                  fired[i] == if Sustained(polls, i, maxBytesThreshold, thresholdTime) then Delta(polls, i) else None
      invariant Knows(polls, n, maxBytesThreshold, aboveThreshold, aboveThresholdStart)
    {
      KnowsMore(polls, n, maxBytesThreshold, thresholdTime, aboveThreshold, aboveThresholdStart);
      LastRxAfter(polls, n);
      var call: Option<Counter> := None;
      if polls[n].Sample? {
        if lastRx != 0 {
          var delta: Counter := (polls[n].rx - lastRx) % TWO_TO_THE_64;
          if delta > maxBytesThreshold {
            if !aboveThreshold {
              aboveThreshold, aboveThresholdStart := true, polls[n].at;
            } else if polls[n].at - aboveThresholdStart >= thresholdTime {
              call := Some(delta);
            }
          } else {
            aboveThreshold := false;
          }
        }
        lastRx := polls[n].rx;
      }
      fired := fired + [call];
    }
    KnownRun(polls, |polls|, maxBytesThreshold, aboveThreshold, aboveThresholdStart);
  }

  lemma LastRxAfter(polls: seq<Poll>, n: nat)
    requires n < |polls|
    ensures LastRx(polls, n + 1) == if polls[n].Sample? then polls[n].rx else LastRx(polls, n)
  {
  }

  lemma KnowsNothing(polls: seq<Poll>, threshold: Counter)
    ensures Knows(polls, 0, threshold, false, 0)
  {
  }

  lemma KnownRun(polls: seq<Poll>, n: nat, threshold: Counter, above: bool, since: int)
    requires n <= |polls| && Knows(polls, n, threshold, above, since)
    ensures above <==> exists s: nat :: CurrentRun(polls, s, n, threshold)
    ensures forall s: nat | CurrentRun(polls, s, n, threshold) :: polls[s].at == since
  {
  }
}
