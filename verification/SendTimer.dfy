/** How long the send timer has to wait between firings, in terms of the schedule alone. */
module SendTimer {
  import opened SendQueue
  import opened SendAgenda
  import opened SendSchedule
  import opened SendCompletion

  /** The time from a firing to the next deadline; zero when nothing is left. */
  function Wait(a: Agenda): int {
    if a.jobs == [] then 0 else a.jobs[0].due - a.clock
  }

  /** Some round of some message is due at `t`. */
  ghost predicate DueAt(reqs: seq<Request>, t: nat) {
    exists i: nat, k: nat :: i < |reqs| && HasRound(reqs[i], k) && Due(reqs, i, k) == t
  }

  /** Some message is due at most `bound` before `t`. */
  ghost predicate Preceded(reqs: seq<Request>, t: nat, bound: nat) {
    exists u: nat :: DueAt(reqs, u) && t - bound <= u < t
  }

  /** Every due instant is at most `bound` after the start or after an earlier due instant. */
  ghost predicate GapsWithin(reqs: seq<Request>, bound: nat) {
    forall i: nat, k: nat {:trigger Preceded(reqs, Due(reqs, i, k), bound)} ::
      i < |reqs| && HasRound(reqs[i], k) && bound < Due(reqs, i, k) ==> Preceded(reqs, Due(reqs, i, k), bound)
  }

  /** No wait of a run is longer than `bound`. */
  ghost predicate WaitsWithin(reqs: seq<Request>, bound: nat) {
    forall n: nat :: Wait(AgendaRun(reqs, n)) <= bound
  }

  lemma {:induction false} HeadFirst(js: seq<Job>, i: nat)
    requires Ordered(js) && Of(js, i) != []
    ensures js[0].due <= Of(js, i)[0].due
  {
    if js[0].slot != i {
      OfFrom(js[1..], i, js[0].due);
    }
  }

  /** What is due after the present firing is not due before the next one. */
  lemma {:induction false} NextIsEarliest(reqs: seq<Request>, n: nat, i: nat, k: nat)
    requires i < |reqs| && HasRound(reqs[i], k) && AgendaRun(reqs, n).clock < Due(reqs, i, k)
    ensures AgendaRun(reqs, n).jobs != [] && AgendaRun(reqs, n).jobs[0].due <= Due(reqs, i, k)
  {
    RunTracks(reqs, i, n);
    RunOrdered(reqs, n);
    PendingUpTo(reqs, AgendaRun(reqs, n), i, k);
  }

  lemma {:induction false} PendingUpTo(reqs: seq<Request>, a: Agenda, i: nat, k: nat)
    requires i < |reqs| && HasRound(reqs[i], k) && a.clock < Due(reqs, i, k)
    requires Tracked(reqs, i, a) && Ordered(a.jobs)
    ensures a.jobs != [] && a.jobs[0].due <= Due(reqs, i, k)
  {
    var times := SendTimes(a.log, i);
    if k < |times| {
      DueMonotone(reqs, i, k, |times| - 1);
    }
    DueMonotone(reqs, i, |times|, k);
    HeadFirst(a.jobs, i);
  }

  /** The next deadline is a due instant of the schedule. */
  lemma {:induction false} HeadIsDue(reqs: seq<Request>, n: nat)
    requires AgendaRun(reqs, n).jobs != []
    ensures DueAt(reqs, AgendaRun(reqs, n).jobs[0].due)
  {
    var a := AgendaRun(reqs, n);
    var i := a.jobs[0].slot;
    assert Of(a.jobs, i) == [a.jobs[0]] + Of(a.jobs[1..], i);
    if |reqs| <= i {
      NothingElseSent(reqs, i, n);
    }
    RunTracks(reqs, i, n);
    assert HasRound(reqs[i], |SendTimes(a.log, i)|);
  }

  lemma {:induction false} ClockIsDue(reqs: seq<Request>, n: nat)
    ensures AgendaRun(reqs, n).clock == 0 || DueAt(reqs, AgendaRun(reqs, n).clock)
  {
    var a := AgendaRun(reqs, n);
    ClockOnSend(reqs, n);
    if a.clock != 0 {
      var i :| 0 <= i < |reqs| && a.clock in SendTimes(a.log, i);
      var times := SendTimes(a.log, i);
      var k :| 0 <= k < |times| && times[k] == a.clock;
      ExactSchedule(reqs, i, n);
      assert Due(reqs, i, k) == a.clock;
    }
  }

  /** Some firing has a given due instant before it as its next deadline. */
  lemma {:induction false} Crossing(reqs: seq<Request>, i: nat, k: nat, n: nat) returns (m: nat)
    requires i < |reqs| && HasRound(reqs[i], k) && 0 < Due(reqs, i, k) <= AgendaRun(reqs, n).clock
    ensures AgendaRun(reqs, m).jobs != [] && AgendaRun(reqs, m).jobs[0].due == Due(reqs, i, k)
    ensures AgendaRun(reqs, m).clock < Due(reqs, i, k)
  {
    m := n - 1;
    var a := AgendaRun(reqs, m);
    if Due(reqs, i, k) <= a.clock {
      m := Crossing(reqs, i, k, m);
    } else {
      NextIsEarliest(reqs, m, i, k);
    }
  }

  lemma {:induction false} ReachedBy(reqs: seq<Request>, i: nat, k: nat) returns (n: nat)
    requires i < |reqs| && HasRound(reqs[i], k)
    ensures Due(reqs, i, k) <= AgendaRun(reqs, n).clock
  {
    EverySendHappens(reqs, i, k);
    n :| Due(reqs, i, k) in SendTimes(AgendaRun(reqs, n).log, i);
    var a := AgendaRun(reqs, n);
    var times := SendTimes(a.log, i);
    var j :| 0 <= j < |times| && times[j] == Due(reqs, i, k);
    ExactSchedule(reqs, i, n);
    assert Due(reqs, i, j) <= a.clock;
  }

  /** Nothing is due between a firing and the next deadline. */
  lemma {:induction false} NoneBetween(reqs: seq<Request>, n: nat, u: nat)
    requires DueAt(reqs, u) && AgendaRun(reqs, n).jobs != [] && u < AgendaRun(reqs, n).jobs[0].due
    ensures u <= AgendaRun(reqs, n).clock
  {
    var i: nat, k: nat :| i < |reqs| && HasRound(reqs[i], k) && Due(reqs, i, k) == u;
    if AgendaRun(reqs, n).clock < u {
      NextIsEarliest(reqs, n, i, k);
    }
  }

  lemma {:induction false} DuePreceded(reqs: seq<Request>, t: nat, bound: nat)
    requires GapsWithin(reqs, bound) && DueAt(reqs, t) && bound < t
    ensures Preceded(reqs, t, bound)
  {
    var i: nat, k: nat :| i < |reqs| && HasRound(reqs[i], k) && Due(reqs, i, k) == t;
  }

  lemma {:induction false} WaitFits(reqs: seq<Request>, n: nat, bound: nat)
    requires GapsWithin(reqs, bound)
    ensures Wait(AgendaRun(reqs, n)) <= bound
  {
    var a := AgendaRun(reqs, n);
    if a.jobs != [] && bound < a.jobs[0].due {
      HeadIsDue(reqs, n);
      DuePreceded(reqs, a.jobs[0].due, bound);
      var u: nat :| DueAt(reqs, u) && a.jobs[0].due - bound <= u < a.jobs[0].due;
      NoneBetween(reqs, n, u);
    }
  }

  lemma {:induction false} GapFits(reqs: seq<Request>, i: nat, k: nat, bound: nat)
    requires WaitsWithin(reqs, bound)
    requires i < |reqs| && HasRound(reqs[i], k) && bound < Due(reqs, i, k)
    ensures Preceded(reqs, Due(reqs, i, k), bound)
  {
    var n := ReachedBy(reqs, i, k);
    var m := Crossing(reqs, i, k, n);
    assert Wait(AgendaRun(reqs, m)) <= bound;
    ClockIsDue(reqs, m);
  }

  /** The waits of a run stay within a bound if and only if no due instant is further than that
      from the start and from every earlier due instant. */
  lemma {:induction false} WaitsWithinIff(reqs: seq<Request>, bound: nat)
    ensures WaitsWithin(reqs, bound) <==> GapsWithin(reqs, bound)
  {
    if GapsWithin(reqs, bound) {
      forall n: nat ensures Wait(AgendaRun(reqs, n)) <= bound {
        WaitFits(reqs, n, bound);
      }
    }
    if WaitsWithin(reqs, bound) {
      forall i: nat, k: nat | i < |reqs| && HasRound(reqs[i], k) && bound < Due(reqs, i, k)
        ensures Preceded(reqs, Due(reqs, i, k), bound)
      {
        GapFits(reqs, i, k, bound);
      }
    }
  }

  predicate RequestsWithin(reqs: seq<Request>, bound: nat) {
    forall k :: 0 <= k < |reqs| ==> reqs[k].delay <= bound && reqs[k].period <= bound
  }

  /** Delays and periods within the bound are enough. */
  lemma {:induction false} RequestsGaps(reqs: seq<Request>, bound: nat)
    requires RequestsWithin(reqs, bound)
    ensures GapsWithin(reqs, bound)
  {
    forall i: nat, k: nat | i < |reqs| && HasRound(reqs[i], k) && bound < Due(reqs, i, k)
      ensures Preceded(reqs, Due(reqs, i, k), bound)
    {
      var t := Due(reqs, i, k);
      if k == 0 || reqs[i].period == 0 {
        assert t == Offset(reqs, i);
        FirstRoundPreceded(reqs, i, bound);
      } else {
        DueNext(reqs, i, k - 1);
        assert DueAt(reqs, Due(reqs, i, k - 1));
      }
    }
  }

  lemma {:induction false} OffsetNext(reqs: seq<Request>, i: nat)
    requires 0 < i < |reqs|
    ensures Offset(reqs, i) == Offset(reqs, i - 1) + reqs[i].delay
  {
    if i > 1 {
      OffsetNext(reqs[1..], i - 1);
    }
  }

  lemma {:induction false} FirstRoundPreceded(reqs: seq<Request>, i: nat, bound: nat)
    requires RequestsWithin(reqs, bound) && i < |reqs| && bound < Offset(reqs, i)
    ensures Preceded(reqs, Offset(reqs, i), bound)
  {
    if i != 0 {
      OffsetNext(reqs, i);
      if reqs[i].delay == 0 {
        FirstRoundPreceded(reqs, i - 1, bound);
      } else {
        assert HasRound(reqs[i - 1], 0) && Due(reqs, i - 1, 0) == Offset(reqs, i - 1);
        assert DueAt(reqs, Offset(reqs, i - 1));
      }
    }
  }
}
