/** What the send scheduler does with lists whose waits all fit the timer: everything that holds of
    the agenda holds of its runs. */
module SendOnTime {
  import opened Wrappers
  import opened SendQueue
  import opened SendAgenda
  import opened SendSchedule
  import opened SendCompletion
  import opened SendTimer
  import opened SendOrder
  import opened SendRun

  /** Every due instant is at most INT_MAX after the start or after an earlier one. */
  ghost predicate OnTime(reqs: seq<Request>) {
    GapsWithin(reqs, INT_MAX)
  }

  lemma {:induction false} OnTimeFits(reqs: seq<Request>, n: nat)
    requires OnTime(reqs)
    ensures FitsBefore(reqs, n)
  {
    WaitsWithinIff(reqs, INT_MAX);
  }

  /** After any number of timeouts a message has been sent at exactly those of its due instants
      that the clock has reached. */
  lemma {:induction false} RunOnSchedule(reqs: seq<Request>, i: nat, n: nat)
    requires OnTime(reqs) && i < |reqs|
    ensures OnSchedule(reqs, i, Run(reqs, n).clock, SendTimes(Run(reqs, n).log, i))
  {
    OnTimeFits(reqs, n);
    RunRefinesAgenda(reqs, n);
    ExactSchedule(reqs, i, n);
  }

  /** The callbacks so far: one for each instant the clock has reached at which something is due,
      with all that is due then and nothing else, in the order in which it was queued. */
  lemma {:induction false} RunCallbacks(reqs: seq<Request>, n: nat)
    requires OnTime(reqs)
    ensures Exact(reqs, Run(reqs, n).clock, Run(reqs, n).log)
  {
    OnTimeFits(reqs, n);
    RunRefinesAgenda(reqs, n);
    RunExact(reqs, n);
  }

  /** Every round a message has is sent, on its due instant. */
  lemma {:induction false} RunSendsAll(reqs: seq<Request>, i: nat, k: nat) returns (n: nat)
    requires OnTime(reqs) && i < |reqs| && HasRound(reqs[i], k)
    ensures Due(reqs, i, k) in SendTimes(Run(reqs, n).log, i)
  {
    EverySendHappens(reqs, i, k);
    n :| Due(reqs, i, k) in SendTimes(AgendaRun(reqs, n).log, i);
    OnTimeFits(reqs, n);
    RunRefinesAgenda(reqs, n);
  }

  /** Nothing is queued any more and completion was reported once, last of all, at the latest of
      all final sends. */
  ghost predicate Finished(reqs: seq<Request>, s: State) {
    && AllFinite(reqs)
    && s.queue == [] && s.clock == LastDue(reqs, |reqs|)
    && CompletedLast(s.log, s.clock)
  }

  /** A list without endless messages completes, at the latest final send. */
  lemma {:induction false} RunCompletes(reqs: seq<Request>) returns (n: nat)
    requires OnTime(reqs) && AllFinite(reqs)
    ensures Finished(reqs, Run(reqs, n))
  {
    FiniteListCompletes(reqs);
    n :| CompletesAfter(reqs, n);
    OnTimeFits(reqs, n);
    RunRefinesAgenda(reqs, n);
  }

  /** At any time either nothing is queued and the run is finished, or completion has not been
      reported; and the former happens only to lists without endless messages. */
  lemma {:induction false} RunReportsCompletion(reqs: seq<Request>, n: nat)
    requires OnTime(reqs)
    ensures var s := Run(reqs, n); if s.queue == [] then Finished(reqs, s) else NoCompletion(s.log)
  {
    OnTimeFits(reqs, n);
    RunRefinesAgenda(reqs, n);
    CompletedWhenEmpty(reqs, n);
    if AgendaRun(reqs, n).jobs == [] {
      CompletesIffFinite(reqs);
      EmptiedByLastSend(reqs, n);
    }
  }

  /** A run completes exactly when no message in the list repeats for ever. */
  lemma {:induction false} RunCompletesIff(reqs: seq<Request>)
    requires OnTime(reqs)
    ensures (exists n: nat :: Run(reqs, n).queue == []) <==> AllFinite(reqs)
  {
    if AllFinite(reqs) {
      var n := RunCompletes(reqs);
      assert Run(reqs, n).queue == [];
    }
    if n: nat :| Run(reqs, n).queue == [] {
      RunReportsCompletion(reqs, n);
    }
  }

  // ---------------------------------------------------------------------------
  // The timer

  /** In every reachable state the timer runs exactly while something is queued, and its value is
      positive and no longer than the largest gap between due instants, when that fits an `int`. */
  lemma {:induction false} TimerBounds(reqs: seq<Request>, n: nat, bound: nat)
    requires GapsWithin(reqs, bound) && bound <= INT_MAX
    ensures var s := Run(reqs, n);
            && (s.timer.Some? <==> s.queue != [])
            && (s.timer.Some? ==> 0 < s.timer.value <= bound)
  {
    WaitsWithinIff(reqs, bound);
    RunRefinesAgenda(reqs, n);
    ToIntExact(Wait(AgendaRun(reqs, n)));
  }

  /** Delays and periods that fit are enough. */
  lemma {:induction false} FittingRequests(reqs: seq<Request>, n: nat, bound: nat)
    requires RequestsWithin(reqs, bound) && bound <= INT_MAX
    ensures OnTime(reqs)
    ensures Run(reqs, n).timer.Some? ==> 0 < Run(reqs, n).timer.value <= bound
  {
    RequestsGaps(reqs, bound);
    RequestsGaps(reqs, INT_MAX);
    TimerBounds(reqs, n, bound);
  }
}
