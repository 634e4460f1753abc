/** What the cast of the timer's value (lib/src/ToolsMsgSendMgrImpl.cpp) does to delays that do not
    fit, and exactly when it changes nothing. */
module SendOverflow {
  import opened Wrappers
  import opened SendQueue
  import opened SendAgenda
  import opened SendTimer
  import opened SendRun
  import opened SendOnTime

  /** A single message one past what fits: the timer is started with a negative value and the
      message is never sent. */
  lemma {:induction false} NegativeTimer(n: nat)
    ensures var s := Run([Request(INT_MAX + 1, 0, None)], n);
            s.timer == Some(-0x8000_0000) && s.log == [] && s.queue != []
  {
    var reqs := [Request(INT_MAX + 1, 0, None)];
    if n == 0 {
      assert Load(0, reqs)[1..] == [];
      ToIntWraps();
    } else {
      NegativeTimer(n - 1);
    }
  }

  /** A delay past 2^32 is sent early. */
  lemma {:induction false} SentEarly()
    ensures var reqs := [Request(0x1_0000_0005, 0, None)];
            Run(reqs, 1).log == [Sent(5, [0]), Completed(5)] && Offset(reqs, 0) == 0x1_0000_0005
  {
    var reqs := [Request(0x1_0000_0005, 0, None)];
    var s := State(0, [Entry(0, 0, 0, None)], Some(5), []);
    assert Run(reqs, 0) == s by {
      var q := Load(0, reqs);
      assert q == [Entry(0, 0x1_0000_0005, 0, None)] && DuePrefix(q) == 0;
      assert q[..0] == [] && q[0..] == q;
    }
    FireOnly(5, Entry(0, 0, 0, None));
    assert Run(reqs, 1) == Next(s);
  }

  lemma {:induction false} FireOnly(now: nat, e: Entry)
    requires e.delay == 0 && !e.Repeats()
    ensures Firing(now, [e], []).log == [Sent(now, [e.slot]), Completed(now)]
  {
    var q := [e];
    assert q[1..] == [] && DuePrefix(q) == 1 && q[..1] == q;
    assert ReinsertAll(q, []) == [];
    assert EntrySlots(q) == [e.slot];
  }

  // ---------------------------------------------------------------------------
  // Exactly when the cast changes nothing

  /** A batch is sent at its own time: runs that go on at different times have different logs. */
  lemma {:induction false} MisfitShows(s: State, a: Agenda)
    requires Refines(s, a) && INT_MAX < Wait(a)
    ensures Next(s).log != AgendaNext(a).log
  {
    ToIntExact(Wait(a));
    var b := AgendaNext(a);
    assert Upto(a.jobs, a.jobs[0].due) != [];
    assert |s.log| < |b.log| && b.log[|s.log|].at == a.jobs[0].due;
    if 0 <= s.timer.value {
      var n := DuePrefix(s.queue);
      assert EntrySlots(s.queue[..n]) != [];
      assert Next(s).log[|s.log|].at == s.clock + s.timer.value;
    }
  }

  ghost predicate SameLogs(reqs: seq<Request>) {
    forall n: nat :: Run(reqs, n).log == AgendaRun(reqs, n).log
  }

  lemma {:induction false} SameLogFits(reqs: seq<Request>, n: nat)
    requires SameLogs(reqs)
    ensures FitsBefore(reqs, n)
  {
    if n != 0 {
      assert FitsBefore(reqs, n - 1) by {
        SameLogFits(reqs, n - 1);
      }
      SameLogStep(reqs, n - 1);
    }
  }

  lemma {:induction false} SameLogStep(reqs: seq<Request>, n: nat)
    requires SameLogs(reqs) && FitsBefore(reqs, n)
    ensures FitsBefore(reqs, n + 1)
  {
    RunRefinesAgenda(reqs, n);
    assert Run(reqs, n + 1).log == AgendaRun(reqs, n + 1).log;
    SameStepFits(Run(reqs, n), AgendaRun(reqs, n), Run(reqs, n + 1).log, AgendaRun(reqs, n + 1).log);
  }

  lemma {:induction false} SameStepFits(s: State, a: Agenda, log: seq<Event>, ideal: seq<Event>)
    requires Refines(s, a) && log == Next(s).log && ideal == AgendaNext(a).log && log == ideal
    ensures Wait(a) <= INT_MAX
  {
    if INT_MAX < Wait(a) {
      MisfitShows(s, a);
    }
  }

  /** The callbacks are those of the agenda, at all times, if and only if every due instant is at
      most INT_MAX after the start or after an earlier due instant. */
  lemma {:induction false} FollowsAgendaIff(reqs: seq<Request>)
    ensures SameLogs(reqs) <==> OnTime(reqs)
  {
    WaitsWithinIff(reqs, INT_MAX);
    if OnTime(reqs) {
      forall n: nat ensures Run(reqs, n).log == AgendaRun(reqs, n).log {
        OnTimeFits(reqs, n);
        RunRefinesAgenda(reqs, n);
      }
    }
    if SameLogs(reqs) {
      forall n: nat ensures Wait(AgendaRun(reqs, n)) <= INT_MAX {
        SameLogFits(reqs, n + 1);
      }
      assert WaitsWithin(reqs, INT_MAX);
    }
  }
}
