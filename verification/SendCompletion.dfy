/** When and how a run of the send agenda ends. */
module SendCompletion {
  import opened SendQueue
  import opened SendAgenda
  import opened SendSchedule

  predicate AllFinite(reqs: seq<Request>) {
    forall i :: 0 <= i < |reqs| ==> !reqs[i].Endless()
  }

  // ---------------------------------------------------------------------------
  // Work left

  /** Sends left in a job that is not endless. */
  function Left(j: Job): nat { if j.period == 0 then 1 else j.Count() }

  predicate FiniteJobs(js: seq<Job>) {
    js == [] || (0 < Left(js[0]) && FiniteJobs(js[1..]))
  }

  function Work(js: seq<Job>): nat {
    if js == [] then 0 else Left(js[0]) + Work(js[1..])
  }

  lemma {:induction false} WorkConcat(a: seq<Job>, b: seq<Job>)
    ensures Work(a + b) == Work(a) + Work(b)
    ensures FiniteJobs(a + b) <==> FiniteJobs(a) && FiniteJobs(b)
  {
    if a == [] {
      assert a + b == b;
    } else {
      WorkConcat(a[1..], b);
      assert (a + b)[1..] == a[1..] + b;
    }
  }

  lemma {:induction false} WorkSplit(js: seq<Job>, t: nat)
    ensures Work(Upto(js, t)) + Work(After(js, t)) == Work(js)
    ensures FiniteJobs(js) ==> FiniteJobs(Upto(js, t)) && FiniteJobs(After(js, t))
  {
    if js != [] {
      WorkSplit(js[1..], t);
      var head: seq<Job> := [js[0]];
      assert head[1..] == [];
      WorkConcat(if js[0].due <= t then head else [], Upto(js[1..], t));
      WorkConcat(if t < js[0].due then head else [], After(js[1..], t));
    }
  }

  lemma {:induction false} WorkInsert(js: seq<Job>, j: Job)
    requires FiniteJobs(js) && 0 < Left(j)
    ensures Work(InsertStable(js, j)) == Work(js) + Left(j)
    ensures FiniteJobs(InsertStable(js, j))
  {
    WorkSplit(js, j.due);
    assert [j][1..] == [];
    WorkConcat(Upto(js, j.due), [j]);
    WorkConcat(Upto(js, j.due) + [j], After(js, j.due));
  }

  lemma {:induction false} WorkResubmit(now: nat, batch: seq<Job>, js: seq<Job>)
    requires FiniteJobs(batch) && FiniteJobs(js)
    ensures Work(Resubmit(now, batch, js)) + |batch| == Work(js) + Work(batch)
    ensures FiniteJobs(Resubmit(now, batch, js))
    decreases |batch|
  {
    if batch != [] {
      if batch[0].Repeats() {
        WorkInsert(js, batch[0].Again(now));
        WorkResubmit(now, batch[1..], InsertStable(js, batch[0].Again(now)));
      } else {
        WorkResubmit(now, batch[1..], js);
      }
    }
  }

  /** A firing uses up exactly one send for every message in its batch. */
  lemma {:induction false} FireWork(now: nat, jobs: seq<Job>, log: seq<Event>)
    requires FiniteJobs(jobs)
    ensures var a := FireAgenda(now, jobs, log);
            Work(a.jobs) + |Upto(jobs, now)| == Work(jobs) && FiniteJobs(a.jobs)
  {
    WorkSplit(jobs, now);
    WorkResubmit(now, Upto(jobs, now), After(jobs, now));
  }

  lemma {:induction false} InitialFinite(base: nat, slot: nat, reqs: seq<Request>)
    requires AllFinite(reqs)
    ensures FiniteJobs(InitialJobs(base, slot, reqs))
    decreases |reqs|
  {
    if reqs != [] {
      InitialFinite(base + reqs[0].delay, slot + 1, reqs[1..]);
      var js := InitialJobs(base, slot, reqs);
      assert js[1..] == InitialJobs(base + reqs[0].delay, slot + 1, reqs[1..]);
      assert !reqs[0].Endless();
    }
  }

  lemma {:induction false} RunFinite(reqs: seq<Request>, n: nat)
    requires AllFinite(reqs)
    ensures FiniteJobs(AgendaRun(reqs, n).jobs)
  {
    if n == 0 {
      InitialFinite(0, 0, reqs);
      FireWork(0, InitialJobs(0, 0, reqs), []);
    } else {
      RunFinite(reqs, n - 1);
      var a := AgendaRun(reqs, n - 1);
      if a.jobs != [] {
        FireWork(a.jobs[0].due, a.jobs, a.log);
      }
    }
  }

  /** When nothing repeats for ever, each firing lowers the sends still owed by the size of its
      batch, and the batch is never empty. */
  lemma {:induction false} EachFiringPaysForItsBatch(reqs: seq<Request>, n: nat)
    requires AllFinite(reqs) && AgendaRun(reqs, n).jobs != []
    ensures var a := AgendaRun(reqs, n);
            var batch := Upto(a.jobs, a.jobs[0].due);
            && batch != []
            && Work(AgendaRun(reqs, n + 1).jobs) == Work(a.jobs) - |batch|
  {
    var a := AgendaRun(reqs, n);
    RunFinite(reqs, n);
    FireWork(a.jobs[0].due, a.jobs, a.log);
    assert AgendaRun(reqs, n + 1) == FireAgenda(a.jobs[0].due, a.jobs, a.log);
  }

  lemma {:induction false} WorkRunsOut(reqs: seq<Request>, n: nat)
    requires AllFinite(reqs)
    ensures var a := AgendaRun(reqs, n);
            a.jobs == [] || Work(a.jobs) + n <= Work(InitialJobs(0, 0, reqs))
  {
    if n == 0 {
      InitialFinite(0, 0, reqs);
      FireWork(0, InitialJobs(0, 0, reqs), []);
    } else {
      WorkRunsOut(reqs, n - 1);
      if AgendaRun(reqs, n - 1).jobs != [] {
        EachFiringPaysForItsBatch(reqs, n - 1);
      }
    }
  }

  // ---------------------------------------------------------------------------
  // The completion callback

  predicate NoCompletion(log: seq<Event>) {
    forall k :: 0 <= k < |log| ==> log[k].Sent?
  }

  /** The completion callback was the last call, at `at`, and the only one of its kind. */
  predicate CompletedLast(log: seq<Event>, at: nat) {
    log != [] && log[|log| - 1] == Completed(at) && NoCompletion(log[..|log| - 1])
  }

  lemma {:induction false} FireCompletes(now: nat, jobs: seq<Job>, log: seq<Event>)
    requires NoCompletion(log)
    ensures var a := FireAgenda(now, jobs, log);
            if a.jobs == [] then CompletedLast(a.log, now) else NoCompletion(a.log)
  {
    var a := FireAgenda(now, jobs, log);
    var slots := Slots(Upto(jobs, now));
    var sent := if slots == [] then [] else [Sent(now, slots)];
    if a.jobs == [] {
      assert a.log == (log + sent) + [Completed(now)];
      assert a.log[..|a.log| - 1] == log + sent;
    } else {
      assert a.log == log + sent;
    }
  }

  lemma {:induction false} CompletedWhenEmpty(reqs: seq<Request>, n: nat)
    ensures var a := AgendaRun(reqs, n);
            if a.jobs == [] then CompletedLast(a.log, a.clock) else NoCompletion(a.log)
  {
    if n == 0 {
      FireCompletes(0, InitialJobs(0, 0, reqs), []);
    } else {
      CompletedWhenEmpty(reqs, n - 1);
      var a := AgendaRun(reqs, n - 1);
      if a.jobs != [] {
        FireCompletes(a.jobs[0].due, a.jobs, a.log);
      }
    }
  }

  /** Once empty, an agenda never changes again. */
  lemma {:induction false} EmptyIsFinal(reqs: seq<Request>, n: nat, m: nat)
    requires n <= m && AgendaRun(reqs, n).jobs == []
    ensures AgendaRun(reqs, m) == AgendaRun(reqs, n)
    decreases m
  {
    if n < m {
      EmptyIsFinal(reqs, n, m - 1);
    }
  }

  // ---------------------------------------------------------------------------
  // The instant of completion

  /** The latest final send among the first `n` messages; 0 when there is none. */
  function LastDue(reqs: seq<Request>, n: nat): nat
    requires n <= |reqs| && AllFinite(reqs)
  {
    if n == 0 then 0
    else
      var rest := LastDue(reqs, n - 1);
      var mine := Due(reqs, n - 1, reqs[n - 1].Total() - 1);
      if rest < mine then mine else rest
  }

  lemma {:induction false} LastDueBounds(reqs: seq<Request>, n: nat, i: nat)
    requires i < n <= |reqs| && AllFinite(reqs)
    ensures Due(reqs, i, reqs[i].Total() - 1) <= LastDue(reqs, n)
  {
    if i < n - 1 {
      LastDueBounds(reqs, n - 1, i);
    }
  }

  lemma {:induction false} LastDueReached(reqs: seq<Request>, n: nat, t: nat)
    requires n <= |reqs| && AllFinite(reqs)
    requires forall i :: 0 <= i < n ==> Due(reqs, i, reqs[i].Total() - 1) <= t
    ensures LastDue(reqs, n) <= t
  {
    if n != 0 {
      LastDueReached(reqs, n - 1, t);
    }
  }

  /** The clock of a run stands on a send, except right after `start`. */
  lemma {:induction false} ClockOnSend(reqs: seq<Request>, n: nat)
    ensures var a := AgendaRun(reqs, n);
            a.clock == 0 || exists i :: 0 <= i < |reqs| && a.clock in SendTimes(a.log, i)
  {
    if n != 0 {
      ClockOnSend(reqs, n - 1);
      var a := AgendaRun(reqs, n - 1);
      if a.jobs != [] {
        HeadIsSent(reqs, n - 1);
      }
    }
  }

  lemma {:induction false} HeadIsSent(reqs: seq<Request>, n: nat)
    requires AgendaRun(reqs, n).jobs != []
    ensures var a, b := AgendaRun(reqs, n), AgendaRun(reqs, n + 1);
            var i := a.jobs[0].slot;
            i < |reqs| && b.clock in SendTimes(b.log, i)
  {
    var a := AgendaRun(reqs, n);
    var i := a.jobs[0].slot;
    var mine := Of(a.jobs, i);
    assert mine == [a.jobs[0]] + Of(a.jobs[1..], i);
    if |reqs| <= i {
      NothingElseSent(reqs, i, n);
    }
    RunTracks(reqs, i, n);
    FireOne(a.jobs[0].due, a.jobs, a.log, i);
    var b := FireAgenda(a.jobs[0].due, a.jobs, a.log);
    var times := SendTimes(b.log, i);
    assert times[|times| - 1] == b.clock;
  }

  /** An empty agenda was emptied by the last of all final sends. */
  lemma {:induction false} EmptiedByLastSend(reqs: seq<Request>, n: nat)
    requires AllFinite(reqs) && AgendaRun(reqs, n).jobs == []
    ensures AgendaRun(reqs, n).clock == LastDue(reqs, |reqs|)
  {
    var a := AgendaRun(reqs, n);
    forall i | 0 <= i < |reqs|
      ensures Due(reqs, i, reqs[i].Total() - 1) <= a.clock
    {
      RunTracks(reqs, i, n);
      assert Of(a.jobs, i) == [];
    }
    LastDueReached(reqs, |reqs|, a.clock);
    ClockAtMostLast(reqs, n);
  }

  lemma {:induction false} ClockAtMostLast(reqs: seq<Request>, n: nat)
    requires AllFinite(reqs)
    ensures AgendaRun(reqs, n).clock <= LastDue(reqs, |reqs|)
  {
    var a := AgendaRun(reqs, n);
    ClockOnSend(reqs, n);
    if a.clock != 0 {
      var i :| 0 <= i < |reqs| && a.clock in SendTimes(a.log, i);
      SentByLast(reqs, i, n, a.clock);
      LastDueBounds(reqs, |reqs|, i);
    }
  }

  lemma {:induction false} SentByLast(reqs: seq<Request>, i: nat, n: nat, t: nat)
    requires i < |reqs| && AllFinite(reqs) && t in SendTimes(AgendaRun(reqs, n).log, i)
    ensures t <= Due(reqs, i, reqs[i].Total() - 1)
  {
    var times := SendTimes(AgendaRun(reqs, n).log, i);
    var k :| 0 <= k < |times| && times[k] == t;
    ExactSchedule(reqs, i, n);
    assert Due(reqs, i, k) == t;
    DueMonotone(reqs, i, k, reqs[i].Total() - 1);
  }

  /** A list without endless messages completes: the completion callback is made once, last of
      all, at the latest final send, and nothing happens afterwards. */
  lemma {:induction false} FiniteListCompletes(reqs: seq<Request>)
    requires AllFinite(reqs)
    ensures exists n :: CompletesAfter(reqs, n)
  {
    var n := Work(InitialJobs(0, 0, reqs));
    WorkRunsOut(reqs, n);
    RunFinite(reqs, n);
    CompletedWhenEmpty(reqs, n);
    EmptiedByLastSend(reqs, n);
    forall m | n <= m ensures AgendaRun(reqs, m) == AgendaRun(reqs, n) {
      EmptyIsFinal(reqs, n, m);
    }
    assert CompletesAfter(reqs, n);
  }

  ghost predicate CompletesAfter(reqs: seq<Request>, n: nat)
    requires AllFinite(reqs)
  {
    var a := AgendaRun(reqs, n);
    && a.jobs == []
    && a.clock == LastDue(reqs, |reqs|)
    && CompletedLast(a.log, a.clock)
    && (forall m :: n <= m ==> AgendaRun(reqs, m) == a)
  }

  /** One endless message is enough to keep a run going: completion is never reported. */
  lemma {:induction false} EndlessNeverCompletes(reqs: seq<Request>, i: nat, n: nat)
    requires i < |reqs| && reqs[i].Endless()
    ensures AgendaRun(reqs, n).jobs != [] && NoCompletion(AgendaRun(reqs, n).log)
  {
    RunTracks(reqs, i, n);
    CompletedWhenEmpty(reqs, n);
  }

  /** A run completes exactly when no message in the list repeats for ever. */
  lemma {:induction false} CompletesIffFinite(reqs: seq<Request>)
    ensures (exists n: nat :: AgendaRun(reqs, n).jobs == []) <==> AllFinite(reqs)
  {
    if AllFinite(reqs) {
      FiniteListCompletes(reqs);
      var n: nat :| CompletesAfter(reqs, n);
      assert AgendaRun(reqs, n).jobs == [];
    } else {
      var i :| 0 <= i < |reqs| && reqs[i].Endless();
      forall n: nat ensures AgendaRun(reqs, n).jobs != [] {
        EndlessNeverCompletes(reqs, i, n);
      }
    }
  }
}
