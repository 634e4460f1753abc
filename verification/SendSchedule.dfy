/** Theorems about every run of the send agenda: the exact schedule of every message, that every
    due send happens, and when the run completes. */
module SendSchedule {
  import opened Wrappers
  import opened SendQueue
  import opened SendAgenda

  /** The instant of the `k`-th send of message `i`. */
  function Due(reqs: seq<Request>, i: nat, k: nat): nat
    requires i < |reqs|
  {
    Offset(reqs, i) + k * reqs[i].period
  }

  /** Message `r` has a `k`-th send. */
  predicate HasRound(r: Request, k: nat) {
    r.Endless() || k < r.Total()
  }

  /** Without a period a message is sent once, whatever its count; with one as often as its count
      says, once if that is not set, and for ever if it is zero. */
  lemma {:induction false} RoundsMeaning(delay: nat, period: nat, k: nat)
    ensures forall count: Option<nat> :: HasRound(Request(delay, 0, count), k) <==> k == 0
    ensures period != 0 ==> (HasRound(Request(delay, period, None), k) <==> k == 0)
    ensures period != 0 ==> HasRound(Request(delay, period, Some(0)), k)
    ensures period != 0 ==>
              forall c: nat :: c != 0 ==> (HasRound(Request(delay, period, Some(c)), k) <==> k < c)
  {
  }

  lemma {:induction false} DueMonotone(reqs: seq<Request>, i: nat, j: nat, k: nat)
    requires i < |reqs| && j <= k
    ensures Due(reqs, i, j) <= Due(reqs, i, k)
  {
    var p := reqs[i].period;
    assert k * p == j * p + (k - j) * p;
    assert 0 <= (k - j) * p;
  }

  lemma {:induction false} DueNext(reqs: seq<Request>, i: nat, k: nat)
    requires i < |reqs|
    ensures Due(reqs, i, k + 1) == Due(reqs, i, k) + reqs[i].period
  {
  }

  /** What the agenda knows about message `i` between firings: everything sent so far was sent on
      its due instant, and the one job left, if any, is the next round. */
  ghost predicate Tracks(reqs: seq<Request>, i: nat, clock: nat, mine: seq<Job>, times: seq<nat>)
    requires i < |reqs|
  {
    var r := reqs[i];
    && |mine| <= 1
    && (forall k :: 0 <= k < |times| ==> times[k] == Due(reqs, i, k))
    && (times != [] ==> Due(reqs, i, |times| - 1) <= clock)
    && (mine == [] ==> !r.Endless() && |times| == r.Total())
    && (mine != [] ==>
          && NextRound(r, mine[0], |times|)
          && mine[0].due == Due(reqs, i, |times|))
  }

  predicate NextRound(r: Request, j: Job, done: nat) {
    && j.period == r.period
    && (done != 0 ==> r.period != 0)
    && (if r.period == 0 || r.Endless() then j.Count() == r.Count()
        else 0 < j.Count() && j.Count() + done == r.Count())
  }

  lemma {:induction false} InitialOf(base: nat, slot: nat, reqs: seq<Request>, i: nat)
    ensures Of(InitialJobs(base, slot, reqs), i)
         == if slot <= i < slot + |reqs|
            then [Job(base + Offset(reqs, i - slot), i, reqs[i - slot].period, reqs[i - slot].count)]
            else []
    decreases |reqs|
  {
    if reqs != [] {
      InitialOf(base + reqs[0].delay, slot + 1, reqs[1..], i);
      var js := InitialJobs(base, slot, reqs);
      assert js[1..] == InitialJobs(base + reqs[0].delay, slot + 1, reqs[1..]);
    }
  }

  /** One firing keeps track of message `i`. */
  lemma {:induction false} FireTracks(reqs: seq<Request>, i: nat, clock: nat, now: nat, jobs: seq<Job>, log: seq<Event>)
    requires i < |reqs| && clock <= now
    requires Tracks(reqs, i, clock, Of(jobs, i), SendTimes(log, i))
    requires Of(jobs, i) != [] ==> now <= Of(jobs, i)[0].due
    ensures var a := FireAgenda(now, jobs, log);
            Tracks(reqs, i, now, Of(a.jobs, i), SendTimes(a.log, i))
  {
    var mine, times := Of(jobs, i), SendTimes(log, i);
    FireOne(now, jobs, log, i);
    if mine != [] && mine[0].due <= now {
      SendTracks(reqs, i, clock, now, mine[0], times);
    }
  }

  /** Message `i` is sent at its due instant: its next round, if there is one, is on the agenda. */
  lemma {:induction false} SendTracks(reqs: seq<Request>, i: nat, clock: nat, now: nat, j: Job, times: seq<nat>)
    requires i < |reqs| && now == j.due && Tracks(reqs, i, clock, [j], times)
    ensures Tracks(reqs, i, now, if j.Repeats() then [j.Again(now)] else [], times + [now])
  {
    DueNext(reqs, i, |times|);
    var all := times + [now];
    assert forall k :: 0 <= k < |all| ==> all[k] == Due(reqs, i, k);
  }

  lemma {:induction false} OfFrom(js: seq<Job>, i: nat, lo: nat)
    requires AllFrom(js, lo)
    ensures AllFrom(Of(js, i), lo)
  {
    if js != [] {
      OfFrom(js[1..], i, lo);
      ConcatFrom(if js[0].slot == i then [js[0]] else [], Of(js[1..], i), lo);
    }
  }

  predicate Ordered(js: seq<Job>) {
    js == [] || (AllFrom(js[1..], js[0].due) && Ordered(js[1..]))
  }

  lemma {:induction false} OrderedSplit(js: seq<Job>, t: nat)
    requires Ordered(js)
    ensures Ordered(Upto(js, t)) && Ordered(After(js, t))
  {
    if js != [] {
      OrderedSplit(js[1..], t);
      SplitFrom(js[1..], t, js[0].due);
      var early, late := Upto(js[1..], t), After(js[1..], t);
      assert ([js[0]] + early)[1..] == early && [] + early == early;
      assert ([js[0]] + late)[1..] == late && [] + late == late;
    }
  }

  lemma {:induction false} OrderedConcat(a: seq<Job>, j: Job, b: seq<Job>)
    requires Ordered(a) && Ordered(b) && AllUpto(a, j.due) && AllFrom(b, j.due)
    ensures Ordered(a + [j] + b)
  {
    var s := a + [j] + b;
    if a == [] {
      assert s[1..] == b;
    } else {
      OrderedConcat(a[1..], j, b);
      assert s[1..] == a[1..] + [j] + b;
      AllFromWeaken(b, j.due, a[0].due);
      ConcatFrom(a[1..], [j], a[0].due);
      ConcatFrom(a[1..] + [j], b, a[0].due);
    }
  }

  lemma {:induction false} UptoUpto(js: seq<Job>, t: nat)
    ensures AllUpto(Upto(js, t), t)
  {
    if js != [] {
      UptoUpto(js[1..], t);
      var early := Upto(js[1..], t);
      assert ([js[0]] + early)[1..] == early && [] + early == early;
    }
  }

  lemma {:induction false} InsertOrdered(js: seq<Job>, j: Job)
    requires Ordered(js)
    ensures Ordered(InsertStable(js, j))
  {
    OrderedSplit(js, j.due);
    UptoUpto(js, j.due);
    AfterFrom(js, j.due);
    AllFromWeaken(After(js, j.due), j.due + 1, j.due);
    OrderedConcat(Upto(js, j.due), j, After(js, j.due));
  }

  lemma {:induction false} ResubmitOrdered(now: nat, batch: seq<Job>, js: seq<Job>)
    requires Ordered(js)
    ensures Ordered(Resubmit(now, batch, js))
    decreases |batch|
  {
    if batch != [] {
      if batch[0].Repeats() {
        InsertOrdered(js, batch[0].Again(now));
        ResubmitOrdered(now, batch[1..], InsertStable(js, batch[0].Again(now)));
      } else {
        ResubmitOrdered(now, batch[1..], js);
      }
    }
  }

  lemma {:induction false} InitialOrdered(base: nat, slot: nat, reqs: seq<Request>)
    ensures Ordered(InitialJobs(base, slot, reqs))
    ensures AllFrom(InitialJobs(base, slot, reqs), base)
    decreases |reqs|
  {
    if reqs != [] {
      InitialOrdered(base + reqs[0].delay, slot + 1, reqs[1..]);
      var js := InitialJobs(base, slot, reqs);
      assert js[1..] == InitialJobs(base + reqs[0].delay, slot + 1, reqs[1..]);
      AllFromWeaken(js[1..], base + reqs[0].delay, base);
    }
  }

  /** On every run the agenda is ordered by deadline. */
  lemma {:induction false} RunOrdered(reqs: seq<Request>, n: nat)
    ensures Ordered(AgendaRun(reqs, n).jobs)
  {
    if n == 0 {
      InitialOrdered(0, 0, reqs);
      OrderedSplit(InitialJobs(0, 0, reqs), 0);
      ResubmitOrdered(0, Upto(InitialJobs(0, 0, reqs), 0), After(InitialJobs(0, 0, reqs), 0));
    } else {
      RunOrdered(reqs, n - 1);
      var a := AgendaRun(reqs, n - 1);
      if a.jobs != [] {
        var now := a.jobs[0].due;
        OrderedSplit(a.jobs, now);
        ResubmitOrdered(now, Upto(a.jobs, now), After(a.jobs, now));
      }
    }
  }

  ghost predicate Tracked(reqs: seq<Request>, i: nat, a: Agenda)
    requires i < |reqs|
  {
    Tracks(reqs, i, a.clock, Of(a.jobs, i), SendTimes(a.log, i))
  }

  lemma {:induction false} NextTracks(reqs: seq<Request>, i: nat, a: Agenda, b: Agenda)
    requires i < |reqs| && Tracked(reqs, i, a) && b == AgendaNext(a)
    requires Ordered(a.jobs) && AllFrom(a.jobs, a.clock + 1)
    ensures Tracked(reqs, i, b)
  {
    if a.jobs != [] {
      OfFrom(a.jobs, i, a.jobs[0].due);
      FireTracks(reqs, i, a.clock, a.jobs[0].due, a.jobs, a.log);
    }
  }

  lemma {:induction false} StartTracks(reqs: seq<Request>, i: nat)
    requires i < |reqs|
    ensures Tracked(reqs, i, AgendaRun(reqs, 0))
  {
    InitialOf(0, 0, reqs, i);
    FireTracks(reqs, i, 0, 0, InitialJobs(0, 0, reqs), []);
  }

  /** On every run the agenda and the log agree about message `i`. */
  lemma {:induction false} RunTracks(reqs: seq<Request>, i: nat, n: nat)
    requires i < |reqs|
    ensures Tracked(reqs, i, AgendaRun(reqs, n))
  {
    TracksAt(reqs, i, n, AgendaRun(reqs, n));
  }

  lemma {:induction false} TracksAt(reqs: seq<Request>, i: nat, n: nat, a: Agenda)
    requires i < |reqs| && a == AgendaRun(reqs, n)
    ensures Tracked(reqs, i, a)
    decreases n
  {
    if n == 0 {
      StartTracks(reqs, i);
    } else {
      var before := AgendaRun(reqs, n - 1);
      assert Ordered(before.jobs) && AllFrom(before.jobs, before.clock + 1) by {
        FiringLeavesFuture(reqs, n - 1);
        RunOrdered(reqs, n - 1);
      }
      TracksAt(reqs, i, n - 1, before);
      NextTracks(reqs, i, before, a);
    }
  }

  /** `times` are exactly those due instants of message `i` that `clock` has reached, each once,
      in order. */
  ghost predicate OnSchedule(reqs: seq<Request>, i: nat, clock: nat, times: seq<nat>)
    requires i < |reqs|
  {
    && (forall k: nat {:trigger Due(reqs, i, k)} ::
          k < |times| <==> HasRound(reqs[i], k) && Due(reqs, i, k) <= clock)
    && (forall k :: 0 <= k < |times| ==> times[k] == Due(reqs, i, k))
  }

  lemma {:induction false} TrackedOnSchedule(reqs: seq<Request>, i: nat, a: Agenda)
    requires i < |reqs| && Tracked(reqs, i, a) && AllFrom(a.jobs, a.clock + 1)
    ensures OnSchedule(reqs, i, a.clock, SendTimes(a.log, i))
  {
    var times := SendTimes(a.log, i);
    OfFrom(a.jobs, i, a.clock + 1);
    forall k: nat
      ensures k < |times| <==> HasRound(reqs[i], k) && Due(reqs, i, k) <= a.clock
    {
      if k < |times| {
        DueMonotone(reqs, i, k, |times| - 1);
      } else {
        DueMonotone(reqs, i, |times|, k);
      }
    }
  }

  /** The schedule, on every run and after any number of firings. */
  lemma {:induction false} ExactSchedule(reqs: seq<Request>, i: nat, n: nat)
    requires i < |reqs|
    ensures OnSchedule(reqs, i, AgendaRun(reqs, n).clock, SendTimes(AgendaRun(reqs, n).log, i))
  {
    RunTracks(reqs, i, n);
    FiringLeavesFuture(reqs, n);
    TrackedOnSchedule(reqs, i, AgendaRun(reqs, n));
  }

  /** Nothing but the listed messages is ever sent. */
  lemma {:induction false} NothingElseSent(reqs: seq<Request>, i: nat, n: nat)
    requires |reqs| <= i
    ensures SendTimes(AgendaRun(reqs, n).log, i) == [] && Of(AgendaRun(reqs, n).jobs, i) == []
  {
    if n == 0 {
      InitialOf(0, 0, reqs, i);
      FireOne(0, InitialJobs(0, 0, reqs), [], i);
    } else {
      NothingElseSent(reqs, i, n - 1);
      var a := AgendaRun(reqs, n - 1);
      if a.jobs != [] {
        FireOne(a.jobs[0].due, a.jobs, a.log, i);
      }
    }
  }

  // ---------------------------------------------------------------------------
  // Progress and completion

  /** Every firing advances the clock. */
  lemma {:induction false} ClockAdvances(reqs: seq<Request>, n: nat)
    ensures var a := AgendaRun(reqs, n); a.jobs == [] || n <= a.clock
  {
    if n != 0 {
      ClockAdvances(reqs, n - 1);
      FiringLeavesFuture(reqs, n - 1);
    }
  }

  /** Every round a message has is eventually sent, on its due instant. */
  lemma {:induction false} EverySendHappens(reqs: seq<Request>, i: nat, k: nat)
    requires i < |reqs| && HasRound(reqs[i], k)
    ensures exists n :: Due(reqs, i, k) in SendTimes(AgendaRun(reqs, n).log, i)
  {
    var n := Due(reqs, i, k);
    var a := AgendaRun(reqs, n);
    var times := SendTimes(a.log, i);
    ExactSchedule(reqs, i, n);
    RunTracks(reqs, i, n);
    ClockAdvances(reqs, n);
    assert a.jobs == [] ==> Of(a.jobs, i) == [];
    assert k < |times|;
    assert times[k] in times;
  }
}
