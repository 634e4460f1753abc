/** What the send scheduler is for, stated over absolute deadlines: an agenda of pending sends
    that fires everything due, in order, and puts repeating sends back one period later.
    lib/src/ToolsMsgSendMgrImpl.cpp implements it with relative delays and one timer. */
module SendAgenda {
  import opened SendQueue
  import opened Seqs

  /** The two callbacks of the scheduler. */
  datatype Event = Sent(at: nat, slots: seq<nat>) | Completed(at: nat)

  datatype Agenda = Agenda(clock: nat, jobs: seq<Job>, log: seq<Event>)

  function Slots(js: seq<Job>): (r: seq<nat>)
    ensures |r| == |js|
  {
    if js == [] then [] else [js[0].slot] + Slots(js[1..])
  }

  /** The events of one firing: the batch if there is one, then completion if nothing is left. */
  function Events(now: nat, slots: seq<nat>, left: bool): seq<Event> {
    (if slots == [] then [] else [Sent(now, slots)]) + (if left then [] else [Completed(now)])
  }

  function FireAgenda(now: nat, jobs: seq<Job>, log: seq<Event>): Agenda {
    var batch := Upto(jobs, now);
    var jobs' := Resubmit(now, batch, After(jobs, now));
    Agenda(now, jobs', log + Events(now, Slots(batch), jobs' != []))
  }

  /** Deadline of message `i`: the sum of the delays up to and including its own. */
  function Offset(reqs: seq<Request>, i: nat): nat
    requires i < |reqs|
  {
    if i == 0 then reqs[0].delay else reqs[0].delay + Offset(reqs[1..], i - 1)
  }

  function InitialJobs(base: nat, slot: nat, reqs: seq<Request>): seq<Job>
    decreases |reqs|
  {
    if reqs == [] then []
    else [Job(base + reqs[0].delay, slot, reqs[0].period, reqs[0].count)]
         + InitialJobs(base + reqs[0].delay, slot + 1, reqs[1..])
  }

  /** The firing at the earliest deadline; an empty agenda stays as it is. */
  function AgendaNext(a: Agenda): Agenda {
    if a.jobs == [] then a else FireAgenda(a.jobs[0].due, a.jobs, a.log)
  }

  /** The agenda after `start` and `n` further firings. */
  function AgendaRun(reqs: seq<Request>, n: nat): Agenda {
    if n == 0 then FireAgenda(0, InitialJobs(0, 0, reqs), []) else AgendaNext(AgendaRun(reqs, n - 1))
  }

  // ---------------------------------------------------------------------------
  // Deadlines stay in the future

  lemma {:induction false} SplitFrom(js: seq<Job>, t: nat, lo: nat)
    requires AllFrom(js, lo)
    ensures AllFrom(Upto(js, t), lo) && AllFrom(After(js, t), lo)
  {
    if js != [] {
      SplitFrom(js[1..], t, lo);
      var rest := Upto(js[1..], t);
      assert ([js[0]] + rest)[1..] == rest;
      var late := After(js[1..], t);
      assert ([js[0]] + late)[1..] == late;
      assert [] + rest == rest && [] + late == late;
    }
  }

  lemma {:induction false} AfterFrom(js: seq<Job>, t: nat)
    ensures AllFrom(After(js, t), t + 1)
  {
    if js != [] {
      AfterFrom(js[1..], t);
      var late := After(js[1..], t);
      assert ([js[0]] + late)[1..] == late && [] + late == late;
    }
  }

  lemma {:induction false} ConcatFrom(a: seq<Job>, b: seq<Job>, lo: nat)
    requires AllFrom(a, lo) && AllFrom(b, lo)
    ensures AllFrom(a + b, lo)
  {
    if a == [] {
      assert a + b == b;
    } else {
      ConcatFrom(a[1..], b, lo);
      assert (a + b)[1..] == a[1..] + b;
    }
  }

  lemma {:induction false} InsertFrom(js: seq<Job>, j: Job, lo: nat)
    requires AllFrom(js, lo) && lo <= j.due
    ensures AllFrom(InsertStable(js, j), lo)
  {
    SplitFrom(js, j.due, lo);
    ConcatFrom(Upto(js, j.due), [j], lo);
    ConcatFrom(Upto(js, j.due) + [j], After(js, j.due), lo);
  }

  lemma {:induction false} ResubmitFrom(now: nat, batch: seq<Job>, js: seq<Job>)
    requires AllFrom(js, now + 1)
    ensures AllFrom(Resubmit(now, batch, js), now + 1)
    decreases |batch|
  {
    if batch != [] {
      if batch[0].Repeats() {
        InsertFrom(js, batch[0].Again(now), now + 1);
        ResubmitFrom(now, batch[1..], InsertStable(js, batch[0].Again(now)));
      } else {
        ResubmitFrom(now, batch[1..], js);
      }
    }
  }

  /** After every firing whatever is still on the agenda is due strictly later. */
  lemma {:induction false} FiringLeavesFuture(reqs: seq<Request>, n: nat)
    ensures var a := AgendaRun(reqs, n); AllFrom(a.jobs, a.clock + 1)
    decreases n
  {
    if n == 0 {
      var js := InitialJobs(0, 0, reqs);
      AfterFrom(js, 0);
      ResubmitFrom(0, Upto(js, 0), After(js, 0));
    } else {
      var a := AgendaRun(reqs, n - 1);
      if a.jobs == [] {
        FiringLeavesFuture(reqs, n - 1);
      } else {
        var now := a.jobs[0].due;
        AfterFrom(a.jobs, now);
        ResubmitFrom(now, Upto(a.jobs, now), After(a.jobs, now));
      }
    }
  }

  // ---------------------------------------------------------------------------
  // One message at a time

  /** The jobs of one slot. */
  function Of(js: seq<Job>, i: nat): seq<Job> {
    if js == [] then [] else (if js[0].slot == i then [js[0]] else []) + Of(js[1..], i)
  }

  /** `at`, once for every occurrence of `i`. */
  function Stamps(at: nat, slots: seq<nat>, i: nat): seq<nat> {
    if slots == [] then [] else (if slots[0] == i then [at] else []) + Stamps(at, slots[1..], i)
  }

  /** The instants at which message `i` was sent, in the order of the log. */
  function SendTimes(log: seq<Event>, i: nat): seq<nat> {
    if log == [] then []
    else (match log[0] case Sent(at, slots) => Stamps(at, slots, i) case Completed(_) => [])
         + SendTimes(log[1..], i)
  }

  lemma {:induction false} SendTimesConcat(a: seq<Event>, b: seq<Event>, i: nat)
    ensures SendTimes(a + b, i) == SendTimes(a, i) + SendTimes(b, i)
  {
    var ab := a + b;
    if a == [] {
      assert ab == b;
    } else {
      var head := if a[0].Sent? then Stamps(a[0].at, a[0].slots, i) else [];
      assert ab[0] == a[0] && ab[1..] == a[1..] + b;
      SendTimesConcat(a[1..], b, i);
      Assoc(head, SendTimes(a[1..], i), SendTimes(b, i));
    }
  }

  lemma {:induction false} OfConcat(a: seq<Job>, b: seq<Job>, i: nat)
    ensures Of(a + b, i) == Of(a, i) + Of(b, i)
  {
    var ab := a + b;
    if a == [] {
      assert ab == b;
    } else {
      var head := if a[0].slot == i then [a[0]] else [];
      assert ab[0] == a[0] && ab[1..] == a[1..] + b;
      OfConcat(a[1..], b, i);
      Assoc(head, Of(a[1..], i), Of(b, i));
    }
  }

  lemma {:induction false} OfSplit(js: seq<Job>, t: nat, i: nat)
    ensures Of(Upto(js, t), i) == Upto(Of(js, i), t)
    ensures Of(After(js, t), i) == After(Of(js, i), t)
  {
    if js != [] {
      OfSplit(js[1..], t, i);
      var head := [js[0]];
      OfConcat(if js[0].due <= t then head else [], Upto(js[1..], t), i);
      OfConcat(if t < js[0].due then head else [], After(js[1..], t), i);
      SplitConcat(if js[0].slot == i then head else [], Of(js[1..], i), t);
    }
  }

  /** Stable insertion disturbs no other message. */
  lemma {:induction false} OfInsert(js: seq<Job>, j: Job, i: nat)
    requires |Of(js, i)| + (if j.slot == i then 1 else 0) <= 1
    ensures Of(InsertStable(js, j), i) == if j.slot == i then [j] else Of(js, i)
  {
    OfConcat(Upto(js, j.due), [j], i);
    OfConcat(Upto(js, j.due) + [j], After(js, j.due), i);
    OfSplit(js, j.due, i);
    SplitSingle(Of(js, i), j.due);
  }

  lemma {:induction false} SplitSingle(js: seq<Job>, t: nat)
    requires |js| <= 1
    ensures Upto(js, t) + After(js, t) == js
    ensures Upto(js, t) == if js != [] && js[0].due <= t then js else []
    ensures After(js, t) == if js != [] && t < js[0].due then js else []
  {
    if js != [] {
      assert js[1..] == [] && [js[0]] == js;
      assert Upto(js[1..], t) == [] && After(js[1..], t) == [];
    }
  }

  lemma {:induction false} OfResubmit(now: nat, batch: seq<Job>, js: seq<Job>, i: nat)
    requires |Of(batch, i)| + |Of(js, i)| <= 1
    ensures Of(Resubmit(now, batch, js), i)
         == if Of(batch, i) == [] then Of(js, i)
            else if Of(batch, i)[0].Repeats() then [Of(batch, i)[0].Again(now)] else []
    decreases |batch|
  {
    if batch != [] {
      var b := batch[0];
      if b.Repeats() {
        OfInsert(js, b.Again(now), i);
        if b.slot == i {
          assert Of(batch, i) == [b] + Of(batch[1..], i);
          assert Of(batch[1..], i) == [];
        }
        OfResubmit(now, batch[1..], InsertStable(js, b.Again(now)), i);
      } else {
        OfResubmit(now, batch[1..], js, i);
        if b.slot == i {
          assert Of(batch, i) == [b] + Of(batch[1..], i);
          assert Of(batch[1..], i) == [];
        }
      }
    }
  }

  lemma {:induction false} StampsOf(at: nat, js: seq<Job>, i: nat)
    ensures |Of(js, i)| == 0 ==> Stamps(at, Slots(js), i) == []
    ensures |Of(js, i)| == 1 ==> Stamps(at, Slots(js), i) == [at]
  {
    if js != [] {
      StampsOf(at, js[1..], i);
      assert Slots(js)[1..] == Slots(js[1..]);
    }
  }

  lemma {:induction false} EventsTimes(now: nat, slots: seq<nat>, left: bool, i: nat)
    ensures SendTimes(Events(now, slots, left), i) == Stamps(now, slots, i)
  {
    var sent := if slots == [] then [] else [Sent(now, slots)];
    var done := if left then [] else [Completed(now)];
    SendTimesConcat(sent, done, i);
    if slots != [] {
      assert sent[1..] == [];
    }
    if !left {
      assert done[1..] == [];
    }
  }

  /** How one firing looks to message `i`. */
  lemma {:induction false} FireOne(now: nat, jobs: seq<Job>, log: seq<Event>, i: nat)
    requires |Of(jobs, i)| <= 1
    ensures var a := FireAgenda(now, jobs, log);
            var mine := Of(jobs, i);
            if mine != [] && mine[0].due <= now
            then && SendTimes(a.log, i) == SendTimes(log, i) + [now]
                 && Of(a.jobs, i) == (if mine[0].Repeats() then [mine[0].Again(now)] else [])
            else && SendTimes(a.log, i) == SendTimes(log, i)
                 && Of(a.jobs, i) == mine
  {
    var mine, batch, rest := Of(jobs, i), Upto(jobs, now), After(jobs, now);
    OfSplit(jobs, now, i);
    SplitSingle(mine, now);
    OfResubmit(now, batch, rest, i);
    var left := Resubmit(now, batch, rest) != [];
    SendTimesConcat(log, Events(now, Slots(batch), left), i);
    EventsTimes(now, Slots(batch), left, i);
    StampsOf(now, batch, i);
  }
}
