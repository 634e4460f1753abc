/** The order of messages that are due at the same instant.  Messages that were listed together stay
    in list order; a message whose turn comes round again stands behind those that were put into
    the queue before it, and before those that were put there after it. */
module SendOrder {
  import opened SendQueue
  import opened SendAgenda
  import opened SendSchedule

  /** Of two messages due at `at`, message `i` goes out before message `j`: it was queued earlier.
      A first round was queued at the start, any other one period ago. */
  predicate Precedes(reqs: seq<Request>, at: nat, i: nat, j: nat)
    requires i < |reqs| && j < |reqs|
  {
    if at == Offset(reqs, i) then at != Offset(reqs, j) || i < j
    else
      && at != Offset(reqs, j)
      && (reqs[j].period < reqs[i].period || (reqs[i].period == reqs[j].period && StartedLater(reqs, i, j)))
  }

  /** With the same period, the message whose first round came later had fewer rounds so far. */
  predicate StartedLater(reqs: seq<Request>, i: nat, j: nat)
    requires i < |reqs| && j < |reqs|
  {
    Offset(reqs, j) < Offset(reqs, i) || (Offset(reqs, i) == Offset(reqs, j) && i < j)
  }

  /** A job of one of the messages: its first round, or one that was put back before `now`. */
  predicate Placed(reqs: seq<Request>, now: nat, j: Job) {
    && j.slot < |reqs| && j.period == reqs[j.slot].period
    && (j.due == Offset(reqs, j.slot)
        || (0 < j.period && Offset(reqs, j.slot) + j.period <= j.due < now + j.period))
  }

  ghost predicate AllPlaced(reqs: seq<Request>, now: nat, js: seq<Job>) {
    forall k :: 0 <= k < |js| ==> Placed(reqs, now, js[k])
  }

  /** One of two jobs is due earlier, or goes out first. */
  predicate Ahead(reqs: seq<Request>, a: Job, b: Job)
    requires a.slot < |reqs| && b.slot < |reqs|
  {
    a.due < b.due || (a.due == b.due && Precedes(reqs, a.due, a.slot, b.slot))
  }

  ghost predicate InTurn(reqs: seq<Request>, js: seq<Job>) {
    && (forall k :: 0 <= k < |js| ==> js[k].slot < |reqs|)
    && (forall a, b :: 0 <= a < b < |js| ==> Ahead(reqs, js[a], js[b]))
  }

  // ---------------------------------------------------------------------------
  // Splitting and inserting

  ghost predicate Rising(js: seq<Job>) {
    forall a, b :: 0 <= a < b < |js| ==> js[a].due <= js[b].due
  }

  lemma {:induction false} NoneUpto(js: seq<Job>, t: nat)
    requires forall k :: 0 <= k < |js| ==> t < js[k].due
    ensures Upto(js, t) == [] && After(js, t) == js
  {
    if js != [] {
      NoneUpto(js[1..], t);
      assert [js[0]] + js[1..] == js;
    }
  }

  /** Of an ordered list, what is due by `t` is a front part. */
  lemma {:induction false} Splits(js: seq<Job>, t: nat) returns (n: nat)
    requires Rising(js)
    ensures n <= |js| && Upto(js, t) == js[..n] && After(js, t) == js[n..]
    ensures forall k :: 0 <= k < n ==> js[k].due <= t
    ensures forall k :: n <= k < |js| ==> t < js[k].due
  {
    if js == [] {
      n := 0;
    } else {
      var m := Splits(js[1..], t);
      if js[0].due <= t {
        n := m + 1;
        assert [js[0]] + js[1..][..m] == js[..n];
        assert [] + js[1..][m..] == js[n..];
      } else {
        n := 0;
        NoneUpto(js, t);
      }
    }
  }

  lemma {:induction false} InsertInTurn(reqs: seq<Request>, js: seq<Job>, j: Job) returns (n: nat)
    requires InTurn(reqs, js) && j.slot < |reqs|
    requires forall k :: 0 <= k < |js| && js[k].due == j.due ==> Precedes(reqs, j.due, js[k].slot, j.slot)
    ensures n <= |js| && InsertStable(js, j) == js[..n] + [j] + js[n..]
    ensures InTurn(reqs, InsertStable(js, j))
  {
    n := Splits(js, j.due);
    var r := js[..n] + [j] + js[n..];
    forall a, b | 0 <= a < b < |r| ensures Ahead(reqs, r[a], r[b]) {
      if b == n {
        assert r[a] == js[a] && r[b] == j;
      } else if a == n {
        assert r[a] == j && r[b] == js[b - 1];
      } else {
        assert Ahead(reqs, js[if a < n then a else a - 1], js[if b < n then b else b - 1]);
      }
    }
  }

  // ---------------------------------------------------------------------------
  // One firing

  /** Put back in the firing at `now`. */
  predicate Recent(reqs: seq<Request>, now: nat, j: Job) {
    && j.slot < |reqs| && j.period == reqs[j.slot].period
    && 0 < j.period && j.due == now + j.period && Offset(reqs, j.slot) <= now
  }

  /** What is on the agenda in the middle of a firing: older jobs, and such as were put back in it,
      from the batch in front of what is left of it. */
  ghost predicate HalfBack(reqs: seq<Request>, now: nat, batch: seq<Job>, js: seq<Job>) {
    && (forall b :: 0 <= b < |batch| ==> batch[b].slot < |reqs|)
    && forall k :: 0 <= k < |js| ==>
         || Placed(reqs, now, js[k])
         || (Recent(reqs, now, js[k])
             && forall b :: 0 <= b < |batch| ==> Precedes(reqs, now, js[k].slot, batch[b].slot))
  }

  /** Two messages with the same period that went out together do so again, in the same order. */
  lemma {:induction false} PrecedesAgain(reqs: seq<Request>, now: nat, i: nat, j: nat)
    requires i < |reqs| && j < |reqs| && Offset(reqs, i) <= now && Offset(reqs, j) <= now
    requires reqs[i].period == reqs[j].period && 0 < reqs[i].period && Precedes(reqs, now, i, j)
    ensures Precedes(reqs, now + reqs[i].period, i, j)
  {
  }

  /** A message that is put back stands behind whatever is due at the same instant. */
  lemma {:induction false} PutBackBehind(reqs: seq<Request>, now: nat, e: Job, j: Job)
    requires Recent(reqs, now, e) && j.due == e.due
    requires Placed(reqs, now, j) || (Recent(reqs, now, j) && Precedes(reqs, now, j.slot, e.slot))
    ensures Precedes(reqs, e.due, j.slot, e.slot)
  {
    if Recent(reqs, now, j) && !Placed(reqs, now, j) {
      PrecedesAgain(reqs, now, j.slot, e.slot);
    }
  }

  /** A batch at `now`. */
  ghost predicate Batch(reqs: seq<Request>, now: nat, batch: seq<Job>) {
    && InTurn(reqs, batch) && AllPlaced(reqs, now, batch)
    && forall k :: 0 <= k < |batch| ==> batch[k].due == now
  }

  lemma {:induction false} ResubmitInTurn(reqs: seq<Request>, now: nat, batch: seq<Job>, js: seq<Job>)
    requires Batch(reqs, now, batch) && InTurn(reqs, js) && HalfBack(reqs, now, batch, js)
    ensures InTurn(reqs, Resubmit(now, batch, js)) && AllPlaced(reqs, now + 1, Resubmit(now, batch, js))
    decreases |batch|
  {
    if batch != [] {
      BatchRest(reqs, now, batch);
      if batch[0].Repeats() {
        OneBack(reqs, now, batch, js);
        ResubmitInTurn(reqs, now, batch[1..], InsertStable(js, batch[0].Again(now)));
      } else {
        assert HalfBack(reqs, now, batch[1..], js);
        ResubmitInTurn(reqs, now, batch[1..], js);
      }
    }
  }

  lemma {:induction false} BatchRest(reqs: seq<Request>, now: nat, batch: seq<Job>)
    requires Batch(reqs, now, batch) && batch != []
    ensures Batch(reqs, now, batch[1..])
    ensures forall b :: 0 <= b < |batch[1..]| ==> Precedes(reqs, now, batch[0].slot, batch[1..][b].slot)
  {
    forall b | 0 <= b < |batch[1..]| ensures Precedes(reqs, now, batch[0].slot, batch[1..][b].slot) {
      assert Ahead(reqs, batch[0], batch[b + 1]);
    }
  }

  lemma {:induction false} OneBack(reqs: seq<Request>, now: nat, batch: seq<Job>, js: seq<Job>)
    requires Batch(reqs, now, batch) && InTurn(reqs, js) && HalfBack(reqs, now, batch, js)
    requires batch != [] && batch[0].Repeats()
    ensures var r := InsertStable(js, batch[0].Again(now));
            InTurn(reqs, r) && HalfBack(reqs, now, batch[1..], r)
  {
    var e := batch[0].Again(now);
    assert Recent(reqs, now, e);
    forall k | 0 <= k < |js| && js[k].due == e.due ensures Precedes(reqs, e.due, js[k].slot, e.slot) {
      PutBackBehind(reqs, now, e, js[k]);
    }
    var n := InsertInTurn(reqs, js, e);
    var r := InsertStable(js, e);
    BatchRest(reqs, now, batch);
    forall k | 0 <= k < |r|
      ensures Placed(reqs, now, r[k])
              || (Recent(reqs, now, r[k])
                  && forall b :: 0 <= b < |batch[1..]| ==> Precedes(reqs, now, r[k].slot, batch[1..][b].slot))
    {
      if k != n {
        assert r[k] == js[if k < n then k else k - 1];
      }
    }
  }

  /** The slots of a callback, each before those behind it. */
  ghost predicate SlotsInTurn(reqs: seq<Request>, at: nat, slots: seq<nat>) {
    && (forall k :: 0 <= k < |slots| ==> slots[k] < |reqs|)
    && forall a, b :: 0 <= a < b < |slots| ==> Precedes(reqs, at, slots[a], slots[b])
  }

  /** Every callback so far was in order, and they came one after the other, none after `clock`. */
  ghost predicate LogInTurn(reqs: seq<Request>, clock: nat, log: seq<Event>) {
    && (forall k :: 0 <= k < |log| && log[k].Sent? ==>
          log[k].at <= clock && log[k].slots != [] && SlotsInTurn(reqs, log[k].at, log[k].slots))
    && forall k, l :: 0 <= k < l < |log| && log[k].Sent? && log[l].Sent? ==> log[k].at < log[l].at
  }

  ghost predicate AllInTurn(reqs: seq<Request>, a: Agenda) {
    InTurn(reqs, a.jobs) && AllPlaced(reqs, a.clock + 1, a.jobs) && LogInTurn(reqs, a.clock, a.log)
  }

  lemma {:induction false} SlotAt(js: seq<Job>, k: nat)
    requires k < |js|
    ensures Slots(js)[k] == js[k].slot
  {
    if k != 0 {
      SlotAt(js[1..], k - 1);
    }
  }

  lemma {:induction false} BatchSlots(reqs: seq<Request>, now: nat, batch: seq<Job>)
    requires Batch(reqs, now, batch)
    ensures SlotsInTurn(reqs, now, Slots(batch))
  {
    forall k | 0 <= k < |batch| ensures Slots(batch)[k] == batch[k].slot {
      SlotAt(batch, k);
    }
    forall a, b | 0 <= a < b < |batch| ensures Precedes(reqs, now, Slots(batch)[a], Slots(batch)[b]) {
      assert Ahead(reqs, batch[a], batch[b]);
    }
  }

  /** What one firing appends to the log. */
  lemma {:induction false} FiringAppends(now: nat, jobs: seq<Job>, log: seq<Event>)
    ensures var slots, r := Slots(Upto(jobs, now)), FireAgenda(now, jobs, log).log;
            && log <= r
            && (slots != [] ==> |log| < |r| && r[|log|] == Sent(now, slots))
            && (forall k :: |log| <= k < |r| && r[k].Sent? ==> k == |log| && slots != [])
  {
  }

  lemma {:induction false} LogGoesOn(reqs: seq<Request>, clock: nat, now: nat, log: seq<Event>, r: seq<Event>)
    requires LogInTurn(reqs, clock, log) && clock <= now && log <= r
    requires forall k :: |log| <= k < |r| && r[k].Sent? ==>
               k == |log| && clock < now && r[k].at == now && r[k].slots != [] && SlotsInTurn(reqs, now, r[k].slots)
    ensures LogInTurn(reqs, now, r)
  {
    forall k | 0 <= k < |log| ensures r[k] == log[k] {
    }
  }

  lemma {:induction false} FireInTurn(reqs: seq<Request>, now: nat, jobs: seq<Job>)
    requires InTurn(reqs, jobs) && AllPlaced(reqs, now, jobs) && forall k :: 0 <= k < |jobs| ==> now <= jobs[k].due
    ensures var js := Resubmit(now, Upto(jobs, now), After(jobs, now));
            InTurn(reqs, js) && AllPlaced(reqs, now + 1, js)
    ensures SlotsInTurn(reqs, now, Slots(Upto(jobs, now)))
  {
    var n := Splits(jobs, now);
    assert Batch(reqs, now, jobs[..n]);
    assert HalfBack(reqs, now, jobs[..n], jobs[n..]);
    ResubmitInTurn(reqs, now, jobs[..n], jobs[n..]);
    BatchSlots(reqs, now, jobs[..n]);
  }

  // ---------------------------------------------------------------------------
  // Every run

  lemma {:induction false} OffsetOn(reqs: seq<Request>, i: nat, j: nat)
    requires i <= j < |reqs|
    ensures Offset(reqs, i) <= Offset(reqs, j)
  {
    if i != 0 {
      OffsetOn(reqs[1..], i - 1, j - 1);
    }
  }

  /** The jobs at the start: one for each message, in list order. */
  lemma {:induction false} InitialAt(base: nat, slot: nat, reqs: seq<Request>, k: nat)
    requires k < |reqs|
    ensures var js := InitialJobs(base, slot, reqs);
            && |js| == |reqs|
            && js[k] == Job(base + Offset(reqs, k), slot + k, reqs[k].period, reqs[k].count)
    decreases |reqs|
  {
    if k == 0 {
      InitialCount(base + reqs[0].delay, slot + 1, reqs[1..]);
    } else {
      InitialAt(base + reqs[0].delay, slot + 1, reqs[1..], k - 1);
    }
  }

  lemma {:induction false} InitialCount(base: nat, slot: nat, reqs: seq<Request>)
    ensures |InitialJobs(base, slot, reqs)| == |reqs|
    decreases |reqs|
  {
    if reqs != [] {
      InitialCount(base + reqs[0].delay, slot + 1, reqs[1..]);
    }
  }

  lemma {:induction false} InitialInTurn(reqs: seq<Request>)
    ensures var js := InitialJobs(0, 0, reqs); InTurn(reqs, js) && AllPlaced(reqs, 0, js)
  {
    var js := InitialJobs(0, 0, reqs);
    InitialCount(0, 0, reqs);
    forall k | 0 <= k < |js| ensures js[k].slot == k && js[k].due == Offset(reqs, k) && js[k].period == reqs[k].period {
      InitialAt(0, 0, reqs, k);
    }
    forall a, b | 0 <= a < b < |js| ensures Ahead(reqs, js[a], js[b]) {
      OffsetOn(reqs, a, b);
    }
  }

  lemma {:induction false} NextInTurn(reqs: seq<Request>, a: Agenda)
    requires AllInTurn(reqs, a) && a.jobs != [] && a.clock < a.jobs[0].due
    ensures AllInTurn(reqs, AgendaNext(a))
  {
    var now := a.jobs[0].due;
    forall k | 0 <= k < |a.jobs| ensures now <= a.jobs[k].due && Placed(reqs, now, a.jobs[k]) {
      assert k != 0 ==> Ahead(reqs, a.jobs[0], a.jobs[k]);
    }
    FireInTurn(reqs, now, a.jobs);
    FiringAppends(now, a.jobs, a.log);
    LogGoesOn(reqs, a.clock, now, a.log, AgendaNext(a).log);
  }

  /** On every run, messages due at the same instant go out in the order in which they were queued. */
  lemma {:induction false} RunInTurn(reqs: seq<Request>, n: nat)
    ensures AllInTurn(reqs, AgendaRun(reqs, n))
  {
    if n == 0 {
      var js := InitialJobs(0, 0, reqs);
      InitialInTurn(reqs);
      FireInTurn(reqs, 0, js);
      FiringAppends(0, js, []);
    } else {
      var a := AgendaRun(reqs, n - 1);
      RunInTurn(reqs, n - 1);
      if a.jobs != [] {
        FiringLeavesFuture(reqs, n - 1);
        NextInTurn(reqs, a);
      }
    }
  }

  // ---------------------------------------------------------------------------
  // What a callback holds

  lemma {:induction false} StampsIn(at: nat, slots: seq<nat>, i: nat)
    ensures at in Stamps(at, slots, i) <==> i in slots
    ensures forall t :: t in Stamps(at, slots, i) ==> t == at
  {
    if slots != [] {
      StampsIn(at, slots[1..], i);
    }
  }

  /** Message `i` was sent at `t` if it was in a callback of that instant. */
  lemma {:induction false} SentIn(log: seq<Event>, k: nat, i: nat)
    requires k < |log| && log[k].Sent? && i in log[k].slots
    ensures log[k].at in SendTimes(log, i)
  {
    if k == 0 {
      StampsIn(log[0].at, log[0].slots, i);
    } else {
      SentIn(log[1..], k - 1, i);
    }
  }

  lemma {:induction false} CallbackOf(log: seq<Event>, t: nat, i: nat) returns (k: nat)
    requires t in SendTimes(log, i)
    ensures k < |log| && log[k].Sent? && log[k].at == t && i in log[k].slots
    decreases |log|
  {
    if log[0].Sent? && t in Stamps(log[0].at, log[0].slots, i) {
      StampsIn(log[0].at, log[0].slots, i);
      k := 0;
    } else {
      k := CallbackOf(log[1..], t, i);
      k := k + 1;
    }
  }

  /** Some round of message `i` is due at `t`. */
  ghost predicate DueThen(reqs: seq<Request>, i: nat, t: nat) {
    i < |reqs| && exists k: nat :: HasRound(reqs[i], k) && Due(reqs, i, k) == t
  }

  /** A log that is complete up to `clock`: one callback for each instant at which something is due,
      with all that is due then and nothing else, in the order of their turn. */
  ghost predicate Exact(reqs: seq<Request>, clock: nat, log: seq<Event>) {
    && LogInTurn(reqs, clock, log)
    && (forall k, i: nat :: 0 <= k < |log| && log[k].Sent? ==> (i in log[k].slots <==> DueThen(reqs, i, log[k].at)))
    && (forall i: nat, t: nat {:trigger DueThen(reqs, i, t)} ::
          t <= clock && DueThen(reqs, i, t) ==> exists k :: 0 <= k < |log| && log[k].Sent? && log[k].at == t)
  }

  lemma {:induction false} SentWhenDue(reqs: seq<Request>, n: nat, k: nat, i: nat)
    requires k < |AgendaRun(reqs, n).log| && AgendaRun(reqs, n).log[k].Sent? && i in AgendaRun(reqs, n).log[k].slots
    ensures DueThen(reqs, i, AgendaRun(reqs, n).log[k].at)
  {
    var log := AgendaRun(reqs, n).log;
    SentIn(log, k, i);
    if |reqs| <= i {
      NothingElseSent(reqs, i, n);
    } else {
      var times := SendTimes(log, i);
      ExactSchedule(reqs, i, n);
      var r :| 0 <= r < |times| && times[r] == log[k].at;
      assert HasRound(reqs[i], r) && Due(reqs, i, r) == log[k].at;
    }
  }

  lemma {:induction false} DueIsSent(reqs: seq<Request>, n: nat, i: nat, t: nat) returns (k: nat)
    requires DueThen(reqs, i, t) && t <= AgendaRun(reqs, n).clock
    ensures var log := AgendaRun(reqs, n).log; k < |log| && log[k].Sent? && log[k].at == t && i in log[k].slots
  {
    var log := AgendaRun(reqs, n).log;
    var r: nat :| HasRound(reqs[i], r) && Due(reqs, i, r) == t;
    ExactSchedule(reqs, i, n);
    assert r < |SendTimes(log, i)| && SendTimes(log, i)[r] == t;
    k := CallbackOf(log, t, i);
  }

  /** The log of every run is exact. */
  lemma {:induction false} RunExact(reqs: seq<Request>, n: nat)
    ensures Exact(reqs, AgendaRun(reqs, n).clock, AgendaRun(reqs, n).log)
  {
    var clock, log := AgendaRun(reqs, n).clock, AgendaRun(reqs, n).log;
    RunInTurn(reqs, n);
    forall k, i: nat | 0 <= k < |log| && log[k].Sent? ensures i in log[k].slots <==> DueThen(reqs, i, log[k].at) {
      if i in log[k].slots {
        SentWhenDue(reqs, n, k, i);
      }
      if DueThen(reqs, i, log[k].at) {
        var l := DueIsSent(reqs, n, i, log[k].at);
        assert l == k;
      }
    }
    forall i: nat, t: nat {:trigger DueThen(reqs, i, t)} | t <= clock && DueThen(reqs, i, t)
      ensures exists k :: 0 <= k < |log| && log[k].Sent? && log[k].at == t
    {
      var k := DueIsSent(reqs, n, i, t);
    }
  }

  // ---------------------------------------------------------------------------
  // There is only one such log

  ghost predicate SameMembers(a: seq<nat>, b: seq<nat>) {
    forall i: nat :: i in a <==> i in b
  }

  lemma {:induction false} RestInTurn(reqs: seq<Request>, at: nat, slots: seq<nat>)
    requires SlotsInTurn(reqs, at, slots) && slots != []
    ensures SlotsInTurn(reqs, at, slots[1..]) && slots[0] !in slots[1..]
    ensures forall i :: i in slots <==> i == slots[0] || i in slots[1..]
  {
    assert slots == [slots[0]] + slots[1..];
  }

  lemma {:induction false} SameFirst(reqs: seq<Request>, at: nat, a: seq<nat>, b: seq<nat>)
    requires SlotsInTurn(reqs, at, a) && SlotsInTurn(reqs, at, b) && SameMembers(a, b)
    requires a != [] && b != []
    ensures a[0] == b[0]
  {
    assert a[0] in a && b[0] in b;
    var x :| 0 <= x < |a| && a[x] == b[0];
    var y :| 0 <= y < |b| && b[y] == a[0];
  }

  /** The messages of a callback determine it. */
  lemma {:induction false} SameSlots(reqs: seq<Request>, at: nat, a: seq<nat>, b: seq<nat>)
    requires SlotsInTurn(reqs, at, a) && SlotsInTurn(reqs, at, b) && SameMembers(a, b)
    ensures a == b
    decreases |a|
  {
    if a == [] {
      assert forall k :: 0 <= k < |b| ==> b[k] in b;
    } else {
      assert a[0] in a;
      SameFirst(reqs, at, a, b);
      RestInTurn(reqs, at, a);
      RestInTurn(reqs, at, b);
      SameSlots(reqs, at, a[1..], b[1..]);
      assert a == [a[0]] + a[1..] && b == [b[0]] + b[1..];
    }
  }

  ghost predicate NoCompletions(log: seq<Event>) {
    forall k :: 0 <= k < |log| ==> log[k].Sent?
  }

  lemma {:induction false} SameAt(reqs: seq<Request>, clock: nat, a: seq<Event>, b: seq<Event>, k: nat)
    requires Exact(reqs, clock, a) && Exact(reqs, clock, b) && NoCompletions(a) && NoCompletions(b)
    requires k < |a| && forall j :: 0 <= j < k ==> j < |b| && a[j].at == b[j].at
    ensures k < |b| && a[k].at == b[k].at
  {
    var l := FoundIn(reqs, clock, a, b, k);
    assert k <= l;
    if k < l {
      var m := FoundIn(reqs, clock, b, a, k);
      assert k <= m;
      Between(reqs, clock, a, b, k, l, m);
    }
  }

  /** Neither log has its next callback before the other. */
  lemma {:induction false} Between(
    reqs: seq<Request>, clock: nat, a: seq<Event>, b: seq<Event>, k: nat, l: nat, m: nat)
    requires LogInTurn(reqs, clock, a) && LogInTurn(reqs, clock, b) && NoCompletions(a) && NoCompletions(b)
    requires k <= l < |b| && k <= m < |a| && b[l].at == a[k].at && a[m].at == b[k].at
    ensures a[k].at == b[k].at
  {
    assert a[k].at <= a[m].at && b[k].at <= b[l].at;
  }

  /** An instant at which one of the logs has a callback has one in the other. */
  lemma {:induction false} FoundIn(reqs: seq<Request>, clock: nat, a: seq<Event>, b: seq<Event>, k: nat)
    returns (l: nat)
    requires Exact(reqs, clock, a) && Exact(reqs, clock, b) && NoCompletions(a) && NoCompletions(b) && k < |a|
    ensures l < |b| && b[l].at == a[k].at
  {
    assert a[k].Sent? && a[k].slots[0] in a[k].slots;
    assert DueThen(reqs, a[k].slots[0], a[k].at);
    l :| 0 <= l < |b| && b[l].Sent? && b[l].at == a[k].at;
  }

  lemma {:induction false} SameInstants(reqs: seq<Request>, clock: nat, a: seq<Event>, b: seq<Event>, k: nat)
    requires Exact(reqs, clock, a) && Exact(reqs, clock, b) && NoCompletions(a) && NoCompletions(b) && k <= |a|
    ensures k <= |b| && forall j :: 0 <= j < k ==> a[j].at == b[j].at
  {
    if k != 0 {
      SameInstants(reqs, clock, a, b, k - 1);
      SameAt(reqs, clock, a, b, k - 1);
    }
  }

  /** The list and the clock determine every callback so far: instants, messages and their order. */
  lemma {:induction false} ExactIsUnique(reqs: seq<Request>, clock: nat, a: seq<Event>, b: seq<Event>)
    requires Exact(reqs, clock, a) && Exact(reqs, clock, b) && NoCompletions(a) && NoCompletions(b)
    ensures a == b
  {
    SameInstants(reqs, clock, a, b, |a|);
    SameInstants(reqs, clock, b, a, |b|);
    forall k | 0 <= k < |a| ensures a[k] == b[k] {
      assert a[k].Sent? && b[k].Sent? && a[k].at == b[k].at;
      SameSlots(reqs, a[k].at, a[k].slots, b[k].slots);
    }
  }
}
