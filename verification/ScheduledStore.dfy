/** The scheduler's batches handed to the message manager, as the viewer's application manager
    wires them up (app/cc_view/src/GuiAppMgr.cpp). */
module ScheduledStore {
  import opened Wrappers
  import opened MsgStore
  import SendAgenda
  import SendOnTime
  import opened SendOrder
  import SendRun
  import SendQueue
  import SendSchedule
  import opened Seqs

  /** The batch of a callback; completion has none. */
  function BatchOf(e: SendAgenda.Event): seq<nat> {
    if e.Sent? then e.slots else []
  }

  /** The slots of all batches of a log, in the order of sending. */
  function SentSlots(log: seq<SendAgenda.Event>): seq<nat> {
    if log == [] then [] else BatchOf(log[0]) + SentSlots(log[1..])
  }

  /** The messages of some slots. */
  function Pick(os: seq<Outgoing>, slots: seq<nat>): seq<Outgoing> {
    if slots == [] then []
    else (if slots[0] < |os| then [os[slots[0]]] else []) + Pick(os, slots[1..])
  }

  function Wrapped(os: seq<Outgoing>): (r: seq<Option<Outgoing>>)
    ensures |r| == |os|
  {
    if os == [] then [] else [Some(os[0])] + Wrapped(os[1..])
  }

  /** Every batch goes to `sendMsgs`. */
  function SendEvents<S>(m: Mgr<S>, os: seq<Outgoing>, log: seq<SendAgenda.Event>): Mgr<S>
    decreases |log|
  {
    if log == [] then m else SendEvents(SendList(m, Wrapped(Pick(os, BatchOf(log[0])))), os, log[1..])
  }

  lemma {:induction false} PickConcat(os: seq<Outgoing>, a: seq<nat>, b: seq<nat>)
    ensures Pick(os, a + b) == Pick(os, a) + Pick(os, b)
  {
    var ab := a + b;
    if a == [] {
      assert ab == b;
    } else {
      var head := if a[0] < |os| then [os[a[0]]] else [];
      assert ab[0] == a[0] && ab[1..] == a[1..] + b;
      PickConcat(os, a[1..], b);
      Assoc(head, Pick(os, a[1..]), Pick(os, b));
    }
  }

  lemma {:induction false} AllPresent(os: seq<Outgoing>)
    ensures Present(Wrapped(os)) == os
  {
    if os != [] {
      AllPresent(os[1..]);
      assert Wrapped(os)[1..] == Wrapped(os[1..]);
    }
  }

  lemma {:induction false} SentRecordsConcat(next: nat, a: seq<Outgoing>, b: seq<Outgoing>)
    ensures SentRecords(next, a + b) == SentRecords(next, a) + SentRecords(next + |a|, b)
    decreases |a|
  {
    if a == [] {
      assert a + b == b;
    } else {
      assert (a + b)[1..] == a[1..] + b;
      SentRecordsConcat(next + 1, a[1..], b);
    }
  }

  /** The store grows by the records of the sent messages, in the order of the schedule, under
      consecutive numbers. */
  lemma {:induction false} EventsStored<S>(m: Mgr<S>, os: seq<Outgoing>, log: seq<SendAgenda.Event>)
    ensures SendEvents(m, os, log).store == m.store + SentRecords(m.next, Pick(os, SentSlots(log)))
    decreases |log|
  {
    if log == [] {
      NoneRight(m.store);
    } else {
      var now, later := Pick(os, BatchOf(log[0])), Pick(os, SentSlots(log[1..]));
      BatchStored(m, now);
      EventsStored(SendList(m, Wrapped(now)), os, log[1..]);
      PickConcat(os, BatchOf(log[0]), SentSlots(log[1..]));
      TwoBatches(m.store, m.next, now, later);
    }
  }

  lemma {:induction false} TwoBatches(store: seq<Stored>, next: nat, a: seq<Outgoing>, b: seq<Outgoing>)
    ensures store + SentRecords(next, a) + SentRecords(next + |a|, b) == store + SentRecords(next, a + b)
  {
    SentRecordsConcat(next, a, b);
    Assoc(store, SentRecords(next, a), SentRecords(next + |a|, b));
  }

  lemma {:induction false} BatchStored<S>(m: Mgr<S>, os: seq<Outgoing>)
    ensures var r := SendList(m, Wrapped(os));
            r.store == m.store + SentRecords(m.next, os) && r.next == m.next + |os|
  {
    SendRecordsAll(m, Wrapped(os));
    AllPresent(os);
  }

  function Count(slots: seq<nat>, i: nat): nat {
    if slots == [] then 0 else (if slots[0] == i then 1 else 0) + Count(slots[1..], i)
  }

  lemma {:induction false} CountConcat(a: seq<nat>, b: seq<nat>, i: nat)
    ensures Count(a + b, i) == Count(a, i) + Count(b, i)
  {
    if a == [] {
      assert a + b == b;
    } else {
      assert (a + b)[1..] == a[1..] + b;
      CountConcat(a[1..], b, i);
    }
  }

  lemma {:induction false} StampsCount(at: nat, slots: seq<nat>, i: nat)
    ensures |SendAgenda.Stamps(at, slots, i)| == Count(slots, i)
  {
    if slots != [] {
      StampsCount(at, slots[1..], i);
    }
  }

  lemma {:induction false} TimesCount(log: seq<SendAgenda.Event>, i: nat)
    ensures |SendAgenda.SendTimes(log, i)| == Count(SentSlots(log), i)
  {
    if log != [] {
      TimesCount(log[1..], i);
      CountConcat(BatchOf(log[0]), SentSlots(log[1..]), i);
      if log[0].Sent? {
        StampsCount(log[0].at, log[0].slots, i);
      }
    }
  }

  /** These are the records of the messages at these places of the list, one by one. */
  ghost predicate SlotsStored(os: seq<Outgoing>, slots: seq<nat>, next: nat, rs: seq<Stored>) {
    && |rs| == |slots|
    && forall k :: 0 <= k < |slots| ==>
         slots[k] < |os| && rs[k] == Stored(next + k, Sent, os[slots[k]].msg)
  }

  lemma {:induction false} PickStored(os: seq<Outgoing>, slots: seq<nat>, next: nat)
    requires forall k :: 0 <= k < |slots| ==> slots[k] < |os|
    ensures SlotsStored(os, slots, next, SentRecords(next, Pick(os, slots)))
    decreases |slots|
  {
    if slots != [] {
      PickStored(os, slots[1..], next + 1);
      assert Pick(os, slots)[0] == os[slots[0]] && Pick(os, slots)[1..] == Pick(os, slots[1..]);
      assert SentRecords(next, Pick(os, slots))[1..] == SentRecords(next + 1, Pick(os, slots[1..]));
    }
  }

  lemma {:induction false} SlotsListed(reqs: seq<SendQueue.Request>, n: nat, slots: seq<nat>)
    requires SendOnTime.OnTime(reqs) && slots == SentSlots(SendRun.Run(reqs, n).log)
    ensures forall b :: 0 <= b < |slots| ==> slots[b] < |reqs|
  {
    var log := SendRun.Run(reqs, n).log;
    SendOnTime.RunCallbacks(reqs, n);
    forall b | 0 <= b < |slots| ensures slots[b] < |reqs| {
      var l, y := PlaceOf(log, b);
      assert SlotsInTurn(reqs, log[l].at, log[l].slots);
    }
  }

  /** After any number of timeouts the store holds, behind what it held, the sent messages in the
      order of the schedule: each message as often as it has due instants that the clock reached. */
  lemma {:induction false} ScheduleStored<S>(
    m: Mgr<S>, reqs: seq<SendQueue.Request>, os: seq<Outgoing>, i: nat, k: nat, n: nat)
    requires SendOnTime.OnTime(reqs) && i < |reqs| == |os|
    ensures var s := SendRun.Run(reqs, n);
            && SendEvents(m, os, s.log).store == m.store + SentRecords(m.next, Pick(os, SentSlots(s.log)))
            && SlotsStored(os, SentSlots(s.log), m.next, SentRecords(m.next, Pick(os, SentSlots(s.log))))
            && (k < Count(SentSlots(s.log), i)
                <==> SendSchedule.HasRound(reqs[i], k) && SendSchedule.Due(reqs, i, k) <= s.clock)
  {
    var s := SendRun.Run(reqs, n);
    EventsStored(m, os, s.log);
    var slots := SentSlots(s.log);
    SlotsListed(reqs, n, slots);
    PickStored(os, slots, m.next);
    TimesCount(s.log, i);
    SendOnTime.RunOnSchedule(reqs, i, n);
    assert SendSchedule.Due(reqs, i, k) >= 0;
  }

  /** Every place in the order of sending is a place in a callback. */
  lemma {:induction false} PlaceOf(log: seq<SendAgenda.Event>, b: nat) returns (l: nat, y: nat)
    requires b < |SentSlots(log)|
    ensures l < |log| && log[l].Sent? && y < |log[l].slots| && log[l].slots[y] == SentSlots(log)[b]
    ensures SentSlots(log)[..b] == SentSlots(log[..l]) + log[l].slots[..y]
    decreases |log|
  {
    var first := BatchOf(log[0]);
    if b < |first| {
      l, y := 0, b;
      assert log[..0] == [];
      assert SentSlots(log)[..b] == first[..b];
      NoneLeft(first[..b]);
    } else {
      var c := b - |first|;
      l, y := PlaceOf(log[1..], c);
      assert log[1..][..l] == log[..l + 1][1..];
      assert SentSlots(log)[..b] == first + SentSlots(log[1..])[..c];
      Assoc(first, SentSlots(log[1..][..l]), log[1..][l].slots[..y]);
      l := l + 1;
    }
  }

  lemma {:induction false} InSentSlots(log: seq<SendAgenda.Event>, k: nat, i: nat)
    requires k < |log| && log[k].Sent? && i in log[k].slots
    ensures i in SentSlots(log)
  {
    if k != 0 {
      InSentSlots(log[1..], k - 1, i);
    }
  }

  /** Messages whose first rounds are due at the same instant go out in list order. */
  lemma {:induction false} ListOrder(reqs: seq<SendQueue.Request>, i: nat, j: nat, n: nat, b: nat)
    requires SendOnTime.OnTime(reqs) && i < j < |reqs|
    requires SendAgenda.Offset(reqs, i) == SendAgenda.Offset(reqs, j)
    requires b < |SentSlots(SendRun.Run(reqs, n).log)| && SentSlots(SendRun.Run(reqs, n).log)[b] == j
    ensures i in SentSlots(SendRun.Run(reqs, n).log)[..b]
  {
    var clock, log := SendRun.Run(reqs, n).clock, SendRun.Run(reqs, n).log;
    SendOnTime.RunCallbacks(reqs, n);
    var l, y := PlaceOf(log, b);
    var at, first := log[l].at, SendAgenda.Offset(reqs, i);
    assert j in log[l].slots && DueThen(reqs, j, at);
    assert first <= at by {
      FirstDue(reqs, j, at);
    }
    assert DueThen(reqs, i, first) by {
      assert SendSchedule.HasRound(reqs[i], 0) && SendSchedule.Due(reqs, i, 0) == first;
    }
    if at == first {
      SameBatch(reqs, at, log[l].slots, i, y);
    } else {
      var k :| 0 <= k < |log| && log[k].Sent? && log[k].at == first;
      assert i in log[k].slots && k < l;
      InSentSlots(log[..l], k, i);
    }
  }

  lemma {:induction false} FirstDue(reqs: seq<SendQueue.Request>, j: nat, at: nat)
    requires DueThen(reqs, j, at)
    ensures SendAgenda.Offset(reqs, j) <= at
  {
    var r: nat :| SendSchedule.HasRound(reqs[j], r) && SendSchedule.Due(reqs, j, r) == at;
    SendSchedule.DueMonotone(reqs, j, 0, r);
  }

  lemma {:induction false} SameBatch(reqs: seq<SendQueue.Request>, at: nat, slots: seq<nat>, i: nat, y: nat)
    requires SlotsInTurn(reqs, at, slots) && i in slots && y < |slots| && i < slots[y]
    requires at == SendAgenda.Offset(reqs, i) == SendAgenda.Offset(reqs, slots[y])
    ensures i in slots[..y]
  {
    var x :| 0 <= x < |slots| && slots[x] == i;
    assert x < y;
    assert slots[..y][x] == i;
  }
}
