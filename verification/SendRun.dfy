/** What the methods of the send scheduler (lib/src/ToolsMsgSendMgrImpl.cpp) compute, the cast of
    the timer's value included: runs of a delta queue and a single-shot timer.  While the waits fit,
    they refine the agenda of absolute deadlines. */
module SendRun {
  import opened Wrappers
  import opened SendQueue
  import opened SendAgenda
  import opened SendTimer

  /** `timer` is the value the timer was started with, while it runs. */
  datatype State = State(clock: nat, queue: seq<Entry>, timer: Option<int>, log: seq<Event>)

  const INT_MAX: nat := 0x7fff_ffff

  /** `static_cast<int>` of an unsigned 64-bit delay, on a platform with a 32-bit `int`. */
  function ToInt(d: nat): int {
    (d + 0x8000_0000) % 0x1_0000_0000 - 0x8000_0000
  }

  lemma {:induction false} ToIntExact(d: nat)
    ensures ToInt(d) == d <==> d <= INT_MAX
  {
  }

  /** Any delay comes out as the one `int` that is congruent to it. */
  lemma {:induction false} ToIntCongruent(d: nat, n: int)
    ensures ToInt(d) == n <==> -0x8000_0000 <= n <= 0x7fff_ffff && (d - n) % 0x1_0000_0000 == 0
  {
  }

  /** The first delay that does not fit comes out negative. */
  lemma {:induction false} ToIntWraps()
    ensures ToInt(INT_MAX + 1) == -0x8000_0000
  {
  }

  function EntrySlots(q: seq<Entry>): seq<nat> {
    if q == [] then [] else [q[0].slot] + EntrySlots(q[1..])
  }

  /** Arm the timer for the head's delay and zero that delay. */
  function Arm(now: nat, q: seq<Entry>, log: seq<Event>): State {
    if q == [] then State(now, [], None, log)
    else State(now, q[0 := q[0].(delay := 0)], Some(ToInt(q[0].delay)), log)
  }

  /** `sendPendingAndWait` at instant `now`. */
  function Firing(now: nat, q: seq<Entry>, log: seq<Event>): State {
    var n := DuePrefix(q);
    var rest := ReinsertAll(q[..n], q[n..]);
    Arm(now, rest, log + Events(now, EntrySlots(q[..n]), rest != []))
  }

  /** The clones `start` queues. */
  function Load(slot: nat, reqs: seq<Request>): (q: seq<Entry>)
    ensures |q| == |reqs|
    ensures forall k :: 0 <= k < |q| ==>
              q[k] == Entry(slot + k, reqs[k].delay, reqs[k].period, reqs[k].count)
    decreases |reqs|
  {
    if reqs == [] then []
    else [Entry(slot, reqs[0].delay, reqs[0].period, reqs[0].count)] + Load(slot + 1, reqs[1..])
  }

  /** The running timer expires.  Without one, or with a negative value, nothing ever happens. */
  function Next(s: State): State {
    if s.timer == None || s.timer.value < 0 then s
    else Firing(s.clock + s.timer.value, s.queue, s.log)
  }

  /** The scheduler after `start` and `n` timeouts. */
  function Run(reqs: seq<Request>, n: nat): State {
    if n == 0 then Firing(0, Load(0, reqs), []) else Next(Run(reqs, n - 1))
  }

  // ---------------------------------------------------------------------------
  // Refinement of the agenda

  /** The delta queue stands for this agenda, and the timer was started with its wait, cast. */
  ghost predicate Refines(s: State, a: Agenda) {
    && s.clock == a.clock
    && s.log == a.log
    && (s.queue == [] <==> s.timer == None)
    && (s.queue == [] <==> a.jobs == [])
    && (s.queue != [] ==>
          && 0 < Wait(a)
          && s.timer.value == ToInt(Wait(a))
          && s.queue[0].delay == 0
          && Jobs(s.clock + Wait(a), s.queue) == a.jobs)
  }

  lemma {:induction false} SlotsOfJobs(base: nat, q: seq<Entry>)
    ensures Slots(Jobs(base, q)) == EntrySlots(q)
    decreases |q|
  {
    if q != [] {
      SlotsOfJobs(base + q[0].delay, q[1..]);
      assert Jobs(base, q)[1..] == Jobs(base + q[0].delay, q[1..]);
    }
  }

  lemma {:induction false} LoadJobs(base: nat, slot: nat, reqs: seq<Request>)
    ensures Jobs(base, Load(slot, reqs)) == InitialJobs(base, slot, reqs)
    decreases |reqs|
  {
    if reqs != [] {
      LoadJobs(base + reqs[0].delay, slot + 1, reqs[1..]);
      assert Load(slot, reqs)[1..] == Load(slot + 1, reqs[1..]);
    }
  }

  lemma {:induction false} ArmRefines(now: nat, q: seq<Entry>, log: seq<Event>)
    requires AllFrom(Jobs(now, q), now + 1)
    ensures Refines(Arm(now, q, log), Agenda(now, Jobs(now, q), log))
  {
    if q != [] {
      var s := Arm(now, q, log);
      assert s.queue[1..] == q[1..];
      assert Jobs(now, q)[0].due == now + q[0].delay;
    }
  }

  lemma {:induction false} FiringRefines(now: nat, q: seq<Entry>, log: seq<Event>)
    ensures Refines(Firing(now, q, log), FireAgenda(now, Jobs(now, q), log))
  {
    var n := DuePrefix(q);
    var rest := ReinsertAll(q[..n], q[n..]);
    FiringRefinesPriorityQueue(now, q);
    SlotsOfJobs(now, q[..n]);
    AfterFrom(Jobs(now, q), now);
    ResubmitFrom(now, Upto(Jobs(now, q), now), After(Jobs(now, q), now));
    ArmRefines(now, rest, log + Events(now, EntrySlots(q[..n]), rest != []));
  }

  lemma {:induction false} NextRefines(s: State, a: Agenda)
    requires Refines(s, a) && Wait(a) <= INT_MAX
    ensures Refines(Next(s), AgendaNext(a))
  {
    if s.queue != [] {
      ToIntExact(Wait(a));
      FiringRefines(s.clock + Wait(a), s.queue, s.log);
    }
  }

  lemma {:induction false} SlotOf(q: seq<Entry>, k: nat)
    requires k < |q|
    ensures |EntrySlots(q)| == |q| && EntrySlots(q)[k] == q[k].slot
    decreases |q|
  {
    if k == 0 {
      SlotsCount(q);
    } else {
      SlotOf(q[1..], k - 1);
    }
  }

  lemma {:induction false} SlotsCount(q: seq<Entry>)
    ensures |EntrySlots(q)| == |q|
  {
    if q != [] {
      SlotsCount(q[1..]);
    }
  }

  /** A firing hands over the leading entries without a delay, in queue order, in one callback; with
      no such entry there is none. */
  lemma {:induction false} FiringSends(now: nat, q: seq<Entry>, log: seq<Event>)
    ensures var n, r := DuePrefix(q), Firing(now, q, log).log;
            && log <= r
            && (n == 0 ==> forall k :: |log| <= k < |r| ==> r[k] == Completed(now))
            && (n != 0 ==>
                  && |log| < |r| && r[|log|].Sent? && r[|log|].at == now
                  && |r[|log|].slots| == n
                  && (forall k :: 0 <= k < n ==> r[|log|].slots[k] == q[k].slot)
                  && (forall k :: |log| < k < |r| ==> r[k] == Completed(now)))
  {
    var n := DuePrefix(q);
    SlotsCount(q[..n]);
    forall k | 0 <= k < n ensures EntrySlots(q[..n])[k] == q[k].slot {
      SlotOf(q[..n], k);
    }
  }

  /** The first `n` waits of the agenda fit an `int`. */
  ghost predicate FitsBefore(reqs: seq<Request>, n: nat) {
    forall m: nat :: m < n ==> Wait(AgendaRun(reqs, m)) <= INT_MAX
  }

  /** As long as the waits fit, relative delays and one timer do what the agenda of deadlines does. */
  lemma {:induction false} RunRefinesAgenda(reqs: seq<Request>, n: nat)
    requires FitsBefore(reqs, n)
    ensures Refines(Run(reqs, n), AgendaRun(reqs, n))
  {
    if n == 0 {
      FiringRefines(0, Load(0, reqs), []);
      LoadJobs(0, 0, reqs);
    } else {
      RunRefinesAgenda(reqs, n - 1);
      NextRefines(Run(reqs, n - 1), AgendaRun(reqs, n - 1));
    }
  }

  // ---------------------------------------------------------------------------
  // Bounds

  predicate Within(q: seq<Entry>, bound: nat) {
    forall k :: 0 <= k < |q| ==> q[k].delay <= bound && q[k].period <= bound
  }

  lemma {:induction false} ReinsertWithin(q: seq<Entry>, e: Entry, newDelay: nat, bound: nat)
    requires e.Repeats() && Within(q, bound) && newDelay <= bound && e.period <= bound
    ensures Within(Reinsert(q, e, newDelay), bound)
    decreases |q|
  {
    if q != [] && q[0].delay <= newDelay {
      ReinsertWithin(q[1..], e, newDelay - q[0].delay, bound);
    }
  }

  lemma {:induction false} ReinsertAllWithin(batch: seq<Entry>, q: seq<Entry>, bound: nat)
    requires Within(batch, bound) && Within(q, bound)
    ensures Within(ReinsertAll(batch, q), bound)
    decreases |batch|
  {
    if batch != [] {
      if batch[0].Repeats() {
        ReinsertWithin(q, batch[0], batch[0].period, bound);
        ReinsertAllWithin(batch[1..], Reinsert(q, batch[0], batch[0].period), bound);
      } else {
        ReinsertAllWithin(batch[1..], q, bound);
      }
    }
  }

  lemma {:induction false} FiringWithin(now: nat, q: seq<Entry>, log: seq<Event>, bound: nat)
    requires Within(q, bound)
    ensures var s := Firing(now, q, log);
            Within(s.queue, bound) && (s.timer.Some? ==> s.timer.value <= bound)
  {
    var n := DuePrefix(q);
    ReinsertAllWithin(q[..n], q[n..], bound);
  }

  /** No queued delay and no timer value exceeds the largest delay or period given. */
  lemma {:induction false} RunWithin(reqs: seq<Request>, n: nat, bound: nat)
    requires RequestsWithin(reqs, bound)
    ensures Within(Run(reqs, n).queue, bound)
    ensures Run(reqs, n).timer.Some? ==> Run(reqs, n).timer.value <= bound
  {
    if n == 0 {
      FiringWithin(0, Load(0, reqs), [], bound);
    } else {
      RunWithin(reqs, n - 1, bound);
      var s := Run(reqs, n - 1);
      if s.timer.Some? && 0 <= s.timer.value {
        FiringWithin(s.clock + s.timer.value, s.queue, s.log, bound);
      }
    }
  }

  lemma {:induction false} RunNext(reqs: seq<Request>, n: nat)
    ensures Run(reqs, n + 1) == Next(Run(reqs, n))
  {
  }

  lemma {:induction false} RunArmed(reqs: seq<Request>, n: nat)
    ensures Run(reqs, n).timer == None <==> Run(reqs, n).queue == []
  {
    if n != 0 {
      RunArmed(reqs, n - 1);
    }
  }
}
