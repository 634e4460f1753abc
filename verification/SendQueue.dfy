/** The delta queue of the timed send scheduler (lib/src/ToolsMsgSendMgrImpl.cpp) and its
    meaning as a priority queue over absolute deadlines. */
module SendQueue {
  import opened Wrappers
  import opened Seqs

  /** The scheduling properties of one message handed to `start`.  `delay` is relative to the
      message before it; an unset repeat count reads as 1. */
  datatype Request = Request(delay: nat, period: nat, count: Option<nat>) {
    function Count(): nat { count.GetOr(1) }

    /** Sent for ever: a repeat period and a repeat count of zero. */
    predicate Endless() { 0 < period && Count() == 0 }

    /** How many times the message is sent when it is not endless. */
    function Total(): nat { if period == 0 then 1 else Count() }
  }

  /** A queued clone.  `slot` is the position of its original in the list given to `start`; clones
      carry the same content, so the slot stands for it. */
  datatype Entry = Entry(slot: nat, delay: nat, period: nat, count: Option<nat>) {
    function Count(): nat { count.GetOr(1) }

    predicate Repeats() { 0 < period && (Count() == 0 || 1 < Count()) }

    /** The copy that goes back: the count drops unless it is the endless zero. */
    function Again(newDelay: nat): (e: Entry)
      requires Repeats()
    {
      Entry(slot, newDelay, period, if Count() == 0 then count else Some(Count() - 1))
    }
  }

  /** Length of the prefix that is due: the leading entries whose delay is zero. */
  function DuePrefix(q: seq<Entry>): (n: nat)
    ensures n <= |q|
    ensures forall k :: 0 <= k < n ==> q[k].delay == 0
    ensures n < |q| ==> 0 < q[n].delay
  {
    if q == [] || q[0].delay != 0 then 0 else 1 + DuePrefix(q[1..])
  }

  /** Put `e` back to fire `newDelay` after the queue's reference instant: the walk consumes the
      delays it passes, and the entry it stops at gives up what is left. */
  function Reinsert(q: seq<Entry>, e: Entry, newDelay: nat): (r: seq<Entry>)
    requires e.Repeats()
    ensures |r| == |q| + 1
  {
    if q == [] then [e.Again(newDelay)]
    else if newDelay < q[0].delay then [e.Again(newDelay), q[0].(delay := q[0].delay - newDelay)] + q[1..]
    else [q[0]] + Reinsert(q[1..], e, newDelay - q[0].delay)
  }

  /** Put back every repeating entry of a sent batch, in batch order. */
  function ReinsertAll(batch: seq<Entry>, q: seq<Entry>): (r: seq<Entry>) {
    if batch == [] then q
    else ReinsertAll(batch[1..], if batch[0].Repeats() then Reinsert(q, batch[0], batch[0].period) else q)
  }

  // ---------------------------------------------------------------------------
  // Meaning: absolute deadlines

  /** A pending send with its absolute deadline. */
  datatype Job = Job(due: nat, slot: nat, period: nat, count: Option<nat>) {
    function Count(): nat { count.GetOr(1) }

    predicate Repeats() { 0 < period && (Count() == 0 || 1 < Count()) }

    function Again(at: nat): Job
      requires Repeats()
    {
      Job(at + period, slot, period, if Count() == 0 then count else Some(Count() - 1))
    }
  }

  /** The jobs a delta queue stands for when its first delay counts from `base`. */
  function Jobs(base: nat, q: seq<Entry>): (js: seq<Job>)
    ensures |js| == |q|
    decreases |q|
  {
    if q == [] then []
    else [Job(base + q[0].delay, q[0].slot, q[0].period, q[0].count)] + Jobs(base + q[0].delay, q[1..])
  }

  /** Jobs due at `t` or before, in order. */
  function Upto(js: seq<Job>, t: nat): seq<Job> {
    if js == [] then [] else (if js[0].due <= t then [js[0]] else []) + Upto(js[1..], t)
  }

  /** Jobs due after `t`, in order. */
  function After(js: seq<Job>, t: nat): seq<Job> {
    if js == [] then [] else (if t < js[0].due then [js[0]] else []) + After(js[1..], t)
  }

  /** Stable insertion: behind every job with an equal or earlier deadline, before the rest. */
  function InsertStable(js: seq<Job>, j: Job): seq<Job> {
    Upto(js, j.due) + [j] + After(js, j.due)
  }

  /** Put back the repeating jobs of a batch sent at `now`, each one period later. */
  function Resubmit(now: nat, batch: seq<Job>, js: seq<Job>): seq<Job> {
    if batch == [] then js
    else Resubmit(now, batch[1..], if batch[0].Repeats() then InsertStable(js, batch[0].Again(now)) else js)
  }

  // ---------------------------------------------------------------------------
  // Refinement

  predicate AllDue(q: seq<Entry>) {
    q == [] || (q[0].delay == 0 && AllDue(q[1..]))
  }

  predicate AllFrom(js: seq<Job>, t: nat) {
    js == [] || (t <= js[0].due && AllFrom(js[1..], t))
  }

  predicate AllUpto(js: seq<Job>, t: nat) {
    js == [] || (js[0].due <= t && AllUpto(js[1..], t))
  }

  lemma {:induction false} AllFromWeaken(js: seq<Job>, t: nat, u: nat)
    requires AllFrom(js, t) && u <= t
    ensures AllFrom(js, u)
  {
    if js != [] {
      AllFromWeaken(js[1..], t, u);
    }
  }

  lemma {:induction false} JobsFrom(base: nat, q: seq<Entry>)
    ensures AllFrom(Jobs(base, q), base)
    decreases |q|
  {
    if q != [] {
      JobsFrom(base + q[0].delay, q[1..]);
      AllFromWeaken(Jobs(base + q[0].delay, q[1..]), base + q[0].delay, base);
      assert Jobs(base, q)[1..] == Jobs(base + q[0].delay, q[1..]);
    }
  }

  lemma {:induction false} JobsConcat(base: nat, p: seq<Entry>, q: seq<Entry>)
    requires AllDue(p)
    ensures Jobs(base, p + q) == Jobs(base, p) + Jobs(base, q)
    ensures AllUpto(Jobs(base, p), base)
  {
    if p == [] {
      assert p + q == q;
    } else {
      var pq, head := p + q, [Job(base, p[0].slot, p[0].period, p[0].count)];
      assert pq[0] == p[0] && pq[1..] == p[1..] + q;
      JobsConcat(base, p[1..], q);
      assert Jobs(base, p) == head + Jobs(base, p[1..]);
      assert Jobs(base, pq) == head + (Jobs(base, p[1..]) + Jobs(base, q));
      assert Jobs(base, p)[1..] == Jobs(base, p[1..]);
    }
  }

  lemma {:induction false} DuePrefixDue(q: seq<Entry>)
    ensures AllDue(q[..DuePrefix(q)])
  {
    if q != [] && q[0].delay == 0 {
      DuePrefixDue(q[1..]);
      assert q[..DuePrefix(q)][1..] == q[1..][..DuePrefix(q[1..])];
    }
  }

  lemma {:induction false} AllFromSplit(js: seq<Job>, t: nat)
    requires AllFrom(js, t + 1)
    ensures Upto(js, t) == [] && After(js, t) == js
  {
    if js != [] {
      AllFromSplit(js[1..], t);
    }
  }

  lemma {:induction false} AllUptoSplit(js: seq<Job>, t: nat)
    requires AllUpto(js, t)
    ensures Upto(js, t) == js && After(js, t) == []
  {
    if js != [] {
      AllUptoSplit(js[1..], t);
    }
  }

  lemma {:induction false} SplitConcat(a: seq<Job>, b: seq<Job>, t: nat)
    ensures Upto(a + b, t) == Upto(a, t) + Upto(b, t)
    ensures After(a + b, t) == After(a, t) + After(b, t)
  {
    var ab := a + b;
    if a == [] {
      assert ab == b;
    } else {
      var early := if a[0].due <= t then [a[0]] else [];
      var late := if t < a[0].due then [a[0]] else [];
      assert ab[0] == a[0] && ab[1..] == a[1..] + b;
      SplitConcat(a[1..], b, t);
      Assoc(early, Upto(a[1..], t), Upto(b, t));
      Assoc(late, After(a[1..], t), After(b, t));
    }
  }

  /** A job that is not due before `head` is inserted behind it. */
  lemma {:induction false} InsertBehindHead(head: Job, rest: seq<Job>, j: Job)
    requires head.due <= j.due
    ensures InsertStable([head] + rest, j) == [head] + InsertStable(rest, j)
  {
    var js := [head] + rest;
    assert js[0] == head && js[1..] == rest;
    assert Upto(js, j.due) == [head] + Upto(rest, j.due);
    assert After(js, j.due) == After(rest, j.due);
  }

  /** The job an entry becomes when it is put back `newDelay` after `base`. */
  function AgainJob(base: nat, e: Entry, newDelay: nat): Job
    requires e.Repeats()
  {
    Job(base + newDelay, e.slot, e.period, e.Again(newDelay).count)
  }

  /** The in-place walk is stable insertion by absolute deadline: no other deadline moves. */
  lemma {:induction false} ReinsertRefinesStable(base: nat, q: seq<Entry>, e: Entry, newDelay: nat)
    requires e.Repeats()
    ensures Jobs(base, Reinsert(q, e, newDelay)) == InsertStable(Jobs(base, q), AgainJob(base, e, newDelay))
    decreases |q|
  {
    if q == [] {
    } else if newDelay < q[0].delay {
      ReinsertHere(base, q, e, newDelay);
    } else {
      var base', rest, left := base + q[0].delay, q[1..], newDelay - q[0].delay;
      var head := Job(base', q[0].slot, q[0].period, q[0].count);
      var j := AgainJob(base, e, newDelay);
      ReinsertRefinesStable(base', rest, e, left);
      assert AgainJob(base', e, left) == j;
      assert Jobs(base, q) == [head] + Jobs(base', rest);
      InsertBehindHead(head, Jobs(base', rest), j);
      var r := Reinsert(q, e, newDelay);
      assert r[0] == q[0] && r[1..] == Reinsert(rest, e, left);
      assert Jobs(base, r) == [head] + Jobs(base', r[1..]);
    }
  }

  lemma {:induction false} ReinsertHere(base: nat, q: seq<Entry>, e: Entry, newDelay: nat)
    requires e.Repeats() && q != [] && newDelay < q[0].delay
    ensures Jobs(base, Reinsert(q, e, newDelay)) == InsertStable(Jobs(base, q), AgainJob(base, e, newDelay))
  {
    var js, r := Jobs(base, q), Reinsert(q, e, newDelay);
    assert AllFrom(js, base + newDelay + 1) by {
      JobsFrom(base + q[0].delay, q[1..]);
      AllFromWeaken(Jobs(base + q[0].delay, q[1..]), base + q[0].delay, base + newDelay + 1);
      assert js[1..] == Jobs(base + q[0].delay, q[1..]);
    }
    AllFromSplit(js, base + newDelay);
    assert r[1..][1..] == q[1..];
    assert Jobs(base + newDelay, r[1..]) == js;
  }

  lemma {:induction false} ReinsertAllRefines(now: nat, batch: seq<Entry>, q: seq<Entry>)
    requires AllDue(batch)
    ensures Jobs(now, ReinsertAll(batch, q)) == Resubmit(now, Jobs(now, batch), Jobs(now, q))
  {
    if batch != [] {
      var e, js := batch[0], Jobs(now, batch);
      assert js[1..] == Jobs(now, batch[1..]);
      if e.Repeats() {
        ReinsertRefinesStable(now, q, e, e.period);
        assert AgainJob(now, e, e.period) == js[0].Again(now);
        ReinsertAllRefines(now, batch[1..], Reinsert(q, e, e.period));
      } else {
        ReinsertAllRefines(now, batch[1..], q);
      }
    }
  }

  /** One firing, seen through absolute deadlines: what leaves the queue is exactly what is due
      by now, and what is put back goes where a stable priority queue would put it. */
  lemma {:induction false} FiringRefinesPriorityQueue(now: nat, q: seq<Entry>)
    ensures var n := DuePrefix(q);
            && Jobs(now, q[..n]) == Upto(Jobs(now, q), now)
            && Jobs(now, ReinsertAll(q[..n], q[n..]))
               == Resubmit(now, Upto(Jobs(now, q), now), After(Jobs(now, q), now))
  {
    var n := DuePrefix(q);
    var due, rest := Jobs(now, q[..n]), Jobs(now, q[n..]);
    DuePrefixDue(q);
    assert Jobs(now, q) == due + rest by {
      assert q == q[..n] + q[n..];
      JobsConcat(now, q[..n], q[n..]);
    }
    RestAfter(now, q);
    AllUptoSplit(due, now) by {
      JobsConcat(now, q[..n], []);
    }
    AllFromSplit(rest, now);
    SplitConcat(due, rest, now);
    assert Upto(Jobs(now, q), now) == due && After(Jobs(now, q), now) == rest;
    ReinsertAllRefines(now, q[..n], q[n..]);
  }

  lemma {:induction false} RestAfter(now: nat, q: seq<Entry>)
    ensures AllFrom(Jobs(now, q[DuePrefix(q)..]), now + 1)
  {
    var n := DuePrefix(q);
    if n < |q| {
      var rest := q[n..];
      JobsFrom(now + rest[0].delay, rest[1..]);
      AllFromWeaken(Jobs(now + rest[0].delay, rest[1..]), now + rest[0].delay, now + 1);
      assert Jobs(now, rest)[1..] == Jobs(now + rest[0].delay, rest[1..]);
    }
  }
}
