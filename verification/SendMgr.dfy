/** The send scheduler itself (lib/src/ToolsMsgSendMgrImpl.cpp): its methods follow the runs of
    `SendRun`, so every theorem about those is one about the object. */
module SendMgr {
  import opened Wrappers
  import opened SendQueue
  import opened SendAgenda
  import opened SendSchedule
  import opened SendCompletion
  import opened SendRun
  import opened SendOnTime
  import opened Seqs

  class ToolsMsgSendMgr {
    var protocol: bool            // m_protocol is set
    var queue: seq<Entry>         // m_msgsToSend
    var timer: Option<int>        // m_timer: what it was started with, while it runs
    ghost var clock: nat          // time since the latest start
    ghost var log: seq<Event>     // the callbacks made since the latest start
    ghost var started: bool
    ghost var reqs: seq<Request>  // the list given to the latest start
    ghost var fired: nat          // timeouts since then
    ghost var at: State           // where the run of that list is

    /** The object is in this state of a run. */
    ghost predicate Shows(s: State)
      reads this
    {
      clock == s.clock && log == s.log && queue == s.queue && timer == s.timer
    }

    ghost predicate Idle()
      reads this
    {
      queue == [] && timer == None
    }

    /** Nothing has been started, or the object is exactly where the run of its list is, or it has
        been stopped since. */
    ghost predicate Valid()
      reads this
    {
      && (!Idle() ==> started && protocol && Shows(at))
      && (started ==> at == Run(reqs, fired) && clock == at.clock && log == at.log)
    }

    constructor ()
      ensures Valid() && !started && Idle()
    {
      protocol, queue, timer := false, [], None;
      clock, log, started, reqs, fired, at := 0, [], false, [], 0, State(0, [], None, []);
    }

    /** Start sending a list; the previous sending must be over. */
    method Start(msgs: seq<Request>)
      requires Valid() && queue == []
      modifies this
      ensures Valid() && started && reqs == msgs && fired == 0
      ensures Shows(at)
    {
      ghost var to := Run(msgs, 0);
      Begin(msgs, to);
      started, reqs, fired, at := true, msgs, 0, to;
    }

    method Begin(msgs: seq<Request>, ghost to: State)
      requires queue == [] && to == Firing(0, Load(0, msgs), [])
      modifies this`protocol, this`clock, this`queue, this`timer, this`log
      ensures Shows(to) && protocol
    {
      protocol := true;
      QueueClones(msgs);
      clock, log := 0, [];
      SendPendingAndWait(to);
    }

    method QueueClones(msgs: seq<Request>)
      requires queue == []
      modifies this`queue
      ensures queue == Load(0, msgs)
    {
      ghost var all := Load(0, msgs);
      for k := 0 to |msgs|
        invariant queue == all[..k]
      {
        var e := Entry(k, msgs[k].delay, msgs[k].period, msgs[k].count);
        assert all[k] == e && all[..k] + [e] == all[..k + 1];
        queue := queue + [e];
      }
    }

    /** Give up whatever is still queued.  No callback is made.  When the run has come to its end
        there is nothing to give up: the stop with which the viewer answers completion loses
        nothing. */
    method Stop()
      requires Valid()
      modifies this`protocol, this`queue, this`timer
      ensures Valid() && Idle() && !protocol
      ensures started && at.queue == [] ==> queue == old(queue) && timer == old(timer)
    {
      if started && at.queue == [] {
        EndIsIdle();
      }
      timer := None;
      protocol := false;
      queue := [];
    }

    /** The running timer expires: ideal time moves on by its value. */
    method Timeout()
      requires Valid() && timer.Some? && 0 <= timer.value
      modifies this
      ensures Valid() && started && reqs == old(reqs) && fired == old(fired) + 1
      ensures Shows(at)
      ensures clock == old(clock) + old(timer).value
    {
      ghost var to := Run(reqs, fired + 1);
      RunNext(reqs, fired);
      Expire(to);
      fired, at := fired + 1, to;
    }

    method Expire(ghost to: State)
      requires protocol && timer.Some? && 0 <= timer.value && Shows(at) && to == Next(at)
      modifies this`clock, this`queue, this`timer, this`log
      ensures Shows(to) && clock == old(clock) + old(timer).value
    {
      clock := clock + timer.value;
      SendPendingAndWait(to);
    }

    /** Send what is due, put repeating messages back, arm the timer for the rest. */
    method SendPendingAndWait(ghost to: State)
      requires protocol && to == Firing(clock, queue, log)
      modifies this`queue, this`timer, this`log
      ensures Shows(to)
    {
      timer := None;
      var n := 0;
      while n < |queue| && queue[n].delay == 0
        invariant n <= DuePrefix(queue)
        invariant DuePrefix(queue) == n + DuePrefix(queue[n..])
      {
        assert queue[n..][1..] == queue[n + 1..];
        n := n + 1;
      }
      assert n == DuePrefix(queue);
      var next := queue[..n];
      queue := queue[n..];
      ghost var rest := ReinsertAll(next, queue);

      for k := 0 to |next|
        invariant ReinsertAll(next[k..], queue) == rest
        invariant protocol && timer == None && log == old(log)
      {
        NextOf(next, k);
        if next[k].Repeats() {
          if !protocol {
            continue;
          }
          PutBack(next[k]);
        }
      }
      assert next[|next|..] == [];

      log := log + Events(clock, EntrySlots(next), queue != []);
      if queue != [] {
        var delay := queue[0].delay;
        queue := queue[0 := queue[0].(delay := 0)];
        timer := Some(ToInt(delay));
      }
    }

    /** Find the place of a repeating message, shrink the delay of its successor, insert. */
    method PutBack(e: Entry)
      requires e.Repeats()
      modifies this`queue
      ensures queue == Reinsert(old(queue), e, e.period)
    {
      var pos, newDelay := FindPlace(queue, e);
      WalkStops(queue, pos, e, newDelay);
      if pos < |queue| {
        queue := queue[pos := queue[pos].(delay := queue[pos].delay - newDelay)];
      }
      queue := queue[..pos] + [e.Again(newDelay)] + queue[pos..];
    }

    /** The first entry that is due later than one period from now, and how much of the period is
        left in front of it. */
    static method FindPlace(q: seq<Entry>, e: Entry) returns (pos: nat, newDelay: nat)
      requires e.Repeats()
      ensures pos <= |q| && (pos < |q| ==> newDelay < q[pos].delay)
      ensures Reinsert(q, e, e.period) == q[..pos] + Reinsert(q[pos..], e, newDelay)
    {
      newDelay := e.period;
      pos := 0;
      ghost var r := Reinsert(q, e, e.period);
      assert q[0..] == q && q[..0] == [];
      NoneLeft(r);
      while pos < |q| && q[pos].delay <= newDelay
        invariant pos <= |q|
        invariant r == q[..pos] + Reinsert(q[pos..], e, newDelay)
      {
        WalkOn(q, pos, e, newDelay);
        newDelay := newDelay - q[pos].delay;
        pos := pos + 1;
      }
    }

    /** The walk passes an entry. */
    static lemma {:induction false} WalkOn(q: seq<Entry>, pos: nat, e: Entry, newDelay: nat)
      requires e.Repeats() && pos < |q| && q[pos].delay <= newDelay
      ensures q[..pos] + Reinsert(q[pos..], e, newDelay)
           == q[..pos + 1] + Reinsert(q[pos + 1..], e, newDelay - q[pos].delay)
    {
      var later := Reinsert(q[pos + 1..], e, newDelay - q[pos].delay);
      assert q[pos..][1..] == q[pos + 1..];
      assert q[..pos] + [q[pos]] == q[..pos + 1];
      Assoc(q[..pos], [q[pos]], later);
    }

    /** The walk has come to the place. */
    static lemma {:induction false} WalkStops(q: seq<Entry>, pos: nat, e: Entry, newDelay: nat)
      requires e.Repeats() && pos <= |q| && (pos < |q| ==> newDelay < q[pos].delay)
      ensures var r := if pos < |q| then q[pos := q[pos].(delay := q[pos].delay - newDelay)] else q;
              q[..pos] + Reinsert(q[pos..], e, newDelay) == r[..pos] + [e.Again(newDelay)] + r[pos..]
    {
    }

    /** Whatever sequence of starts, timeouts and stops led here, message `i` of the current list
        has been sent at exactly those of its due instants that the clock has reached. */
    lemma {:induction false} SentOnSchedule(i: nat)
      requires Valid() && started && OnTime(reqs) && i < |reqs|
      ensures OnSchedule(reqs, i, clock, SendTimes(log, i))
    {
      RunOnSchedule(reqs, i, fired);
    }

    /** At the end of its run the object is idle, stopped or not. */
    lemma {:induction false} EndIsIdle()
      requires Valid() && started && at.queue == []
      ensures Idle()
    {
      RunArmed(reqs, fired);
    }

    /** Completion has been reported, once and last of all, if the list was sent to its end, and
        not before. */
    lemma {:induction false} CompletionReported()
      requires Valid() && started && OnTime(reqs)
      ensures if at.queue == [] then AllFinite(reqs) && clock == LastDue(reqs, |reqs|) && CompletedLast(log, clock)
              else NoCompletion(log)
    {
      RunReportsCompletion(reqs, fired);
    }
  }
}
