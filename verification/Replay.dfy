/** Files and the send scheduler together: a saved send list sends as it did, and a recorded
    session loaded as a send list is replayed with its original spacing. */
module Replay {
  import opened Wrappers
  import opened MsgFactory
  import opened MsgFile
  import opened SendQueue
  import opened SendAgenda
  import opened SendSchedule
  import opened SendTimer
  import SendOnTime
  import SendRun

  /** What the scheduler sees of a list of messages. */
  function Requests(os: seq<Object>): (r: seq<Request>)
    ensures |r| == |os|
    ensures forall k :: 0 <= k < |r| ==> r[k] == Request(os[k].delay, os[k].period, os[k].count)
  {
    if os == [] then [] else [Request(os[0].delay, os[0].period, os[0].count)] + Requests(os[1..])
  }

  // ---------------------------------------------------------------------------
  // Requests that send alike

  /** The same delays and periods, and the same counts where a period makes them matter. */
  ghost predicate RequestsAlike(a: seq<Request>, b: seq<Request>) {
    && |a| == |b|
    && forall k :: 0 <= k < |a| ==>
         && a[k].delay == b[k].delay && a[k].period == b[k].period
         && (a[k].period == 0 || a[k].Count() == b[k].Count())
  }

  predicate EntryAlike(a: Entry, b: Entry) {
    && a.slot == b.slot && a.delay == b.delay && a.period == b.period
    && (a.period == 0 || a.Count() == b.Count())
  }

  ghost predicate QueueAlike(a: seq<Entry>, b: seq<Entry>) {
    |a| == |b| && forall k :: 0 <= k < |a| ==> EntryAlike(a[k], b[k])
  }

  lemma {:induction false} AlikeDue(a: seq<Entry>, b: seq<Entry>)
    requires QueueAlike(a, b)
    ensures DuePrefix(a) == DuePrefix(b)
  {
    if a != [] {
      assert EntryAlike(a[0], b[0]);
      if a[0].delay == 0 {
        AlikeDue(a[1..], b[1..]);
      }
    }
  }

  lemma {:induction false} AlikeReinsert(a: seq<Entry>, b: seq<Entry>, x: Entry, y: Entry, newDelay: nat)
    requires QueueAlike(a, b) && EntryAlike(x, y) && x.Repeats()
    ensures QueueAlike(Reinsert(a, x, newDelay), Reinsert(b, y, newDelay))
    decreases |a|
  {
    if a != [] {
      assert EntryAlike(a[0], b[0]);
      if a[0].delay <= newDelay {
        AlikeReinsert(a[1..], b[1..], x, y, newDelay - a[0].delay);
      }
    }
  }

  lemma {:induction false} AlikeReinsertAll(p: seq<Entry>, q: seq<Entry>, a: seq<Entry>, b: seq<Entry>)
    requires QueueAlike(p, q) && QueueAlike(a, b)
    ensures QueueAlike(ReinsertAll(p, a), ReinsertAll(q, b))
    decreases |p|
  {
    if p != [] {
      assert EntryAlike(p[0], q[0]);
      if p[0].Repeats() {
        AlikeReinsert(a, b, p[0], q[0], p[0].period);
        AlikeReinsertAll(p[1..], q[1..], Reinsert(a, p[0], p[0].period), Reinsert(b, q[0], q[0].period));
      } else {
        AlikeReinsertAll(p[1..], q[1..], a, b);
      }
    }
  }

  lemma {:induction false} AlikeSlots(a: seq<Entry>, b: seq<Entry>)
    requires QueueAlike(a, b)
    ensures SendRun.EntrySlots(a) == SendRun.EntrySlots(b)
  {
    if a != [] {
      assert EntryAlike(a[0], b[0]);
      AlikeSlots(a[1..], b[1..]);
    }
  }

  /** The same time, timer and callbacks, and queues that differ only in counts that do not matter. */
  ghost predicate StateAlike(s: SendRun.State, t: SendRun.State) {
    s.clock == t.clock && s.timer == t.timer && s.log == t.log && QueueAlike(s.queue, t.queue)
  }

  lemma {:induction false} AlikeFiring(now: nat, a: seq<Entry>, b: seq<Entry>, log: seq<Event>)
    requires QueueAlike(a, b)
    ensures StateAlike(SendRun.Firing(now, a, log), SendRun.Firing(now, b, log))
  {
    var n := DuePrefix(a);
    AlikeDue(a, b);
    AlikeSlots(a[..n], b[..n]);
    AlikeReinsertAll(a[..n], b[..n], a[n..], b[n..]);
    AlikeArm(now, ReinsertAll(a[..n], a[n..]), ReinsertAll(b[..n], b[n..]),
             log + Events(now, SendRun.EntrySlots(a[..n]), ReinsertAll(a[..n], a[n..]) != []));
  }

  lemma {:induction false} AlikeArm(now: nat, a: seq<Entry>, b: seq<Entry>, log: seq<Event>)
    requires QueueAlike(a, b)
    ensures StateAlike(SendRun.Arm(now, a, log), SendRun.Arm(now, b, log))
  {
    if a != [] {
      assert EntryAlike(a[0], b[0]);
    }
  }

  /** Lists that differ only in counts that do not matter have the same run, whatever their delays. */
  lemma {:induction false} AlikeRuns(r: seq<Request>, s: seq<Request>, n: nat)
    requires RequestsAlike(r, s)
    ensures StateAlike(SendRun.Run(r, n), SendRun.Run(s, n))
    decreases n
  {
    if n == 0 {
      AlikeFiring(0, SendRun.Load(0, r), SendRun.Load(0, s), []);
    } else {
      AlikeRuns(r, s, n - 1);
      AlikeNext(SendRun.Run(r, n - 1), SendRun.Run(s, n - 1));
    }
  }

  lemma {:induction false} AlikeNext(s: SendRun.State, t: SendRun.State)
    requires StateAlike(s, t)
    ensures StateAlike(SendRun.Next(s), SendRun.Next(t))
  {
    if s.timer.Some? && 0 <= s.timer.value {
      AlikeFiring(s.clock + s.timer.value, s.queue, t.queue, s.log);
    }
  }

  /** Saving a send list and loading it back leaves the scheduler's callbacks as they were: the
      same batches at the same instants, and completion at the same instant if at all. */
  lemma {:induction false} SavedListSendsAlike(f: Factory, os: seq<Object>, n: nat)
    requires SortedById(f.table) && AllFaithful(f, os)
    ensures var x, y := SendRun.Run(Requests(os), n), SendRun.Run(Requests(LoadSend(f, SaveSend(f, os))), n);
            x.log == y.log && x.clock == y.clock
  {
    SendListRoundTrip(f, os);
    NormalAlike(f, os);
    AlikeRuns(Requests(os), Requests(NormalList(f, os)), n);
  }

  lemma {:induction false} NormalAlike(f: Factory, os: seq<Object>)
    ensures RequestsAlike(Requests(os), Requests(NormalList(f, os)))
  {
    if os != [] {
      NormalAlike(f, os[1..]);
      var a, b := Requests(os), Requests(NormalList(f, os));
      assert b[0] == Requests([Normal(f, os[0])])[0];
      forall k | 0 <= k < |a|
        ensures a[k].delay == b[k].delay && a[k].period == b[k].period
        ensures a[k].period == 0 || a[k].Count() == b[k].Count()
      {
        if k > 0 {
          assert Requests(os[1..])[k - 1] == a[k] && Requests(NormalList(f, os[1..]))[k - 1] == b[k];
        }
      }
    }
  }

  // ---------------------------------------------------------------------------
  // Delays from timestamps

  /** The delays a list of timestamps is loaded with. */
  function Delays(prev: nat, stamps: seq<nat>): (r: seq<nat>)
    ensures |r| == |stamps|
    decreases |stamps|
  {
    if stamps == [] then []
    else
      var since := if prev == 0 then stamps[0] else prev;
      [(stamps[0] - since) % WORD] + Delays(stamps[0], stamps[1..])
  }

  /** The total of the delays up to and including the i-th. */
  function Elapsed(delays: seq<nat>, i: nat): nat
    requires i < |delays|
  {
    if i == 0 then delays[0] else delays[0] + Elapsed(delays[1..], i - 1)
  }

  predicate Stamps64(stamps: seq<nat>) {
    forall k :: 0 <= k < |stamps| ==> 0 < stamps[k] < WORD
  }

  predicate NonDecreasing(stamps: seq<nat>) {
    forall k :: 0 < k < |stamps| ==> stamps[k - 1] <= stamps[k]
  }

  ghost predicate Spaced(prev: nat, stamps: seq<nat>) {
    var delays := Delays(prev, stamps);
    forall i :: 0 <= i < |stamps| ==> Elapsed(delays, i) + prev == stamps[i]
  }

  lemma {:induction false} SpacedTail(prev: nat, stamps: seq<nat>)
    requires 0 < prev < WORD && stamps != [] && Stamps64(stamps)
    ensures Spaced(prev, stamps) <==> prev <= stamps[0] && Spaced(stamps[0], stamps[1..])
  {
    var rest, delays := stamps[1..], Delays(prev, stamps);
    assert delays[1..] == Delays(stamps[0], rest);
    if prev <= stamps[0] {
      assert Elapsed(delays, 0) == stamps[0] - prev;
      forall i | 0 <= i < |rest|
        ensures Elapsed(delays, i + 1) == stamps[0] - prev + Elapsed(delays[1..], i) && stamps[i + 1] == rest[i]
      {
      }
      if Spaced(prev, stamps) {
        forall i | 0 <= i < |rest| ensures Elapsed(delays[1..], i) + stamps[0] == rest[i] {
          assert Elapsed(delays, i + 1) + prev == stamps[i + 1];
        }
      }
      if Spaced(stamps[0], rest) {
        forall i | 0 <= i < |stamps| ensures Elapsed(delays, i) + prev == stamps[i] {
          if i > 0 {
            assert Elapsed(delays[1..], i - 1) + stamps[0] == rest[i - 1];
          }
        }
      }
    } else {
      assert Elapsed(delays, 0) == stamps[0] - prev + WORD;
    }
  }

  lemma {:induction false} SpacedIffOrdered(prev: nat, stamps: seq<nat>)
    requires 0 < prev < WORD && Stamps64(stamps)
    ensures Spaced(prev, stamps) <==> NonDecreasing([prev] + stamps)
    decreases |stamps|
  {
    if stamps != [] {
      var all := [prev] + stamps;
      SpacedTail(prev, stamps);
      SpacedIffOrdered(stamps[0], stamps[1..]);
      assert [stamps[0]] + stamps[1..] == stamps == all[1..];
      if all[0] <= all[1] {
        OrderedTail(all);
      }
    }
  }

  lemma {:induction false} OrderedTail(all: seq<nat>)
    requires 2 <= |all| && all[0] <= all[1]
    ensures NonDecreasing(all) <==> NonDecreasing(all[1..])
  {
    if NonDecreasing(all[1..]) {
      forall k | 0 < k < |all| ensures all[k - 1] <= all[k] {
        if k > 1 {
          assert all[1..][k - 2] <= all[1..][k - 1];
        }
      }
    }
    if NonDecreasing(all) {
      forall k | 0 < k < |all[1..]| ensures all[1..][k - 1] <= all[1..][k] {
        assert all[k] <= all[k + 1];
      }
    }
  }

  /** Recorded timestamps become delays with the original spacing, counted from the first one, if
      and only if they never decrease: the difference is taken modulo 2^64. */
  lemma {:induction false} DelaysKeepSpacing(stamps: seq<nat>)
    requires Stamps64(stamps) && stamps != []
    ensures (forall i :: 0 <= i < |stamps| ==> Elapsed(Delays(0, stamps), i) + stamps[0] == stamps[i])
            <==> NonDecreasing(stamps)
  {
    SpacedIffOrdered(stamps[0], stamps);
    assert Delays(0, stamps) == Delays(stamps[0], stamps);
    var all := [stamps[0]] + stamps;
    assert all[1..] == stamps;
    OrderedTail(all);
  }

  /** A clock that is set back during the recording makes a delay of almost 2^64. */
  lemma {:induction false} ClockSetBack()
    ensures Delays(0, [2, 1]) == [0, 0xffff_ffff_ffff_ffff]
  {
    assert [2, 1][1..] == [1] && [1][1..] == [];
    assert Delays(2, [1]) == [WORD - 1] + Delays(1, []);
  }

  // ---------------------------------------------------------------------------
  // Loading a recorded session as a send list

  /** An entry of a receive list: a timestamp and no send properties. */
  predicate Recorded(fm: FileMsg) {
    && fm.delay == 0 && fm.repeat == 0 && fm.repeatCount == 0
    && 0 < fm.timestamp < WORD
  }

  /** The loaded entries are recorded entries with these timestamps. */
  predicate TimedBy(ls: seq<Loaded>, stamps: seq<nat>) {
    if ls == [] then stamps == []
    else
      && stamps != []
      && Recorded(ls[0].entry) && ls[0].entry.timestamp == stamps[0]
      && TimedBy(ls[1..], stamps[1..])
  }

  /** Requests to send once, with these delays. */
  function OnceAfter(delays: seq<nat>): (r: seq<Request>)
    ensures |r| == |delays|
    ensures forall k :: 0 <= k < |r| ==> r[k] == Request(delays[k], 0, Some(1))
  {
    if delays == [] then [] else [Request(delays[0], 0, Some(1))] + OnceAfter(delays[1..])
  }

  lemma {:induction false} LoadedDelays(ls: seq<Loaded>, stamps: seq<nat>, prev: nat)
    requires prev < WORD && TimedBy(ls, stamps)
    ensures Stamps64(stamps)
    ensures Requests(Timed(ls, prev)) == OnceAfter(Delays(prev, stamps))
    decreases |ls|
  {
    if ls != [] {
      RecordedDelay(ls[0].entry, prev);
      LoadedDelays(ls[1..], stamps[1..], stamps[0]);
      assert Timed(ls, prev)[1..] == Timed(ls[1..], stamps[0]);
    }
  }

  lemma {:induction false} RecordedDelay(fm: FileMsg, prev: nat)
    requires Recorded(fm) && prev < WORD
    ensures var since := if prev == 0 then fm.timestamp else prev;
            LoadDelay(fm, prev) == ((fm.timestamp - since) % WORD, fm.timestamp)
    ensures LoadCount(fm) == 1
  {
    var since := if prev == 0 then fm.timestamp else prev;
    if (fm.timestamp - since) % WORD == 0 {
      assert since == fm.timestamp;
    }
  }

  lemma {:induction false} OffsetIsElapsed(delays: seq<nat>, i: nat)
    requires i < |delays|
    ensures Offset(OnceAfter(delays), i) == Elapsed(delays, i)
  {
    if i > 0 {
      OffsetIsElapsed(delays[1..], i - 1);
      assert OnceAfter(delays)[1..] == OnceAfter(delays[1..]);
    }
  }

  lemma {:induction false} OffsetOfStamps(stamps: seq<nat>, i: nat)
    requires Stamps64(stamps) && NonDecreasing(stamps) && i < |stamps|
    ensures Offset(OnceAfter(Delays(0, stamps)), i) + stamps[0] == stamps[i]
  {
    DelaysKeepSpacing(stamps);
    OffsetIsElapsed(Delays(0, stamps), i);
  }

  /** The i-th loaded message is due at its distance from the first. */
  lemma {:induction false} LoadedOffset(ls: seq<Loaded>, stamps: seq<nat>, i: nat)
    requires TimedBy(ls, stamps) && NonDecreasing(stamps) && i < |stamps|
    ensures |Requests(Timed(ls, 0))| == |stamps|
    ensures Requests(Timed(ls, 0))[i].period == 0
    ensures Offset(Requests(Timed(ls, 0)), i) + stamps[0] == stamps[i]
  {
    LoadedDelays(ls, stamps, 0);
    OffsetOfStamps(stamps, i);
  }

  // ---------------------------------------------------------------------------
  // When the pauses of a recording fit the timer

  /** No pause is longer than the timer's `int` can hold. */
  ghost predicate PausesFit(stamps: seq<nat>) {
    forall k :: 0 < k < |stamps| ==> stamps[k] - stamps[k - 1] <= SendRun.INT_MAX
  }

  lemma {:induction false} OffsetStep(delays: seq<nat>, i: nat)
    requires i < |delays|
    ensures Offset(OnceAfter(delays), i) == (if i == 0 then 0 else Offset(OnceAfter(delays), i - 1)) + delays[i]
  {
    if i != 0 {
      OffsetNext(OnceAfter(delays), i);
    }
  }

  lemma {:induction false} OffsetsGrow(delays: seq<nat>, i: nat, j: nat)
    requires i <= j < |delays|
    ensures Offset(OnceAfter(delays), i) <= Offset(OnceAfter(delays), j)
    decreases j
  {
    if i < j {
      OffsetStep(delays, j);
      OffsetsGrow(delays, i, j - 1);
    }
  }

  lemma {:induction false} OnceDue(delays: seq<nat>, u: nat) returns (j: nat)
    requires DueAt(OnceAfter(delays), u)
    ensures j < |delays| && Offset(OnceAfter(delays), j) == u
  {
    var reqs := OnceAfter(delays);
    var i: nat, k: nat :| i < |reqs| && HasRound(reqs[i], k) && Due(reqs, i, k) == u;
    j := i;
  }

  /** Messages sent once are on time if and only if every single delay fits. */
  lemma {:induction false} OnceOnTimeIff(delays: seq<nat>)
    ensures SendOnTime.OnTime(OnceAfter(delays))
            <==> forall k :: 0 <= k < |delays| ==> delays[k] <= SendRun.INT_MAX
  {
    var reqs := OnceAfter(delays);
    if forall k :: 0 <= k < |delays| ==> delays[k] <= SendRun.INT_MAX {
      RequestsGaps(reqs, SendRun.INT_MAX);
    }
    if SendOnTime.OnTime(reqs) {
      forall k | 0 <= k < |delays| ensures delays[k] <= SendRun.INT_MAX {
        OffsetStep(delays, k);
        DelayFits(delays, k);
      }
    }
  }

  lemma {:induction false} DelayFits(delays: seq<nat>, k: nat)
    requires SendOnTime.OnTime(OnceAfter(delays)) && k < |delays|
    ensures delays[k] <= SendRun.INT_MAX
  {
    var reqs := OnceAfter(delays);
    var t := Offset(reqs, k);
    OffsetStep(delays, k);
    if SendRun.INT_MAX < delays[k] {
      assert HasRound(reqs[k], 0) && Due(reqs, k, 0) == t;
      assert Preceded(reqs, Due(reqs, k, 0), SendRun.INT_MAX);
      var u: nat :| DueAt(reqs, u) && t - SendRun.INT_MAX <= u < t;
      var j := OnceDue(delays, u);
      if k <= j {
        OffsetsGrow(delays, k, j);
      } else {
        OffsetsGrow(delays, j, k - 1);
      }
    }
  }

  lemma {:induction false} DelayIsPause(prev: nat, stamps: seq<nat>, k: nat)
    requires Stamps64(stamps) && NonDecreasing(stamps) && k < |stamps|
    requires prev < WORD && (stamps != [] ==> prev <= stamps[0])
    ensures Delays(prev, stamps)[k]
         == if k == 0 then (if prev == 0 then 0 else stamps[0] - prev) else stamps[k] - stamps[k - 1]
    decreases k
  {
    if k != 0 {
      OrderedTail(stamps);
      DelayIsPause(stamps[0], stamps[1..], k - 1);
    }
  }

  /** A recording is replayed with the callbacks of the ideal schedule if and only if no pause is
      longer than the timer can hold. */
  lemma {:induction false} RecordingOnTimeIff(stamps: seq<nat>)
    requires Stamps64(stamps) && NonDecreasing(stamps)
    ensures SendOnTime.OnTime(OnceAfter(Delays(0, stamps))) <==> PausesFit(stamps)
  {
    var delays := Delays(0, stamps);
    OnceOnTimeIff(delays);
    if PausesFit(stamps) {
      forall k | 0 <= k < |delays| ensures delays[k] <= SendRun.INT_MAX {
        DelayIsPause(0, stamps, k);
      }
    }
    if forall k :: 0 <= k < |delays| ==> delays[k] <= SendRun.INT_MAX {
      forall k | 0 < k < |stamps| ensures stamps[k] - stamps[k - 1] <= SendRun.INT_MAX {
        DelayIsPause(0, stamps, k);
        assert delays[k] <= SendRun.INT_MAX;
      }
    }
  }

  /** A pause of 2^31 milliseconds: the first message goes out, and then the timer is started with
      a negative value, for good. */
  lemma {:induction false} LongPauseStops(n: nat)
    ensures var s := SendRun.Run(OnceAfter(Delays(0, [1, 1 + 0x8000_0000])), n);
            s.log == [Sent(0, [0])] && s.timer == Some(-0x8000_0000)
  {
    if n == 0 {
      assert Delays(0, [1, 1 + 0x8000_0000]) == [0, 0x8000_0000] by {
        assert [1, 1 + 0x8000_0000][1..] == [1 + 0x8000_0000];
      }
      assert OnceAfter([0, 0x8000_0000]) == [Request(0, 0, Some(1)), Request(0x8000_0000, 0, Some(1))] by {
        assert [0, 0x8000_0000][1..] == [0x8000_0000];
      }
      FirstThenStuck();
    } else {
      LongPauseStops(n - 1);
    }
  }

  lemma {:induction false} FirstThenStuck()
    ensures var s := SendRun.Run([Request(0, 0, Some(1)), Request(0x8000_0000, 0, Some(1))], 0);
            s.log == [Sent(0, [0])] && s.timer == Some(-0x8000_0000)
  {
    var q := SendRun.Load(0, [Request(0, 0, Some(1)), Request(0x8000_0000, 0, Some(1))]);
    assert q[1..][0] == q[1];
    assert DuePrefix(q) == 1 && q[..1] == [q[0]] && q[1..] == [q[1]];
    assert [q[0]][1..] == [];
    assert ReinsertAll(q[..1], q[1..]) == q[1..];
    assert SendRun.EntrySlots(q[..1]) == [0];
    SendRun.ToIntWraps();
  }

  // ---------------------------------------------------------------------------
  // Replay

  /** The instants message `i` has been sent at, and ideal time, after `n` firings. */
  function TimesAfter(reqs: seq<Request>, i: nat, n: nat): seq<nat> {
    SendTimes(SendRun.Run(reqs, n).log, i)
  }

  function ClockAfter(reqs: seq<Request>, n: nat): nat {
    SendRun.Run(reqs, n).clock
  }

  /** Message `i` has been sent at `at` and at no other instant, or the clock is not there yet. */
  predicate OnceAt(reqs: seq<Request>, i: nat, at: nat, n: nat) {
    TimesAfter(reqs, i, n) == if at <= ClockAfter(reqs, n) then [at] else []
  }

  /** A message without a period is sent once, on its offset; `reached` firings are enough. */
  lemma {:induction false} OnceByOffset(reqs: seq<Request>, i: nat, at: nat, n: nat) returns (reached: nat)
    requires SendOnTime.OnTime(reqs)
    requires i < |reqs| && reqs[i].period == 0 && Offset(reqs, i) == at
    ensures OnceAt(reqs, i, at, n)
    ensures at <= ClockAfter(reqs, reached)
  {
    SendOnTime.OnTimeFits(reqs, n);
    SendRun.RunRefinesAgenda(reqs, n);
    SentOnce(reqs, i, n);
    reached := RunReaches(reqs, i);
  }

  lemma {:induction false} RunReaches(reqs: seq<Request>, i: nat) returns (n: nat)
    requires SendOnTime.OnTime(reqs)
    requires i < |reqs| && reqs[i].period == 0
    ensures Offset(reqs, i) <= ClockAfter(reqs, n)
  {
    n := ReachedBy(reqs, i, 0);
    SendOnTime.OnTimeFits(reqs, n);
    SendRun.RunRefinesAgenda(reqs, n);
  }

  /** A message without a period is sent once, on its offset. */
  lemma {:induction false} SentOnce(reqs: seq<Request>, i: nat, n: nat)
    requires i < |reqs| && reqs[i].period == 0
    ensures var a := AgendaRun(reqs, n);
            SendTimes(a.log, i) == if Offset(reqs, i) <= a.clock then [Offset(reqs, i)] else []
  {
    var a := AgendaRun(reqs, n);
    var times := SendTimes(a.log, i);
    ExactSchedule(reqs, i, n);
    assert Due(reqs, i, 0) == Offset(reqs, i);
    assert !HasRound(reqs[i], 1);
    assert Due(reqs, i, 1) == Offset(reqs, i);
  }

  lemma {:induction false} LoadedOnTime(ls: seq<Loaded>, stamps: seq<nat>)
    requires TimedBy(ls, stamps) && NonDecreasing(stamps) && PausesFit(stamps)
    ensures SendOnTime.OnTime(Requests(Timed(ls, 0)))
  {
    LoadedDelays(ls, stamps, 0);
    RecordingOnTimeIff(stamps);
  }

  /** A receive list loaded as a send list: when the recorded timestamps of the messages that could
      be loaded never decrease, the scheduler sends the i-th of them exactly once, at its distance
      from the first: never at another instant, and the run does get there. */
  lemma {:induction false} ReplayKeepsSpacing(
    f: Factory, entries: seq<Option<FileMsg>>, stamps: seq<nat>, reqs: seq<Request>, i: nat, n: nat)
    returns (reached: nat)
    requires TimedBy(Loadable(f, entries), stamps) && NonDecreasing(stamps) && PausesFit(stamps)
    requires reqs == Requests(LoadSend(f, entries)) && i < |stamps|
    ensures stamps[0] <= stamps[i]
    ensures OnceAt(reqs, i, stamps[i] - stamps[0], n)
    ensures stamps[i] - stamps[0] <= ClockAfter(reqs, reached)
  {
    assert i < |reqs| && reqs[i].period == 0 && Offset(reqs, i) + stamps[0] == stamps[i] by {
      LoadedOffset(Loadable(f, entries), stamps, i);
    }
    LoadedOnTime(Loadable(f, entries), stamps);
    reached := OnceByOffset(reqs, i, stamps[i] - stamps[0], n);
  }

  /** A session as it is recorded: messages that come back as they were, with timestamps that never
      decrease and pauses that fit the timer. */
  ghost predicate Session(f: Factory, os: seq<Object>) {
    && AllFaithful(f, os)
    && (forall k :: 0 <= k < |os| ==> 0 < os[k].timestamp < WORD)
    && NonDecreasing(Recordings(os)) && PausesFit(Recordings(os))
  }

  /** What the scheduler is given when a recorded session is saved and loaded as a send list. */
  function Replayed(f: Factory, os: seq<Object>): seq<Request> {
    Requests(LoadSend(f, SaveRecv(f, os)))
  }

  /** Record, save, load for sending, run: each message goes out once, at the time from the first
      recorded message to it. */
  lemma {:induction false} RecordedSessionReplays(f: Factory, os: seq<Object>, i: nat, n: nat)
    returns (reached: nat)
    requires SortedById(f.table) && Session(f, os) && i < |os|
    ensures var stamps := Recordings(os);
            && stamps[0] <= stamps[i]
            && OnceAt(Replayed(f, os), i, stamps[i] - stamps[0], n)
            && stamps[i] - stamps[0] <= ClockAfter(Replayed(f, os), reached)
  {
    SessionTimed(f, os);
    reached := ReplayKeepsSpacing(f, SaveRecv(f, os), Recordings(os), Replayed(f, os), i, n);
  }

  /** And it is that message: the loaded list has the same prototypes and data, in order. */
  lemma {:induction false} RecordedSessionContents(f: Factory, os: seq<Object>, prev: nat)
    requires SortedById(f.table) && AllFaithful(f, os)
    ensures var ls := Timed(Loadable(f, SaveRecv(f, os)), prev);
            |ls| == |os| && forall k :: 0 <= k < |os| ==> ls[k].pos == os[k].pos && ls[k].data == os[k].data
    decreases |os|
  {
    if os != [] {
      var fm := SaveRecvOne(f, os[0]);
      var next := LoadDelay(fm, prev).1;
      RecvEntry(f, os);
      ObjectRoundTrip(f, os[0], fm);
      RecordedSessionContents(f, os[1..], next);
      var ls, rest := Loadable(f, SaveRecv(f, os)), Loadable(f, SaveRecv(f, os[1..]));
      assert ls[0].entry == fm && ls[1..] == rest;
      assert Timed(ls, prev)[1..] == Timed(rest, next);
      forall k | 0 <= k < |os|
        ensures Timed(ls, prev)[k].pos == os[k].pos && Timed(ls, prev)[k].data == os[k].data
      {
        if k != 0 {
          assert Timed(ls, prev)[k] == Timed(rest, next)[k - 1] && os[k] == os[1..][k - 1];
        }
      }
    }
  }

  /** The timestamps of a session. */
  function Recordings(os: seq<Object>): (r: seq<nat>)
    ensures |r| == |os| && forall k :: 0 <= k < |r| ==> r[k] == os[k].timestamp
  {
    if os == [] then [] else [os[0].timestamp] + Recordings(os[1..])
  }

  /** Every message of a session survives saving, with its timestamp. */
  lemma {:induction false} SessionTimed(f: Factory, os: seq<Object>)
    requires SortedById(f.table) && AllFaithful(f, os)
    requires forall k :: 0 <= k < |os| ==> 0 < os[k].timestamp < WORD
    ensures TimedBy(Loadable(f, SaveRecv(f, os)), Recordings(os))
    decreases |os|
  {
    if os != [] {
      RecvEntry(f, os);
      ObjectRoundTrip(f, os[0], SaveRecvOne(f, os[0]));
      SessionTimed(f, os[1..]);
      assert Recordings(os)[1..] == Recordings(os[1..]);
      assert Loadable(f, SaveRecv(f, os))[1..] == Loadable(f, SaveRecv(f, os[1..]));
    }
  }
}
