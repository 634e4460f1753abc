/** The message store of the message manager (lib/src/ToolsMsgMgrImpl.cpp): sequence numbers,
    recording of sent, received and loaded messages, and bulk deletion. */
module MsgStore {
  import opened Wrappers
  import opened Bytes
  import opened FrameReader
  import opened FilterChain
  import opened Seqs

  datatype Kind = Received | Sent

  /** A stored message with the sequence number the manager gave it. */
  datatype Stored = Stored(num: nat, kind: Kind, msg: Msg)

  /** A message to send and what the protocol writes for it; nothing when writing fails. */
  datatype Outgoing = Outgoing(msg: Msg, wire: Option<Data>)

  /** A message handed to `addMsgs`; its type may never have been set. */
  datatype Loaded = Loaded(msg: Msg, kind: Option<Kind>)

  /** The manager's own state, the blocks it has handed to the socket, and the messages it has
      reported as added, in the order of the callbacks. */
  datatype Mgr<!S> = Mgr(
    store: seq<Stored>, next: nat, filters: seq<Filter<S>>, out: seq<Data>, reported: seq<Stored>)
  {
    /** Give the next sequence number to a message, store and report it. */
    function Record(kind: Kind, msg: Msg): Mgr<S> {
      var s := Stored(next, kind, msg);
      this.(store := store + [s], next := next + 1, reported := reported + [s])
    }

    /** Report a numbered message that is not in the store yet. */
    function Report(s: Stored): Mgr<S> {
      this.(reported := reported + [s])
    }
  }

  // ---------------------------------------------------------------------------
  // Sending

  /** One message: through the chain if it could be written, recorded in any case. */
  function SendOne<S>(m: Mgr<S>, o: Outgoing): Mgr<S> {
    var p := match o.wire
             case None => Passed(m.filters, [])
             case Some(d) => SendChain(m.filters, [d]);
    m.(filters := p.filters, out := m.out + p.out).Record(Sent, o.msg)
  }

  /** `sendMsgs` with a socket and a protocol; null entries are skipped. */
  function SendList<S>(m: Mgr<S>, os: seq<Option<Outgoing>>): Mgr<S>
    decreases |os|
  {
    if os == [] then m
    else SendList(match os[0] case None => m case Some(o) => SendOne(m, o), os[1..])
  }

  // ---------------------------------------------------------------------------
  // Receiving

  /** What the protocol asks to send when it is told of a received message. */
  type Hook = Msg -> seq<Option<Outgoing>>

  /** Number the received messages and let the protocol react to each; they are collected aside. */
  function ReceiveEach<S>(m: Mgr<S>, msgs: seq<Msg>, hook: Hook): (r: (Mgr<S>, seq<Stored>))
    decreases |msgs|
  {
    if msgs == [] then (m, [])
    else
      var later := ReceiveEach(AfterFirst(m, msgs[0], hook), msgs[1..], hook);
      (later.0, [Stored(m.next, Received, msgs[0])] + later.1)
  }

  /** Number one received message, let the protocol react to it, report it. */
  function AfterFirst<S>(m: Mgr<S>, msg: Msg, hook: Hook): Mgr<S> {
    SendList(m.(next := m.next + 1), hook(msg)).Report(Stored(m.next, Received, msg))
  }

  /** Received messages join the store only after every reaction. */
  function Receive<S>(m: Mgr<S>, msgs: seq<Msg>, hook: Hook): Mgr<S> {
    var r := ReceiveEach(m, msgs, hook);
    r.0.(store := r.0.store + r.1)
  }

  predicate Typed(o: Option<Loaded>) {
    o.Some? && o.value.kind.Some?
  }

  /** `addMsgs`: null entries and entries without a type are skipped. */
  function AddList<S>(m: Mgr<S>, ms: seq<Option<Loaded>>): Mgr<S>
    decreases |ms|
  {
    if ms == [] then m
    else AddList(if Typed(ms[0]) then m.Record(ms[0].value.kind.value, ms[0].value.msg) else m, ms[1..])
  }

  // ---------------------------------------------------------------------------
  // Sequence numbers

  ghost predicate Below(store: seq<Stored>, next: nat) {
    forall k :: 0 <= k < |store| ==> store[k].num < next
  }

  /** No two stored messages share a sequence number. */
  ghost predicate Distinct(store: seq<Stored>) {
    forall a, b :: 0 <= a < b < |store| ==> store[a].num != store[b].num
  }

  /** Sequence numbers strictly increase along the list. */
  ghost predicate Increasing(store: seq<Stored>) {
    forall a, b :: 0 <= a < b < |store| ==> store[a].num < store[b].num
  }

  ghost predicate Numbered<S>(m: Mgr<S>) {
    Below(m.store, m.next) && Distinct(m.store)
  }

  /** The messages that are not null. */
  function Present(os: seq<Option<Outgoing>>): seq<Outgoing> {
    if os == [] then []
    else (match os[0] case None => [] case Some(o) => [o]) + Present(os[1..])
  }

  /** The records of a list of sent messages, numbered from `next`. */
  function SentRecords(next: nat, os: seq<Outgoing>): (r: seq<Stored>)
    ensures |r| == |os|
    decreases |os|
  {
    if os == [] then [] else [Stored(next, Sent, os[0].msg)] + SentRecords(next + 1, os[1..])
  }

  function ReceivedRecords(next: nat, msgs: seq<Msg>): (r: seq<Stored>)
    ensures |r| == |msgs|
    decreases |msgs|
  {
    if msgs == [] then [] else [Stored(next, Received, msgs[0])] + ReceivedRecords(next + 1, msgs[1..])
  }

  /** Every message given to `sendMsgs` that is not null is recorded exactly once, in order, under
      consecutive numbers, whether or not it could be written or got through the filters. */
  lemma {:induction false} SendRecordsAll<S>(m: Mgr<S>, os: seq<Option<Outgoing>>)
    ensures var r := SendList(m, os);
            && r.store == m.store + SentRecords(m.next, Present(os))
            && r.next == m.next + |Present(os)|
            && |r.filters| == |m.filters|
    decreases |os|
  {
    if os == [] {
      NoneRight(m.store);
    } else {
      match os[0] {
        case None =>
          SendRecordsAll(m, os[1..]);
          NoneLeft(Present(os[1..]));
        case Some(o) =>
          var one, rest := Stored(m.next, Sent, o.msg), SentRecords(m.next + 1, Present(os[1..]));
          SendRecordsAll(SendOne(m, o), os[1..]);
          assert Present(os) == [o] + Present(os[1..]);
          FirstRecord(m.next, o, Present(os[1..]));
          Assoc(m.store, [one], rest);
      }
    }
  }

  lemma {:induction false} FirstRecord(next: nat, o: Outgoing, os: seq<Outgoing>)
    ensures SentRecords(next, [o] + os) == [Stored(next, Sent, o.msg)] + SentRecords(next + 1, os)
  {
    assert ([o] + os)[1..] == os;
  }

  lemma {:induction false} SentRecordsNumbers(next: nat, os: seq<Outgoing>)
    ensures var r := SentRecords(next, os);
            forall k :: 0 <= k < |r| ==> r[k] == Stored(next + k, Sent, os[k].msg)
    decreases |os|
  {
    if os != [] {
      SentRecordsNumbers(next + 1, os[1..]);
    }
  }

  lemma {:induction false} ReceivedRecordsNumbers(next: nat, msgs: seq<Msg>)
    ensures var r := ReceivedRecords(next, msgs);
            forall k :: 0 <= k < |r| ==> r[k] == Stored(next + k, Received, msgs[k])
    decreases |msgs|
  {
    if msgs != [] {
      ReceivedRecordsNumbers(next + 1, msgs[1..]);
    }
  }

  /** Sending keeps numbers distinct, below the counter, and increasing if they were. */
  lemma {:induction false} SendNumbers<S>(m: Mgr<S>, os: seq<Option<Outgoing>>)
    requires Numbered(m)
    ensures var r := SendList(m, os);
            Numbered(r) && m.next <= r.next && (Increasing(m.store) ==> Increasing(r.store))
  {
    SendRecordsAll(m, os);
    SentRecordsNumbers(m.next, Present(os));
  }

  /** The records of what the protocol sends in reaction to a list of received messages. */
  function Reactions(next: nat, msgs: seq<Msg>, hook: Hook): seq<Stored>
    decreases |msgs|
  {
    if msgs == [] then []
    else
      var sent := Present(hook(msgs[0]));
      SentRecords(next + 1, sent) + Reactions(next + 1 + |sent|, msgs[1..], hook)
  }

  /** The records of the received messages themselves. */
  function Receipts(next: nat, msgs: seq<Msg>, hook: Hook): (r: seq<Stored>)
    ensures |r| == |msgs|
    decreases |msgs|
  {
    if msgs == [] then []
    else [Stored(next, Received, msgs[0])]
         + Receipts(next + 1 + |Present(hook(msgs[0]))|, msgs[1..], hook)
  }

  function NextAfter(next: nat, msgs: seq<Msg>, hook: Hook): (r: nat)
    ensures next <= r
    decreases |msgs|
  {
    if msgs == [] then next else NextAfter(next + 1 + |Present(hook(msgs[0]))|, msgs[1..], hook)
  }

  lemma {:induction false} AfterFirstRecords<S>(m: Mgr<S>, msg: Msg, hook: Hook)
    ensures var sent := Present(hook(msg));
            && AfterFirst(m, msg, hook).store == m.store + SentRecords(m.next + 1, sent)
            && AfterFirst(m, msg, hook).next == m.next + 1 + |sent|
  {
    SendRecordsAll(m.(next := m.next + 1), hook(msg));
  }

  lemma {:induction false} ReceiveEachStore<S>(m: Mgr<S>, msgs: seq<Msg>, hook: Hook)
    ensures ReceiveEach(m, msgs, hook).0.store == m.store + Reactions(m.next, msgs, hook)
    decreases |msgs|
  {
    if msgs == [] {
      NoneRight(m.store);
    } else {
      var m2 := AfterFirst(m, msgs[0], hook);
      AfterFirstRecords(m, msgs[0], hook);
      ReceiveEachStore(m2, msgs[1..], hook);
      var sent, later := SentRecords(m.next + 1, Present(hook(msgs[0]))), Reactions(m2.next, msgs[1..], hook);
      Assoc(m.store, sent, later);
    }
  }

  lemma {:induction false} ReceiveEachReceipts<S>(m: Mgr<S>, msgs: seq<Msg>, hook: Hook)
    ensures ReceiveEach(m, msgs, hook).0.next == NextAfter(m.next, msgs, hook)
    ensures ReceiveEach(m, msgs, hook).1 == Receipts(m.next, msgs, hook)
    decreases |msgs|
  {
    if msgs != [] {
      AfterFirstRecords(m, msgs[0], hook);
      ReceiveEachReceipts(AfterFirst(m, msgs[0], hook), msgs[1..], hook);
    }
  }

  /** One more message at the end of a received list. */
  lemma {:induction false} ReceiveEachOneMore<S>(m: Mgr<S>, msgs: seq<Msg>, msg: Msg, hook: Hook)
    ensures var r := ReceiveEach(m, msgs, hook);
            ReceiveEach(m, msgs + [msg], hook)
            == (AfterFirst(r.0, msg, hook), r.1 + [Stored(r.0.next, Received, msg)])
    decreases |msgs|
  {
    if msgs == [] {
      var one := [Stored(m.next, Received, msg)];
      assert [] + [msg] == [msg] && [msg][1..] == [];
      assert ReceiveEach(AfterFirst(m, msg, hook), [], hook).1 == [];
      assert one + [] == [] + one;
    } else {
      assert (msgs + [msg])[1..] == msgs[1..] + [msg] && (msgs + [msg])[0] == msgs[0];
      var m1, one := AfterFirst(m, msgs[0], hook), [Stored(m.next, Received, msgs[0])];
      ReceiveEachOneMore(m1, msgs[1..], msg, hook);
      var r := ReceiveEach(m1, msgs[1..], hook);
      Assoc(one, r.1, [Stored(r.0.next, Received, msg)]);
    }
  }

  /** A received batch ends up behind everything sent in reaction to it. */
  lemma {:induction false} ReceiveRecords<S>(m: Mgr<S>, msgs: seq<Msg>, hook: Hook)
    ensures var r := Receive(m, msgs, hook);
            && r.store == m.store + Reactions(m.next, msgs, hook) + Receipts(m.next, msgs, hook)
            && r.next == NextAfter(m.next, msgs, hook)
  {
    ReceiveEachStore(m, msgs, hook);
    ReceiveEachReceipts(m, msgs, hook);
  }

  ghost predicate InRange(s: seq<Stored>, lo: nat, hi: nat) {
    forall k :: 0 <= k < |s| ==> lo <= s[k].num < hi
  }

  ghost predicate Apart(s: seq<Stored>, t: seq<Stored>) {
    forall a, b :: 0 <= a < |s| && 0 <= b < |t| ==> s[a].num != t[b].num
  }

  lemma {:induction false} ConcatNumbers(s: seq<Stored>, t: seq<Stored>, lo: nat, mid: nat, hi: nat)
    requires lo <= mid <= hi && InRange(s, lo, mid) && InRange(t, mid, hi)
    requires Increasing(s) && Increasing(t)
    ensures InRange(s + t, lo, hi) && Increasing(s + t)
  {
  }

  lemma {:induction false} ReactionRanges(next: nat, msgs: seq<Msg>, hook: Hook)
    ensures var hi := NextAfter(next, msgs, hook);
            var sent, got := Reactions(next, msgs, hook), Receipts(next, msgs, hook);
            && InRange(sent, next + 1, hi) && Increasing(sent)
            && InRange(got, next, hi) && Increasing(got)
    decreases |msgs|
  {
    if msgs != [] {
      var now := Present(hook(msgs[0]));
      var mid := next + 1 + |now|;
      var hi := NextAfter(mid, msgs[1..], hook);
      SentRecordsNumbers(next + 1, now);
      ReactionRanges(mid, msgs[1..], hook);
      ConcatNumbers(SentRecords(next + 1, now), Reactions(mid, msgs[1..], hook), next + 1, mid, hi);
      ConcatNumbers([Stored(next, Received, msgs[0])], Receipts(mid, msgs[1..], hook), next, mid, hi);
    }
  }

  lemma {:induction false} ReactionsApart(next: nat, msgs: seq<Msg>, hook: Hook)
    ensures Apart(Reactions(next, msgs, hook), Receipts(next, msgs, hook))
    decreases |msgs|
  {
    if msgs != [] {
      var now := Present(hook(msgs[0]));
      var mid := next + 1 + |now|;
      SentRecordsNumbers(next + 1, now);
      ReactionRanges(mid, msgs[1..], hook);
      ReactionsApart(mid, msgs[1..], hook);
      ApartConcat(SentRecords(next + 1, now), Reactions(mid, msgs[1..], hook),
                  [Stored(next, Received, msgs[0])], Receipts(mid, msgs[1..], hook),
                  next, mid, NextAfter(mid, msgs[1..], hook));
    }
  }

  lemma {:induction false} ApartConcat(
    first: seq<Stored>, later: seq<Stored>, mine: seq<Stored>, rest: seq<Stored>,
    next: nat, mid: nat, hi: nat)
    requires next < mid <= hi
    requires InRange(first, next + 1, mid) && InRange(later, mid, hi)
    requires InRange(mine, next, next + 1) && InRange(rest, mid, hi)
    requires Apart(later, rest)
    ensures Apart(first + later, mine + rest)
  {
  }

  /** Receiving keeps numbers distinct and below the counter, whatever the protocol sends from its
      received hook. */
  lemma {:induction false} ReceiveNumbers<S>(m: Mgr<S>, msgs: seq<Msg>, hook: Hook)
    requires Numbered(m)
    ensures Numbered(Receive(m, msgs, hook)) && m.next <= Receive(m, msgs, hook).next
  {
    ReceiveRecords(m, msgs, hook);
    ReactionRanges(m.next, msgs, hook);
    ReactionsApart(m.next, msgs, hook);
  }

  /** The protocol sends nothing in reaction to any of these messages. */
  ghost predicate Quiet(msgs: seq<Msg>, hook: Hook) {
    forall k :: 0 <= k < |msgs| ==> Present(hook(msgs[k])) == []
  }

  lemma {:induction false} ReactionsNoneIffQuiet(next: nat, msgs: seq<Msg>, hook: Hook)
    ensures Reactions(next, msgs, hook) == [] <==> Quiet(msgs, hook)
    decreases |msgs|
  {
    if msgs != [] {
      ReactionsNoneIffQuiet(next + 1 + |Present(hook(msgs[0]))|, msgs[1..], hook);
      assert Quiet(msgs, hook) <==> Present(hook(msgs[0])) == [] && Quiet(msgs[1..], hook) by {
        if Present(hook(msgs[0])) == [] && Quiet(msgs[1..], hook) {
          forall k | 0 <= k < |msgs| ensures Present(hook(msgs[k])) == [] {
            assert k > 0 ==> msgs[k] == msgs[1..][k - 1];
          }
        }
        if Quiet(msgs, hook) {
          forall k | 0 <= k < |msgs[1..]| ensures Present(hook(msgs[1..][k])) == [] {
            assert msgs[1..][k] == msgs[k + 1];
          }
        }
      }
    }
  }

  /** A received batch keeps the numbers increasing along the list exactly when the protocol sends
      nothing from its received hook: anything it does send is stored before the batch, under a
      higher number than the batch's first message. */
  lemma {:induction false} ReceiveIncreasingIffQuiet<S>(m: Mgr<S>, msgs: seq<Msg>, hook: Hook)
    requires Numbered(m) && Increasing(m.store)
    ensures Increasing(Receive(m, msgs, hook).store) <==> Quiet(msgs, hook)
  {
    var sent, got := Reactions(m.next, msgs, hook), Receipts(m.next, msgs, hook);
    ReceiveRecords(m, msgs, hook);
    ReactionRanges(m.next, msgs, hook);
    ReactionsNoneIffQuiet(m.next, msgs, hook);
    if msgs != [] {
      AppendedIncreasing(m.store, sent, got, m.next);
    } else {
      assert m.store + sent + got == m.store;
    }
  }

  lemma {:induction false} AppendedIncreasing(store: seq<Stored>, sent: seq<Stored>, got: seq<Stored>, next: nat)
    requires Below(store, next) && Increasing(store) && Increasing(got)
    requires forall k :: 0 <= k < |sent| ==> next < sent[k].num
    requires forall k :: 0 <= k < |got| ==> next <= got[k].num
    requires got != [] && got[0].num == next
    ensures Increasing(store + sent + got) <==> sent == []
  {
    var s := store + sent + got;
    if sent == [] {
      assert s == store + got;
    } else {
      assert s[|store|] == sent[0] && s[|store| + |sent|] == got[0];
    }
  }

  /** One received message and one reaction to it are stored the other way round. */
  lemma {:induction false} ReactionOvertakes<S>(m: Mgr<S>, msg: Msg, o: Outgoing)
    requires m.store == []
    ensures Receive(m, [msg], (x: Msg) => [Some(o)]).store
         == [Stored(m.next + 1, Sent, o.msg), Stored(m.next, Received, msg)]
  {
    var hook := (x: Msg) => [Some(o)];
    ReceiveRecords(m, [msg], hook);
    assert [msg][1..] == [];
    assert Reactions(m.next + 2, [], hook) == [] && Receipts(m.next + 2, [], hook) == [];
    assert Present([Some(o)]) == [o] by {
      assert [Some(o)][1..] == [];
    }
    assert SentRecords(m.next + 1, [o]) == [Stored(m.next + 1, Sent, o.msg)] by {
      assert [o][1..] == [];
    }
  }

  // ---------------------------------------------------------------------------
  // Loading

  function LoadedRecords(next: nat, ms: seq<Option<Loaded>>): seq<Stored>
    decreases |ms|
  {
    if ms == [] then []
    else if Typed(ms[0])
    then [Stored(next, ms[0].value.kind.value, ms[0].value.msg)] + LoadedRecords(next + 1, ms[1..])
    else LoadedRecords(next, ms[1..])
  }

  lemma {:induction false} LoadedNumbers(next: nat, ms: seq<Option<Loaded>>)
    ensures forall k :: 0 <= k < |LoadedRecords(next, ms)| ==> LoadedRecords(next, ms)[k].num == next + k
    decreases |ms|
  {
    if ms != [] {
      LoadedNumbers(if Typed(ms[0]) then next + 1 else next, ms[1..]);
    }
  }

  lemma {:induction false} AddRecords<S>(m: Mgr<S>, ms: seq<Option<Loaded>>)
    ensures var r := AddList(m, ms);
            && r.store == m.store + LoadedRecords(m.next, ms)
            && r.next == m.next + |LoadedRecords(m.next, ms)|
    decreases |ms|
  {
    if ms == [] {
      NoneRight(m.store);
    } else if Typed(ms[0]) {
      var one := Stored(m.next, ms[0].value.kind.value, ms[0].value.msg);
      AddRecords(m.Record(one.kind, one.msg), ms[1..]);
      Assoc(m.store, [one], LoadedRecords(m.next + 1, ms[1..]));
    } else {
      AddRecords(m, ms[1..]);
    }
  }

  lemma {:induction false} AddNumbers<S>(m: Mgr<S>, ms: seq<Option<Loaded>>)
    requires Numbered(m)
    ensures var r := AddList(m, ms);
            Numbered(r) && m.next <= r.next && (Increasing(m.store) ==> Increasing(r.store))
  {
    AddRecords(m, ms);
    LoadedNumbers(m.next, ms);
  }

  // ---------------------------------------------------------------------------
  // Deleting

  /** `deleteMsgs` as its one pass over the two lists goes: drop a stored message when it is the
      one the list is waiting for. */
  function DeletePass(store: seq<Stored>, list: seq<nat>): (r: seq<Stored>)
    decreases |store|
  {
    if store == [] || list == [] then store
    else if store[0].num == list[0] then DeletePass(store[1..], list[1..])
    else [store[0]] + DeletePass(store[1..], list)
  }

  /** How many entries of the list that pass finds. */
  function Found(store: seq<Stored>, list: seq<nat>): (n: nat)
    ensures n <= |list|
    decreases |store|
  {
    if store == [] || list == [] then 0
    else if store[0].num == list[0] then 1 + Found(store[1..], list[1..])
    else Found(store[1..], list)
  }

  /** Deleting one number removes its first occurrence. */
  lemma {:induction false} DeleteFirst(store: seq<Stored>, k: nat, num: nat)
    requires k <= |store| && (k < |store| ==> store[k].num == num)
    requires forall j :: 0 <= j < k ==> store[j].num != num
    ensures DeletePass(store, [num]) == if k < |store| then store[..k] + store[k + 1..] else store
    decreases k
  {
    if k == 0 {
      assert [num][1..] == [];
    } else {
      var tail := store[1..];
      assert DeletePass(tail, [num]) == if k < |store| then tail[..k - 1] + tail[k..] else tail by {
        DeleteFirst(tail, k - 1, num);
      }
      assert DeletePass(store, [num]) == [store[0]] + DeletePass(tail, [num]);
      if k < |store| {
        assert [store[0]] + (tail[..k - 1] + tail[k..]) == store[..k] + store[k + 1..];
      } else {
        assert [store[0]] + tail == store;
      }
    }
  }

  /** The store without the listed messages, the rest in order. */
  function Without(store: seq<Stored>, list: seq<nat>): seq<Stored> {
    if store == [] then []
    else (if store[0].num in list then [] else [store[0]]) + Without(store[1..], list)
  }

  /** The listed messages, in this order, are a subsequence of the store. */
  predicate InStoreOrder(store: seq<Stored>, list: seq<nat>)
    decreases |store|
  {
    list == []
    || (store != [] && if store[0].num == list[0] then InStoreOrder(store[1..], list[1..])
                       else InStoreOrder(store[1..], list))
  }

  predicate Has(store: seq<Stored>, num: nat) {
    exists k :: 0 <= k < |store| && store[k].num == num
  }

  /** What the pass finds is a subsequence of the store. */
  lemma {:induction false} FoundInOrder(store: seq<Stored>, list: seq<nat>)
    ensures InStoreOrder(store, list[..Found(store, list)])
    decreases |store|
  {
    if store != [] && list != [] {
      var n := Found(store, list);
      if store[0].num == list[0] {
        FoundInOrder(store[1..], list[1..]);
        assert list[..n][1..] == list[1..][..n - 1];
      } else {
        FoundInOrder(store[1..], list);
      }
    }
  }

  lemma {:induction false} FoundLongest(store: seq<Stored>, list: seq<nat>, n: nat)
    requires n <= |list| && InStoreOrder(store, list[..n])
    ensures n <= Found(store, list)
    decreases |store|
  {
    if n != 0 {
      if store[0].num == list[0] {
        assert list[..n][1..] == list[1..][..n - 1];
        FoundLongest(store[1..], list[1..], n - 1);
      } else {
        FoundLongest(store[1..], list, n);
      }
    }
  }

  lemma {:induction false} WithoutAbsent(store: seq<Stored>, list: seq<nat>)
    requires forall k :: 0 <= k < |store| ==> store[k].num !in list
    ensures Without(store, list) == store
  {
    if store != [] {
      WithoutAbsent(store[1..], list);
    }
  }

  lemma {:induction false} WithoutSame(store: seq<Stored>, a: seq<nat>, b: seq<nat>)
    requires forall k :: 0 <= k < |store| ==> (store[k].num in a <==> store[k].num in b)
    ensures Without(store, a) == Without(store, b)
  {
    if store != [] {
      WithoutSame(store[1..], a, b);
    }
  }

  lemma {:induction false} WithoutDiffers(store: seq<Stored>, a: seq<nat>, b: seq<nat>, k: nat)
    requires k < |store| && store[k].num in b && store[k].num !in a
    ensures Without(store, a) != Without(store, b)
    ensures store[k] in Without(store, a)
  {
    WithoutHas(store, a, k);
    if store[k] in Without(store, b) {
      WithoutLacks(store, b, store[k]);
    }
  }

  lemma {:induction false} WithoutHas(store: seq<Stored>, list: seq<nat>, k: nat)
    requires k < |store| && store[k].num !in list
    ensures store[k] in Without(store, list)
  {
    if k != 0 {
      WithoutHas(store[1..], list, k - 1);
    }
  }

  lemma {:induction false} WithoutLacks(store: seq<Stored>, list: seq<nat>, s: Stored)
    requires s in Without(store, list)
    ensures s.num !in list
  {
    if store[0].num in list || s != store[0] {
      WithoutLacks(store[1..], list, s);
    }
  }

  lemma {:induction false} DistinctTail(store: seq<Stored>)
    requires Distinct(store) && store != []
    ensures Distinct(store[1..])
    ensures forall k :: 0 <= k < |store[1..]| ==> store[1..][k].num != store[0].num
  {
    forall k | 0 <= k < |store[1..]| ensures store[1..][k].num != store[0].num {
      assert store[1..][k] == store[k + 1];
    }
  }

  /** The pass removes exactly what it finds. */
  lemma {:induction false} PassRemovesFound(store: seq<Stored>, list: seq<nat>)
    requires Distinct(store)
    ensures DeletePass(store, list) == Without(store, list[..Found(store, list)])
    decreases |store|
  {
    if store == [] {
    } else if list == [] {
      WithoutAbsent(store, []);
    } else {
      DistinctTail(store);
      var n := Found(store, list);
      if store[0].num == list[0] {
        PassRemovesFound(store[1..], list[1..]);
        assert list[..n] == [list[0]] + list[1..][..n - 1];
        WithoutSame(store[1..], list[..n], list[1..][..n - 1]);
        assert store[0].num in list[..n] by {
          assert list[..n][0] == list[0];
        }
      } else {
        PassRemovesFound(store[1..], list);
        FoundStored(store[1..], list);
      }
    }
  }

  /** Everything the pass finds is stored. */
  lemma {:induction false} FoundStored(store: seq<Stored>, list: seq<nat>)
    ensures forall j :: 0 <= j < Found(store, list) ==> Has(store, list[j])
    decreases |store|
  {
    if store != [] && list != [] {
      var rest := if store[0].num == list[0] then list[1..] else list;
      FoundStored(store[1..], rest);
      forall j | 0 <= j < Found(store, list) ensures Has(store, list[j]) {
        if store[0].num == list[0] && j == 0 {
          assert store[0].num == list[0];
        } else {
          var j' := if store[0].num == list[0] then j - 1 else j;
          assert Has(store[1..], rest[j']);
          var k :| 0 <= k < |store[1..]| && store[1..][k].num == rest[j'];
          assert store[k + 1].num == list[j];
        }
      }
    }
  }

  /** A one-element list is always deleted exactly. */
  lemma {:induction false} DeleteOneExact(store: seq<Stored>, num: nat)
    requires Distinct(store)
    ensures DeletePass(store, [num]) == Without(store, [num])
  {
    if Has(store, num) {
      var k :| 0 <= k < |store| && store[k].num == num;
      InOrderOne(store, num, k);
      DeleteExact(store, [num]);
    } else {
      assert Deletable(store, [num]) by {
        assert InStoreOrder(store, [num][..0]);
      }
      DeleteExactIff(store, [num]);
    }
  }

  lemma {:induction false} InOrderOne(store: seq<Stored>, num: nat, k: nat)
    requires k < |store| && store[k].num == num
    ensures InStoreOrder(store, [num])
    decreases k
  {
    if store[0].num == num {
      assert [num][1..] == [];
    } else {
      InOrderOne(store[1..], num, k - 1);
    }
  }

  /** When the listed messages come in store order, exactly they are deleted. */
  lemma {:induction false} DeleteExact(store: seq<Stored>, list: seq<nat>)
    requires Distinct(store) && InStoreOrder(store, list)
    ensures DeletePass(store, list) == Without(store, list)
  {
    var n := |list|;
    assert list[..n] == list;
    FoundLongest(store, list, n);
    assert Found(store, list) == n;
    PassRemovesFound(store, list);
  }

  /** The list starts with messages in store order; what comes after adds no stored message. */
  predicate Deletable(store: seq<Stored>, list: seq<nat>) {
    exists n | 0 <= n <= |list| ::
      && InStoreOrder(store, list[..n])
      && forall j | n <= j < |list| :: Has(store, list[j]) ==> list[j] in list[..n]
  }

  /** For any list at all: the pass deletes exactly the listed messages if and only if the stored
      ones among them come first and in store order. */
  lemma {:induction false} DeleteExactIff(store: seq<Stored>, list: seq<nat>)
    requires Distinct(store)
    ensures DeletePass(store, list) == Without(store, list) <==> Deletable(store, list)
  {
    var n := Found(store, list);
    PassRemovesFound(store, list);
    FoundInOrder(store, list);
    if Deletable(store, list) {
      var m :| 0 <= m <= |list| && InStoreOrder(store, list[..m])
               && forall j | m <= j < |list| :: Has(store, list[j]) ==> list[j] in list[..m];
      FoundLongest(store, list, m);
      forall k | 0 <= k < |store| ensures store[k].num in list[..n] <==> store[k].num in list {
        if store[k].num in list {
          var j :| 0 <= j < |list| && list[j] == store[k].num;
          assert Has(store, list[j]);
          if j < m {
            assert list[..n][j] == list[j];
          } else {
            assert list[j] in list[..m];
            var i :| 0 <= i < m && list[..m][i] == list[j];
            assert list[..n][i] == list[j];
          }
        }
      }
      WithoutSame(store, list[..n], list);
    } else {
      var j :| n <= j < |list| && Has(store, list[j]) && list[j] !in list[..n];
      var k :| 0 <= k < |store| && store[k].num == list[j];
      WithoutDiffers(store, list[..n], list, k);
    }
  }

  /** Two messages listed the other way round: only one of them is deleted. */
  lemma {:induction false} SwappedListMissed(a: Stored, b: Stored)
    requires a.num != b.num
    ensures DeletePass([a, b], [b.num, a.num]) == [a]
    ensures Without([a, b], [b.num, a.num]) == []
  {
    assert [a, b][1..] == [b] && [b][1..] == [];
    assert [b.num, a.num][1..] == [a.num];
    assert DeletePass([b], [b.num, a.num]) == [];
    var list := [b.num, a.num];
    assert list[0] == b.num && list[1] == a.num;
    assert Without([b], list) == [] by {
      assert Without([], list) == [];
    }
  }

  lemma {:induction false} DeleteKeepsStored(store: seq<Stored>, list: seq<nat>)
    ensures forall s :: s in DeletePass(store, list) ==> s in store
    decreases |store|
  {
    if store != [] && list != [] {
      DeleteKeepsStored(store[1..], if store[0].num == list[0] then list[1..] else list);
    }
  }

  lemma {:induction false} DeleteBelow(store: seq<Stored>, list: seq<nat>, next: nat)
    requires Below(store, next)
    ensures Below(DeletePass(store, list), next)
  {
    DeleteKeepsStored(store, list);
    var r := DeletePass(store, list);
    forall k | 0 <= k < |r| ensures r[k].num < next {
      assert r[k] in store;
    }
  }

  lemma {:induction false} DeleteDistinct(store: seq<Stored>, list: seq<nat>)
    requires Distinct(store)
    ensures Distinct(DeletePass(store, list))
    decreases |store|
  {
    if store != [] && list != [] {
      if store[0].num == list[0] {
        DeleteDistinct(store[1..], list[1..]);
      } else {
        DeleteDistinct(store[1..], list);
        DeleteKeepsStored(store[1..], list);
        KeptBehindHead(store, DeletePass(store[1..], list));
      }
    }
  }

  lemma {:induction false} DeleteIncreasing(store: seq<Stored>, list: seq<nat>)
    requires Increasing(store)
    ensures Increasing(DeletePass(store, list))
    decreases |store|
  {
    if store != [] && list != [] {
      if store[0].num == list[0] {
        DeleteIncreasing(store[1..], list[1..]);
      } else {
        DeleteIncreasing(store[1..], list);
        DeleteKeepsStored(store[1..], list);
        KeptBehindHead(store, DeletePass(store[1..], list));
      }
    }
  }

  lemma {:induction false} KeptBehindHead(store: seq<Stored>, rest: seq<Stored>)
    requires store != [] && forall s :: s in rest ==> s in store[1..]
    ensures Distinct(store) ==> forall k :: 0 <= k < |rest| ==> rest[k].num != store[0].num
    ensures Increasing(store) ==> forall k :: 0 <= k < |rest| ==> store[0].num < rest[k].num
  {
    forall k | 0 <= k < |rest|
      ensures Distinct(store) ==> rest[k].num != store[0].num
      ensures Increasing(store) ==> store[0].num < rest[k].num
    {
      assert rest[k] in store[1..];
      var i :| 0 <= i < |store[1..]| && store[1..][i] == rest[k];
      assert store[i + 1] == rest[k];
    }
  }

  // ---------------------------------------------------------------------------
  // Whole runs

  /** Everything that changes the store.  `deleteMsg` is deletion of a one-element list. */
  datatype Op =
    | Send(os: seq<Option<Outgoing>>)
    | Arrive(msgs: seq<Msg>)
    | Add(ms: seq<Option<Loaded>>)
    | Delete(list: seq<nat>)
    | DeleteAll

  function Apply<S>(m: Mgr<S>, op: Op, hook: Hook): Mgr<S> {
    match op
    case Send(os) => SendList(m, os)
    case Arrive(msgs) => Receive(m, msgs, hook)
    case Add(ms) => AddList(m, ms)
    case Delete(list) => m.(store := DeletePass(m.store, list))
    case DeleteAll => m.(store := [])
  }

  function ApplyAll<S>(m: Mgr<S>, ops: seq<Op>, hook: Hook): Mgr<S>
    decreases |ops|
  {
    if ops == [] then m else ApplyAll(Apply(m, ops[0], hook), ops[1..], hook)
  }

  lemma {:induction false} ApplyNumbers<S>(m: Mgr<S>, op: Op, hook: Hook)
    requires Numbered(m)
    ensures Numbered(Apply(m, op, hook)) && m.next <= Apply(m, op, hook).next
  {
    match op {
      case Send(os) => SendNumbers(m, os);
      case Arrive(msgs) => ReceiveNumbers(m, msgs, hook);
      case Add(ms) => AddNumbers(m, ms);
      case Delete(list) =>
        DeleteBelow(m.store, list, m.next);
        DeleteDistinct(m.store, list);
      case DeleteAll =>
    }
  }

  /** Over any run of sends, receptions, loads and deletions, with any reactions of the protocol:
      stored numbers are distinct and below the counter, which never goes back. */
  lemma {:induction false} RunNumbers<S>(m: Mgr<S>, ops: seq<Op>, hook: Hook)
    requires Numbered(m)
    ensures Numbered(ApplyAll(m, ops, hook)) && m.next <= ApplyAll(m, ops, hook).next
    decreases |ops|
  {
    if ops != [] {
      ApplyNumbers(m, ops[0], hook);
      RunNumbers(Apply(m, ops[0], hook), ops[1..], hook);
    }
  }

  ghost predicate QuietRun(ops: seq<Op>, hook: Hook) {
    forall k :: 0 <= k < |ops| ==> ops[k].Arrive? ==> Quiet(ops[k].msgs, hook)
  }

  lemma {:induction false} ApplyIncreasing<S>(m: Mgr<S>, op: Op, hook: Hook)
    requires Numbered(m) && Increasing(m.store)
    requires op.Arrive? ==> Quiet(op.msgs, hook)
    ensures Increasing(Apply(m, op, hook).store)
  {
    match op {
      case Send(os) => SendNumbers(m, os);
      case Arrive(msgs) => ReceiveIncreasingIffQuiet(m, msgs, hook);
      case Add(ms) => AddNumbers(m, ms);
      case Delete(list) => DeleteIncreasing(m.store, list);
      case DeleteAll =>
    }
  }

  /** Over any run in which the protocol does not send from its received hook, the numbers
      strictly increase along the list. */
  lemma {:induction false} RunIncreasing<S>(m: Mgr<S>, ops: seq<Op>, hook: Hook)
    requires Numbered(m) && Increasing(m.store) && QuietRun(ops, hook)
    ensures Increasing(ApplyAll(m, ops, hook).store)
    decreases |ops|
  {
    if ops != [] {
      assert ops[0].Arrive? ==> Quiet(ops[0].msgs, hook);
      ApplyNumbers(m, ops[0], hook);
      ApplyIncreasing(m, ops[0], hook);
      assert QuietRun(ops[1..], hook);
      RunIncreasing(Apply(m, ops[0], hook), ops[1..], hook);
    }
  }

  /** The numbers strictly increase before the run and after every operation of it. */
  ghost predicate IncreasingThroughout<S>(m: Mgr<S>, ops: seq<Op>, hook: Hook)
    decreases |ops|
  {
    && Increasing(m.store)
    && (ops == [] || IncreasingThroughout(Apply(m, ops[0], hook), ops[1..], hook))
  }

  /** They do if and only if they did at first and the protocol sends nothing from its received
      hook. */
  lemma {:induction false} RunIncreasingIff<S>(m: Mgr<S>, ops: seq<Op>, hook: Hook)
    requires Numbered(m)
    ensures IncreasingThroughout(m, ops, hook) <==> Increasing(m.store) && QuietRun(ops, hook)
    decreases |ops|
  {
    if ops != [] && Increasing(m.store) {
      var r := Apply(m, ops[0], hook);
      ApplyNumbers(m, ops[0], hook);
      RunIncreasingIff(r, ops[1..], hook);
      assert QuietRun(ops, hook) <==> QuietFirst(ops, hook) && QuietRun(ops[1..], hook);
      assert QuietFirst(ops, hook) <==> Increasing(r.store) by {
        FirstIncreasingIff(m, ops, hook);
      }
    }
  }

  ghost predicate QuietFirst(ops: seq<Op>, hook: Hook)
    requires ops != []
  {
    ops[0].Arrive? ==> Quiet(ops[0].msgs, hook)
  }

  lemma {:induction false} FirstIncreasingIff<S>(m: Mgr<S>, ops: seq<Op>, hook: Hook)
    requires Numbered(m) && Increasing(m.store) && ops != []
    ensures Increasing(Apply(m, ops[0], hook).store) <==> QuietFirst(ops, hook)
  {
    if ops[0].Arrive? {
      ReceiveIncreasingIffQuiet(m, ops[0].msgs, hook);
    } else {
      ApplyIncreasing(m, ops[0], hook);
    }
  }

  // ---------------------------------------------------------------------------
  // What a load takes in

  /** The places of a list at which there is a message whose type was set. */
  ghost predicate Places(ms: seq<Option<Loaded>>, ks: seq<nat>) {
    && (forall n :: 0 <= n < |ks| ==> ks[n] < |ms|)
    && (forall a, b :: 0 <= a < b < |ks| ==> ks[a] < ks[b])
    && (forall k: nat :: k in ks <==> k < |ms| && ms[k] != None && ms[k].value.kind != None)
  }

  /** The record of each of them, in order, under consecutive numbers. */
  ghost predicate TakenIn(ms: seq<Option<Loaded>>, ks: seq<nat>, next: nat, rs: seq<Stored>) {
    && |rs| == |ks|
    && forall n :: 0 <= n < |ks| ==>
         && ks[n] < |ms| && ms[ks[n]] != None && ms[ks[n]].value.kind != None
         && rs[n].num == next + n
         && Some(rs[n].kind) == ms[ks[n]].value.kind && rs[n].msg == ms[ks[n]].value.msg
  }

  /** A load takes in every message that is there and has a type, received or sent, and no other. */
  lemma {:induction false} LoadTakes<S>(m: Mgr<S>, ms: seq<Option<Loaded>>) returns (ks: seq<nat>, rs: seq<Stored>)
    ensures Places(ms, ks) && TakenIn(ms, ks, m.next, rs)
    ensures AddList(m, ms).store == m.store + rs && AddList(m, ms).next == m.next + |rs|
    ensures AddList(m, ms).reported == m.reported + rs
    decreases |ms|
  {
    if ms == [] {
      ks, rs := [], [];
      NoneRight(m.store);
      NoneRight(m.reported);
    } else if ms[0] != None && ms[0].value.kind != None {
      var one := Stored(m.next, ms[0].value.kind.value, ms[0].value.msg);
      var ls, more := LoadTakes(m.Record(one.kind, one.msg), ms[1..]);
      ks, rs := [0] + Later(ls), [one] + more;
      PlacesFirst(ms, ls);
      Assoc(m.store, [one], more);
      Assoc(m.reported, [one], more);
    } else {
      var ls;
      ls, rs := LoadTakes(m, ms[1..]);
      ks := Later(ls);
      PlacesLater(ms, ls);
    }
  }

  function Later(ks: seq<nat>): (r: seq<nat>)
    ensures |r| == |ks| && forall n :: 0 <= n < |r| ==> r[n] == ks[n] + 1
  {
    seq(|ks|, n requires 0 <= n < |ks| => ks[n] + 1)
  }

  lemma {:induction false} PlacesLater(ms: seq<Option<Loaded>>, ls: seq<nat>)
    requires ms != [] && Places(ms[1..], ls) && !(ms[0] != None && ms[0].value.kind != None)
    ensures Places(ms, Later(ls))
  {
    forall k: nat ensures k in Later(ls) <==> k < |ms| && ms[k] != None && ms[k].value.kind != None {
      LaterIn(ls, k);
      if k != 0 && k < |ms| {
        assert ms[k] == ms[1..][k - 1];
      }
    }
  }

  lemma {:induction false} PlacesFirst(ms: seq<Option<Loaded>>, ls: seq<nat>)
    requires ms != [] && Places(ms[1..], ls) && ms[0] != None && ms[0].value.kind != None
    ensures Places(ms, [0] + Later(ls))
  {
    var ks := [0] + Later(ls);
    forall k: nat ensures k in ks <==> k < |ms| && ms[k] != None && ms[k].value.kind != None {
      LaterIn(ls, k);
      assert k in ks <==> k == 0 || k in Later(ls);
      if k != 0 && k < |ms| {
        assert ms[k] == ms[1..][k - 1];
      }
    }
  }

  lemma {:induction false} LaterIn(ls: seq<nat>, k: nat)
    ensures k in Later(ls) <==> k != 0 && k - 1 in ls
  {
    if k != 0 && k - 1 in ls {
      var n :| 0 <= n < |ls| && ls[n] == k - 1;
      assert Later(ls)[n] == k;
    }
  }

  /** Of a list in which every message is there and has a type, each is stored. */
  lemma {:induction false} LoadTakesAll<S>(m: Mgr<S>, ms: seq<Option<Loaded>>)
    requires forall k :: 0 <= k < |ms| ==> ms[k] != None && ms[k].value.kind != None
    ensures var r := AddList(m, ms);
            && |r.store| == |m.store| + |ms| && m.store <= r.store
            && forall k :: 0 <= k < |ms| ==>
                 r.store[|m.store| + k] == Stored(m.next + k, ms[k].value.kind.value, ms[k].value.msg)
  {
    var ks, rs := LoadTakes(m, ms);
    AllPlaces(ms, ks);
  }

  lemma {:induction false} AllPlaces(ms: seq<Option<Loaded>>, ks: seq<nat>)
    requires forall k :: 0 <= k < |ms| ==> ms[k] != None && ms[k].value.kind != None
    requires Places(ms, ks)
    ensures |ks| == |ms| && forall k :: 0 <= k < |ms| ==> ks[k] == k
  {
    CountUp(ks, |ms|, |ms|);
    if ks != [] {
      RisingAtLeast(ks, |ks| - 1);
    }
  }

  lemma {:induction false} RisingAtLeast(ks: seq<nat>, n: nat)
    requires forall a, b :: 0 <= a < b < |ks| ==> ks[a] < ks[b]
    requires n < |ks|
    ensures n <= ks[n]
  {
    if n != 0 {
      RisingAtLeast(ks, n - 1);
    }
  }

  /** A rising list that holds every number below `len` begins with them. */
  lemma {:induction false} CountUp(ks: seq<nat>, len: nat, n: nat)
    requires forall a, b :: 0 <= a < b < |ks| ==> ks[a] < ks[b]
    requires forall k: nat :: k < len ==> k in ks
    requires n <= len
    ensures n <= |ks| && forall k :: 0 <= k < n ==> ks[k] == k
  {
    if n != 0 {
      CountUp(ks, len, n - 1);
      var last: nat := n - 1;
      assert last in ks;
      var x :| 0 <= x < |ks| && ks[x] == last;
      assert n - 1 <= x;
      assert ks[n - 1] <= ks[x];
      assert n - 1 != 0 ==> ks[n - 2] < ks[n - 1];
    }
  }
}
