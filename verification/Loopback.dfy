/** Reception through filters and frame reader, and what an echo socket makes of it: everything
    sent comes back. */
module Loopback {
  import opened Wrappers
  import opened Bytes
  import opened FrameReader
  import opened FilterChain
  import opened MsgStore
  import opened Seqs

  /** The manager with the buffers of its protocol's frame. */
  datatype Link<!S> = Link(mgr: Mgr<S>, inData: Data, garbage: Data)

  function Calls(blocks: seq<Data>): (r: seq<Call>)
    ensures |r| == |blocks|
    ensures forall k :: 0 <= k < |r| ==> r[k] == Call(blocks[k], false)
  {
    seq(|blocks|, k requires 0 <= k < |blocks| => Call(blocks[k], false))
  }

  /** One block from the socket: through the filters, the frame reader, into the store. */
  function Deliver<S>(f: Frame, hook: Hook, l: Link<S>, block: Data): Link<S>
    requires Sound(f)
  {
    var p := RecvChain(l.mgr.filters, [block]);
    var d := ReadAll(f, l.inData, l.garbage, Calls(p.out));
    Link(Receive(l.mgr.(filters := p.filters), d.msgs, hook), d.rest, d.garbage)
  }

  function DeliverAll<S>(f: Frame, hook: Hook, l: Link<S>, blocks: seq<Data>): Link<S>
    requires Sound(f)
    decreases |blocks|
  {
    if blocks == [] then l else DeliverAll(f, hook, Deliver(f, hook, l, blocks[0]), blocks[1..])
  }

  // ---------------------------------------------------------------------------
  // Sending, as one pass of the chain

  /** What the protocol wrote for a list of messages, in order. */
  function Wires(os: seq<Option<Outgoing>>): seq<Data> {
    if os == [] then []
    else (if os[0].Some? && os[0].value.wire.Some? then [os[0].value.wire.value] else []) + Wires(os[1..])
  }

  /** Message by message through the whole chain is the same as all of them filter by filter. */
  lemma {:induction false} SendListIsOnePass<S>(m: Mgr<S>, os: seq<Option<Outgoing>>)
    ensures var p := SendChain(m.filters, Wires(os));
            && SendList(m, os).filters == p.filters
            && SendList(m, os).out == m.out + p.out
    decreases |os|
  {
    if os == [] {
      EmptyStaysEmpty(m.filters);
      NoneRight(m.out);
    } else if os[0] == None {
      SendListIsOnePass(m, os[1..]);
      NoneLeft(Wires(os[1..]));
    } else {
      var o := os[0].value;
      var first := if o.wire.Some? then [o.wire.value] else [];
      var p1 := SendChain(m.filters, first);
      EmptyStaysEmpty(m.filters);
      SendListIsOnePass(SendOne(m, o), os[1..]);
      SendInPortions(m.filters, first, Wires(os[1..]));
      var p2 := SendChain(p1.filters, Wires(os[1..]));
      Assoc(m.out, p1.out, p2.out);
    }
  }

  // ---------------------------------------------------------------------------
  // Receiving, as one pass

  lemma {:induction false} NothingPresent<S>(m: Mgr<S>, os: seq<Option<Outgoing>>)
    requires Present(os) == []
    ensures SendList(m, os) == m
    decreases |os|
  {
    if os != [] {
      NothingPresent(m, os[1..]);
    }
  }

  /** Without reactions a received list is numbered and stored as it is. */
  lemma {:induction false} QuietEach<S>(m: Mgr<S>, msgs: seq<Msg>, hook: Hook)
    requires Quiet(msgs, hook)
    ensures ReceiveEach(m, msgs, hook)
         == (m.(next := m.next + |msgs|, reported := m.reported + ReceivedRecords(m.next, msgs)),
             ReceivedRecords(m.next, msgs))
    decreases |msgs|
  {
    if msgs == [] {
      NoneRight(m.reported);
    } else {
      var one := Stored(m.next, Received, msgs[0]);
      NothingPresent(m.(next := m.next + 1), hook(msgs[0]));
      assert Quiet(msgs[1..], hook);
      QuietEach(AfterFirst(m, msgs[0], hook), msgs[1..], hook);
      Assoc(m.reported, [one], ReceivedRecords(m.next + 1, msgs[1..]));
    }
  }

  /** `m` after receiving `msgs` without reactions. */
  function WithReceived<S>(m: Mgr<S>, msgs: seq<Msg>): Mgr<S> {
    var rs := ReceivedRecords(m.next, msgs);
    m.(store := m.store + rs, next := m.next + |msgs|, reported := m.reported + rs)
  }

  lemma {:induction false} ReceivedRecordsConcat(next: nat, a: seq<Msg>, b: seq<Msg>)
    ensures ReceivedRecords(next, a + b) == ReceivedRecords(next, a) + ReceivedRecords(next + |a|, b)
    decreases |a|
  {
    if a == [] {
      assert a + b == b;
    } else {
      assert (a + b)[1..] == a[1..] + b;
      ReceivedRecordsConcat(next + 1, a[1..], b);
    }
  }

  lemma {:induction false} ReceivedTwice<S>(m: Mgr<S>, a: seq<Msg>, b: seq<Msg>)
    ensures WithReceived(WithReceived(m, a), b) == WithReceived(m, a + b)
  {
    ReceivedRecordsConcat(m.next, a, b);
    var ra, rb := ReceivedRecords(m.next, a), ReceivedRecords(m.next + |a|, b);
    Assoc(m.store, ra, rb);
    Assoc(m.reported, ra, rb);
  }

  /** A protocol that never sends on its own account. */
  ghost predicate Silent(hook: Hook) {
    forall msg {:trigger hook(msg)} :: Present(hook(msg)) == []
  }

  /** What all the blocks together deliver: one pass of the chain, one sequence of reads. */
  function OnePass<S>(f: Frame, l: Link<S>, blocks: seq<Data>): Link<S>
    requires Sound(f)
  {
    var p := RecvChain(l.mgr.filters, blocks);
    var d := ReadAll(f, l.inData, l.garbage, Calls(p.out));
    Link(WithReceived(l.mgr.(filters := p.filters), d.msgs), d.rest, d.garbage)
  }

  lemma {:induction false} DeliverIsOnePass<S>(f: Frame, hook: Hook, l: Link<S>, block: Data)
    requires Sound(f) && Silent(hook)
    ensures Deliver(f, hook, l, block) == OnePass(f, l, [block])
  {
    var p := RecvChain(l.mgr.filters, [block]);
    var d := ReadAll(f, l.inData, l.garbage, Calls(p.out));
    QuietEach(l.mgr.(filters := p.filters), d.msgs, hook);
  }

  lemma {:induction false} CallsConcat(a: seq<Data>, b: seq<Data>)
    ensures Calls(a + b) == Calls(a) + Calls(b)
  {
  }

  lemma {:induction false} OnePassConcat<S>(f: Frame, l: Link<S>, a: seq<Data>, b: seq<Data>)
    requires Sound(f)
    ensures OnePass(f, OnePass(f, l, a), b) == OnePass(f, l, a + b)
  {
    var p1 := RecvChain(l.mgr.filters, a);
    var p2 := RecvChain(p1.filters, b);
    assert RecvChain(l.mgr.filters, a + b) == Passed(p2.filters, p1.out + p2.out) by {
      RecvInPortions(l.mgr.filters, a, b);
    }
    var d1 := ReadAll(f, l.inData, l.garbage, Calls(p1.out));
    var d2 := ReadAll(f, d1.rest, d1.garbage, Calls(p2.out));
    assert ReadAll(f, l.inData, l.garbage, Calls(p1.out + p2.out)) == d2.Behind(d1.msgs) by {
      CallsConcat(p1.out, p2.out);
      ReadAllConcat(f, l.inData, l.garbage, Calls(p1.out), Calls(p2.out));
    }
    ReceivedTwice(l.mgr.(filters := p2.filters), d1.msgs, d2.msgs);
  }

  /** Block by block through everything is the same as all blocks stage by stage. */
  lemma {:induction false} DeliverAllIsOnePass<S>(f: Frame, hook: Hook, l: Link<S>, blocks: seq<Data>)
    requires Sound(f) && Silent(hook)
    ensures DeliverAll(f, hook, l, blocks) == OnePass(f, l, blocks)
    decreases |blocks|
  {
    if blocks == [] {
      EmptyStaysEmpty(l.mgr.filters);
      assert Calls([]) == [];
      NoneRight(l.mgr.store);
      NoneRight(l.mgr.reported);
    } else {
      DeliverIsOnePass(f, hook, l, blocks[0]);
      DeliverAllIsOnePass(f, hook, Deliver(f, hook, l, blocks[0]), blocks[1..]);
      OnePassConcat(f, l, [blocks[0]], blocks[1..]);
      assert [blocks[0]] + blocks[1..] == blocks;
    }
  }

  // ---------------------------------------------------------------------------
  // Blocks that cause blocks

  /** The receiving side and the blocks that wait for it. */
  datatype Echoing<!S> = Echoing(link: Link<S>, pending: seq<Data>)

  /** What has been put out since. */
  function PutOut(before: seq<Data>, after: seq<Data>): seq<Data> {
    if |before| <= |after| then after[|before|..] else []
  }

  /** The first waiting block is handed back, if anybody listens; what the protocol sends in
      reaction waits behind the others, if the socket is connected. */
  function HandOver<S>(f: Frame, hook: Hook, listening: bool, connected: bool, e: Echoing<S>): Echoing<S>
    requires Sound(f)
    requires e.pending != []
  {
    var l := if listening then Deliver(f, hook, e.link, e.pending[0]) else e.link;
    Echoing(l, e.pending[1..] + (if connected then PutOut(e.link.mgr.out, l.mgr.out) else []))
  }

  /** Up to `n` blocks. */
  function HandOvers<S>(f: Frame, hook: Hook, listening: bool, connected: bool, e: Echoing<S>, n: nat): Echoing<S>
    requires Sound(f)
    decreases n
  {
    if n == 0 || e.pending == [] then e
    else HandOvers(f, hook, listening, connected, HandOver(f, hook, listening, connected, e), n - 1)
  }

  lemma {:induction false} HandOversStep<S>(
    f: Frame, hook: Hook, listening: bool, connected: bool, e: Echoing<S>, n: nat)
    requires Sound(f) && e.pending != [] && HandOvers(f, hook, listening, connected, e, n).pending == []
    ensures 0 < n
    ensures HandOvers(f, hook, listening, connected, e, n)
         == HandOvers(f, hook, listening, connected, HandOver(f, hook, listening, connected, e), n - 1)
  {
  }

  /** A protocol that never sends on its own account lets every waiting block through, and no
      more. */
  lemma {:induction false} SilentHandOvers<S>(f: Frame, hook: Hook, listening: bool, connected: bool, e: Echoing<S>)
    requires Sound(f) && Silent(hook)
    ensures HandOvers(f, hook, listening, connected, e, |e.pending|)
         == Echoing(if listening then DeliverAll(f, hook, e.link, e.pending) else e.link, [])
    ensures HandOvers(f, hook, listening, connected, e, |e.pending|).link.mgr.out == e.link.mgr.out
    decreases |e.pending|
  {
    if e.pending != [] {
      DeliverIsOnePass(f, hook, e.link, e.pending[0]);
      var h := HandOver(f, hook, listening, connected, e);
      assert h.pending == e.pending[1..] by {
        NoneRight(e.pending[1..]);
      }
      SilentHandOvers(f, hook, listening, connected, h);
    }
  }

  /** A protocol that answers a message with itself never comes to an end on a connected echo. */
  lemma {:induction false} AnswerGoesOn<S>(f: Frame, l: Link<S>, raw: Data, msg: Msg, n: nat)
    requires Sound(f) && Accepts(f, raw, msg)
    requires l.mgr.filters == [] && l.inData == [] && l.garbage == []
    ensures var hook := (m: Msg) => [Some(Outgoing(msg, Some(raw)))];
            HandOvers(f, hook, true, true, Echoing(l, [raw]), n).pending == [raw]
    decreases n
  {
    if n != 0 {
      var hook := (m: Msg) => [Some(Outgoing(msg, Some(raw)))];
      var h := HandOver(f, hook, true, true, Echoing(l, [raw]));
      assert h == Echoing(h.link, [raw]) && h.link.mgr.filters == [] && h.link.inData == [] && h.link.garbage == [] by {
        AnswerOnce(f, l, raw, msg);
      }
      AnswerGoesOn(f, h.link, raw, msg, n - 1);
    }
  }

  lemma {:induction false} AnswerOnce<S>(f: Frame, l: Link<S>, raw: Data, msg: Msg)
    requires Sound(f) && Accepts(f, raw, msg)
    requires l.mgr.filters == [] && l.inData == [] && l.garbage == []
    ensures var hook := (m: Msg) => [Some(Outgoing(msg, Some(raw)))];
            var h := HandOver(f, hook, true, true, Echoing(l, [raw]));
            h.pending == [raw] && h.link.mgr.filters == [] && h.link.inData == [] && h.link.garbage == []
  {
    var hook := (m: Msg) => [Some(Outgoing(msg, Some(raw)))];
    var call := Call(raw, false);
    assert Calls([raw]) == [call] && [call][1..] == [];
    assert Drain(f, [] + raw, []) == Drained([msg], [], []) by {
      ReadsBack(f, [raw], [msg]);
      assert [raw][1..] == [] && raw + [] == raw && [] + raw == raw;
    }
    assert ReadAll(f, [], [], [call]) == Drained([msg], [], []) by {
      NoneRight([msg]);
    }
    AnswerSent(l.mgr, raw, msg);
    assert [raw][1..] + [raw] == [raw];
  }

  lemma {:induction false} AnswerSent<S>(m: Mgr<S>, raw: Data, msg: Msg)
    requires m.filters == []
    ensures var r := Receive(m, [msg], (x: Msg) => [Some(Outgoing(msg, Some(raw)))]);
            r.filters == [] && r.out == m.out + [raw]
  {
    var hook := (x: Msg) => [Some(Outgoing(msg, Some(raw)))];
    var m0, m1 := m.(next := m.next + 1), AfterFirst(m, msg, hook);
    assert hook(msg) == [Some(Outgoing(msg, Some(raw)))];
    assert SendList(m0, hook(msg)) == SendOne(m0, Outgoing(msg, Some(raw))) by {
      assert hook(msg)[1..] == [];
    }
    assert m1.filters == [] && m1.out == m.out + [raw];
    assert [msg][1..] == [] && ReceiveEach(m1, [], hook) == (m1, []);
  }

  // ---------------------------------------------------------------------------
  // The loop closed

  /** The entries that the protocol could write; null entries are none. */
  function Written(os: seq<Option<Outgoing>>): seq<Outgoing> {
    if os == [] then []
    else (if os[0].Some? && os[0].value.wire.Some? then [os[0].value] else []) + Written(os[1..])
  }

  /** Whatever could be written, the reader takes back as that message. */
  ghost predicate Readable(f: Frame, os: seq<Option<Outgoing>>) {
    forall k :: 0 <= k < |os| ==>
      os[k].Some? && os[k].value.wire.Some? ==> Accepts(f, os[k].value.wire.value, os[k].value.msg)
  }

  function Messages(os: seq<Outgoing>): (r: seq<Msg>)
    ensures |r| == |os|
  {
    if os == [] then [] else [os[0].msg] + Messages(os[1..])
  }

  lemma {:induction false} ReadableLists(f: Frame, os: seq<Option<Outgoing>>)
    requires Readable(f, os)
    ensures |Wires(os)| == |Written(os)|
    ensures forall k :: 0 <= k < |Written(os)| ==>
              Accepts(f, Wires(os)[k], Messages(Written(os))[k])
  {
    if os != [] {
      ReadableLists(f, os[1..]);
      if os[0].Some? && os[0].value.wire.Some? {
        assert Written(os) == [os[0].value] + Written(os[1..]);
        assert Messages(Written(os)) == [os[0].value.msg] + Messages(Written(os[1..]));
        assert Wires(os) == [os[0].value.wire.value] + Wires(os[1..]);
      } else {
        NoneLeft(Written(os[1..]));
        NoneLeft(Wires(os[1..]));
      }
    }
  }

  lemma {:induction false} FedIsFlatten(blocks: seq<Data>)
    ensures Fed(Calls(blocks)) == Flatten(blocks)
  {
    if blocks != [] {
      assert Calls(blocks)[1..] == Calls(blocks[1..]);
      FedIsFlatten(blocks[1..]);
    }
  }

  /** Reading any blocks that carry the written stream gives the written messages back. */
  lemma {:induction false} ReadsWritten(f: Frame, os: seq<Option<Outgoing>>, blocks: seq<Data>)
    requires Sound(f) && PrefixStable(f) && Readable(f, os)
    requires Flatten(blocks) == Flatten(Wires(os))
    ensures ReadAll(f, [], [], Calls(blocks)) == Drained(Messages(Written(os)), [], [])
  {
    ReadableLists(f, os);
    ReadsBack(f, Wires(os), Messages(Written(os)));
    if blocks != [] {
      AnyChunking(f, [], [], Calls(blocks));
      FedIsFlatten(blocks);
      NoneLeft(Flatten(blocks));
    }
  }

  /** The blocks a list of messages puts on the wire. */
  function WireBlocks<S>(m: Mgr<S>, os: seq<Option<Outgoing>>): seq<Data> {
    SendChain(m.filters, Wires(os)).out
  }

  lemma {:induction false} WiresHandedOver<S>(m: Mgr<S>, os: seq<Option<Outgoing>>)
    ensures SendList(m, os).out == m.out + WireBlocks(m, os)
    ensures SendList(m, os).out[|m.out|..] == WireBlocks(m, os)
  {
    SendListIsOnePass(m, os);
  }

  /** What the receiving side's filters and reader make of the echoed blocks. */
  lemma {:induction false} EchoedStream<S(!new)>(
    f: Frame, sync: Filter<S> -> bool, m: Mgr<S>, os: seq<Option<Outgoing>>)
    requires Sound(f) && PrefixStable(f) && Readable(f, os)
    requires Undoes(sync) && AllSynced(sync, m.filters)
    ensures var p := RecvChain(SendList(m, os).filters, WireBlocks(m, os));
            && AllSynced(sync, p.filters)
            && ReadAll(f, [], [], Calls(p.out)) == Drained(Messages(Written(os)), [], [])
  {
    SendListIsOnePass(m, os);
    ChainUndoes(sync, m.filters, Wires(os), WireBlocks(m, os));
    ReadsWritten(f, os, RecvChain(SendList(m, os).filters, WireBlocks(m, os)).out);
  }

  /** How many records one list makes: what is sent, and what comes back. */
  function RoundSize(os: seq<Option<Outgoing>>): nat {
    |Present(os)| + |Written(os)|
  }

  /** Loopback: send a list, give every block put on the wire back to the receiving side.  The
      store then holds all the messages as sent and behind them, as received, those that could be
      written, in the same order, however the filters cut the data; nothing is left in the frame's
      buffers and the filters are back in sync, ready for another round. */
  lemma {:induction false} EchoReturnsWhatWasSent<S(!new)>(
    f: Frame, hook: Hook, sync: Filter<S> -> bool, m: Mgr<S>, os: seq<Option<Outgoing>>)
    requires Sound(f) && PrefixStable(f) && Silent(hook)
    requires Undoes(sync) && AllSynced(sync, m.filters)
    requires Readable(f, os)
    ensures var msgs := Messages(Written(os));
            var l := DeliverAll(f, hook, Link(SendList(m, os), [], []), WireBlocks(m, os));
            && l.mgr.store == m.store + SentRecords(m.next, Present(os))
                              + ReceivedRecords(m.next + |Present(os)|, msgs)
            && l.mgr.next == m.next + RoundSize(os)
            && AllSynced(sync, l.mgr.filters)
            && l.inData == [] && l.garbage == []
  {
    var msgs := Messages(Written(os));
    var l := DeliverAll(f, hook, Link(SendList(m, os), [], []), WireBlocks(m, os));
    var p := RecvChain(SendList(m, os).filters, WireBlocks(m, os));
    assert AllSynced(sync, p.filters)
           && l == Link(WithReceived(SendList(m, os).(filters := p.filters), msgs), [], []) by {
      EchoedLink(f, hook, sync, m, os);
    }
    SendRecordsAll(m, os);
  }

  lemma {:induction false} EchoedLink<S(!new)>(
    f: Frame, hook: Hook, sync: Filter<S> -> bool, m: Mgr<S>, os: seq<Option<Outgoing>>)
    requires Sound(f) && PrefixStable(f) && Silent(hook)
    requires Undoes(sync) && AllSynced(sync, m.filters)
    requires Readable(f, os)
    ensures var p := RecvChain(SendList(m, os).filters, WireBlocks(m, os));
            && AllSynced(sync, p.filters)
            && DeliverAll(f, hook, Link(SendList(m, os), [], []), WireBlocks(m, os))
               == Link(WithReceived(SendList(m, os).(filters := p.filters), Messages(Written(os))), [], [])
  {
    DeliverAllIsOnePass(f, hook, Link(SendList(m, os), [], []), WireBlocks(m, os));
    EchoedStream(f, sync, m, os);
  }

  /** One round: send a list, deliver every block it put on the wire. */
  function EchoRound<S>(f: Frame, hook: Hook, l: Link<S>, os: seq<Option<Outgoing>>): Link<S>
    requires Sound(f)
  {
    DeliverAll(f, hook, l.(mgr := SendList(l.mgr, os)), WireBlocks(l.mgr, os))
  }

  function EchoRounds<S>(f: Frame, hook: Hook, l: Link<S>, rounds: seq<seq<Option<Outgoing>>>): Link<S>
    requires Sound(f)
    decreases |rounds|
  {
    if rounds == [] then l else EchoRounds(f, hook, EchoRound(f, hook, l, rounds[0]), rounds[1..])
  }

  /** The records of one round: the sent list, and behind it what was written of it, received. */
  function RoundRecord(next: nat, os: seq<Option<Outgoing>>): seq<Stored> {
    SentRecords(next, Present(os)) + ReceivedRecords(next + |Present(os)|, Messages(Written(os)))
  }

  function RoundRecords(next: nat, rounds: seq<seq<Option<Outgoing>>>): seq<Stored>
    decreases |rounds|
  {
    if rounds == [] then []
    else RoundRecord(next, rounds[0]) + RoundRecords(next + RoundSize(rounds[0]), rounds[1..])
  }

  /** The frame's buffers are empty and the filters in sync, with this store and counter. */
  ghost predicate Settled<S(!new)>(sync: Filter<S> -> bool, l: Link<S>, store: seq<Stored>, next: nat) {
    && l.inData == [] && l.garbage == []
    && l.mgr.store == store && l.mgr.next == next
    && AllSynced(sync, l.mgr.filters)
  }

  function RoundsSize(rounds: seq<seq<Option<Outgoing>>>): nat {
    if rounds == [] then 0 else RoundSize(rounds[0]) + RoundsSize(rounds[1..])
  }

  lemma {:induction false} OneRound<S(!new)>(
    f: Frame, hook: Hook, sync: Filter<S> -> bool, m: Mgr<S>, os: seq<Option<Outgoing>>)
    requires Sound(f) && PrefixStable(f) && Silent(hook)
    requires Undoes(sync) && AllSynced(sync, m.filters)
    requires Readable(f, os)
    ensures Settled(sync, EchoRound(f, hook, Link(m, [], []), os),
                    m.store + RoundRecord(m.next, os), m.next + RoundSize(os))
  {
    EchoReturnsWhatWasSent(f, hook, sync, m, os);
    var a, b := SentRecords(m.next, Present(os)), ReceivedRecords(m.next + |Present(os)|, Messages(Written(os)));
    Assoc(m.store, a, b);
  }

  /** A list sent on a connected socket: its blocks wait to be handed back. */
  function Sending<S>(l: Link<S>, os: seq<Option<Outgoing>>): Echoing<S> {
    Echoing(l.(mgr := SendList(l.mgr, os)), WireBlocks(l.mgr, os))
  }

  /** The same, block by block, as the socket hands the blocks back. */
  lemma {:induction false} EchoSettles<S(!new)>(
    f: Frame, hook: Hook, sync: Filter<S> -> bool, m: Mgr<S>, os: seq<Option<Outgoing>>)
    requires Sound(f) && PrefixStable(f) && Silent(hook)
    requires Undoes(sync) && AllSynced(sync, m.filters)
    requires Readable(f, os)
    ensures var e := Sending(Link(m, [], []), os);
            var r := HandOvers(f, hook, true, true, e, |e.pending|);
            && r.pending == [] && r.link.mgr.out == e.link.mgr.out
            && Settled(sync, r.link, m.store + RoundRecord(m.next, os), m.next + RoundSize(os))
  {
    OneRound(f, hook, sync, m, os);
    SilentHandOvers(f, hook, true, true, Sending(Link(m, [], []), os));
  }

  ghost predicate AllReadable(f: Frame, rounds: seq<seq<Option<Outgoing>>>) {
    rounds == [] || (Readable(f, rounds[0]) && AllReadable(f, rounds[1..]))
  }

  /** The store after some rounds. */
  function StoreAfter(store: seq<Stored>, next: nat, rounds: seq<seq<Option<Outgoing>>>): seq<Stored>
    decreases |rounds|
  {
    if rounds == [] then store
    else StoreAfter(store + RoundRecord(next, rounds[0]), next + RoundSize(rounds[0]), rounds[1..])
  }

  lemma {:induction false} StoreAfterRounds(store: seq<Stored>, next: nat, rounds: seq<seq<Option<Outgoing>>>)
    ensures StoreAfter(store, next, rounds) == store + RoundRecords(next, rounds)
    decreases |rounds|
  {
    if rounds == [] {
      NoneRight(store);
    } else {
      var a, mid := RoundRecord(next, rounds[0]), next + RoundSize(rounds[0]);
      StoreAfterRounds(store + a, mid, rounds[1..]);
      Assoc(store, a, RoundRecords(mid, rounds[1..]));
    }
  }

  lemma {:induction false} RoundsSettled<S(!new)>(
    f: Frame, hook: Hook, sync: Filter<S> -> bool, l: Link<S>, store: seq<Stored>, next: nat,
    rounds: seq<seq<Option<Outgoing>>>)
    requires Sound(f) && PrefixStable(f) && Silent(hook)
    requires Undoes(sync) && Settled(sync, l, store, next) && AllReadable(f, rounds)
    ensures Settled(sync, EchoRounds(f, hook, l, rounds), StoreAfter(store, next, rounds),
                    next + RoundsSize(rounds))
    decreases |rounds|
  {
    if rounds != [] {
      RoundSettled(f, hook, sync, l, store, next, rounds[0]);
      RoundsSettled(f, hook, sync, EchoRound(f, hook, l, rounds[0]), store + RoundRecord(next, rounds[0]),
                    next + RoundSize(rounds[0]), rounds[1..]);
    }
  }

  lemma {:induction false} RoundSettled<S(!new)>(
    f: Frame, hook: Hook, sync: Filter<S> -> bool, l: Link<S>, store: seq<Stored>, next: nat,
    os: seq<Option<Outgoing>>)
    requires Sound(f) && PrefixStable(f) && Silent(hook)
    requires Undoes(sync) && Settled(sync, l, store, next) && Readable(f, os)
    ensures Settled(sync, EchoRound(f, hook, l, os), store + RoundRecord(next, os), next + RoundSize(os))
  {
    assert l == Link(l.mgr, [], []);
    OneRound(f, hook, sync, l.mgr, os);
  }

  /** Loopback over any number of rounds. */
  lemma {:induction false} EchoEveryRound<S(!new)>(
    f: Frame, hook: Hook, sync: Filter<S> -> bool, m: Mgr<S>, rounds: seq<seq<Option<Outgoing>>>)
    requires Sound(f) && PrefixStable(f) && Silent(hook)
    requires Undoes(sync) && AllSynced(sync, m.filters)
    requires AllReadable(f, rounds)
    ensures Settled(sync, EchoRounds(f, hook, Link(m, [], []), rounds),
                    m.store + RoundRecords(m.next, rounds), m.next + RoundsSize(rounds))
  {
    RoundsSettled(f, hook, sync, Link(m, [], []), m.store, m.next, rounds);
    StoreAfterRounds(m.store, m.next, rounds);
  }
}
