/** A protocol that answers what it hears, in front of an echo socket
    (plugin/echo_socket/EchoSocket.cpp): the exchange comes to an end exactly when the generations
    of its replies die out, and what it has heard by then is those generations in order. */
module EchoAnswers {
  import opened Wrappers
  import opened Bytes
  import opened FrameReader
  import opened FilterChain
  import opened InFlight
  import opened MsgStore
  import opened Loopback
  import opened Generations
  import opened Seqs

  /** Each of these messages, written, is read as itself. */
  ghost predicate Known(f: Frame, ms: seq<Msg>) {
    forall k :: 0 <= k < |ms| ==> Accepts(f, ms[k].raw, ms[k])
  }

  /** Whatever is written in reaction to these messages is read as what it is. */
  ghost predicate Answers(f: Frame, hook: Hook, ms: seq<Msg>) {
    forall k :: 0 <= k < |ms| ==> Readable(f, hook(ms[k]))
  }

  /** And in reaction to those, and so on. */
  ghost predicate Understood(f: Frame, hook: Hook, ms: seq<Msg>) {
    forall d: nat :: Answers(f, hook, Generation(ms, hook, d))
  }

  /** It is enough that the protocol never writes what it cannot read. */
  lemma {:induction false} AlwaysUnderstood(f: Frame, hook: Hook, ms: seq<Msg>)
    requires forall m: Msg {:trigger hook(m)} :: Readable(f, hook(m))
    ensures Understood(f, hook, ms)
  {
  }

  lemma {:induction false} UnderstoodOn(f: Frame, hook: Hook, a: seq<Msg>, b: seq<Msg>)
    requires Understood(f, hook, a + b)
    ensures Answers(f, hook, a) && Understood(f, hook, b + Replies(a, hook))
  {
    assert Generation(a + b, hook, 0) == a + b;
    assert Answers(f, hook, a) by {
      AnswersParts(f, hook, a, b);
    }
    forall d: nat ensures Answers(f, hook, Generation(b + Replies(a, hook), hook, d)) {
      GenerationConcat(a, b, hook, d);
      GenerationConcat(a, b, hook, d + 1);
      GenerationOn(a, b, hook, d);
      AnswersParts(f, hook, Generation(a, hook, d), Generation(b, hook, d));
      AnswersParts(f, hook, Generation(a, hook, d + 1), Generation(b, hook, d + 1));
    }
  }

  lemma {:induction false} AnswersParts(f: Frame, hook: Hook, a: seq<Msg>, b: seq<Msg>)
    requires Answers(f, hook, a + b)
    ensures Answers(f, hook, a) && Answers(f, hook, b)
  {
    forall k | 0 <= k < |a| ensures Readable(f, hook(a[k])) {
      assert (a + b)[k] == a[k];
    }
    forall k | 0 <= k < |b| ensures Readable(f, hook(b[k])) {
      assert (a + b)[|a| + k] == b[k];
    }
  }

  lemma {:induction false} KnownConcat(f: Frame, a: seq<Msg>, b: seq<Msg>)
    requires Known(f, a) && Known(f, b)
    ensures Known(f, a + b)
  {
  }

  /** What is written of a list are the octets of its messages. */
  lemma {:induction false} WrittenKnown(f: Frame, os: seq<Option<Outgoing>>)
    requires Readable(f, os)
    ensures Known(f, Messages(Written(os)))
    ensures Flatten(Wires(os)) == RawBytes(Messages(Written(os)))
  {
    if os != [] {
      WrittenKnown(f, os[1..]);
      if os[0].Some? && os[0].value.wire.Some? {
        var o := os[0].value;
        assert Accepts(f, o.wire.value, o.msg);
        assert Messages(Written(os)) == [o.msg] + Messages(Written(os[1..]));
        assert Wires(os)[0] == o.wire.value && Wires(os)[1..] == Wires(os[1..]);
        KnownConcat(f, [o.msg], Messages(Written(os[1..])));
      } else {
        NoneLeft(Written(os[1..]));
        NoneLeft(Wires(os[1..]));
      }
    }
  }

  lemma {:induction false} RepliesKnown(f: Frame, hook: Hook, ms: seq<Msg>)
    requires Answers(f, hook, ms)
    ensures Known(f, Replies(ms, hook))
  {
    if ms != [] {
      assert Readable(f, hook(ms[0]));
      WrittenKnown(f, hook(ms[0]));
      RepliesKnown(f, hook, ms[1..]);
      KnownConcat(f, Messages(Written(hook(ms[0]))), Replies(ms[1..], hook));
    }
  }

  // ---------------------------------------------------------------------------
  // Reading part of a stream

  /** The unread octets begin the first of these messages, and do not complete it; with none to
      come there are none. */
  ghost predicate Begins(inData: Data, ms: seq<Msg>) {
    if ms == [] then inData == [] else |inData| < |ms[0].raw|
  }

  /** Waiting for the rest of a message, the reader emits nothing. */
  lemma {:induction false} WaitsForRest(f: Frame, ms: seq<Msg>, p: Data, t: Data)
    requires Sound(f) && PrefixStable(f) && Known(f, ms)
    requires p + t == RawBytes(ms) && Begins(p, ms)
    ensures Drain(f, p, []) == Drained([], p, [])
  {
    if p != [] {
      var raw := ms[0].raw;
      var more := raw[|p|..];
      CutTwice(raw, RawBytes(ms[1..]), p, t);
      NoneRight(raw);
      assert f.read(raw + []) == Success(|raw|, ms[0].id, ms[0].idx);
      assert f.read(p + more).Success? && f.read(p + more).len == |raw|;
      assert f.read(p) == NotEnoughData;
    }
  }

  /** Any part of the stream of known messages is read as the messages it completes. */
  lemma {:induction false} ReadsPart(f: Frame, ms: seq<Msg>, p: Data, t: Data) returns (j: nat)
    requires Sound(f) && PrefixStable(f) && Known(f, ms) && p + t == RawBytes(ms)
    ensures j <= |ms|
    ensures var d := Drain(f, p, []);
            && d.msgs == ms[..j] && d.garbage == []
            && d.rest + t == RawBytes(ms[j..]) && Begins(d.rest, ms[j..])
    decreases |ms|
  {
    if ms == [] || |p| < |ms[0].raw| {
      WaitsForRest(f, ms, p, t);
      j := 0;
    } else {
      var raw := ms[0].raw;
      var q := p[|raw|..];
      CutTwice(p, t, raw, RawBytes(ms[1..]));
      assert Drain(f, p, []) == Drain(f, q, []).Behind([ms[0]]) by {
        ReadsFirst(f, ms[0], q);
      }
      var i := ReadsPart(f, ms[1..], q, t);
      j := i + 1;
      assert ms[1..][i..] == ms[j..] && [ms[0]] + ms[1..][..i] == ms[..j];
    }
  }

  lemma {:induction false} ReadsFirst(f: Frame, m: Msg, q: Data)
    requires Sound(f) && Accepts(f, m.raw, m)
    ensures Drain(f, m.raw + q, []) == Drain(f, q, []).Behind([m])
  {
    assert f.read(m.raw + q) == Success(|m.raw|, m.id, m.idx);
    assert (m.raw + q)[|m.raw|..] == q && (m.raw + q)[..|m.raw|] == m.raw;
    NoneLeft([m]);
  }

  /** The same for a list of blocks, with the beginning of a message unread. */
  lemma {:induction false} ReadsBlocks(
    f: Frame, ms: seq<Msg>, inData: Data, blocks: seq<Data>, t: Data) returns (j: nat)
    requires Sound(f) && PrefixStable(f) && Known(f, ms)
    requires inData + (Flatten(blocks) + t) == RawBytes(ms) && Begins(inData, ms)
    ensures j <= |ms|
    ensures var d := ReadAll(f, inData, [], Calls(blocks));
            && d.msgs == ms[..j] && d.garbage == []
            && d.rest + t == RawBytes(ms[j..]) && Begins(d.rest, ms[j..])
  {
    if blocks == [] {
      NoneLeft(t);
      j := 0;
    } else {
      Assoc(inData, Flatten(blocks), t);
      j := ReadsPart(f, ms, inData + Flatten(blocks), t);
      AnyChunking(f, inData, [], Calls(blocks));
      FedIsFlatten(blocks);
    }
  }

  // ---------------------------------------------------------------------------
  // Reacting while data is under way

  /** The messages the store holds as received. */
  function Heard(store: seq<Stored>): seq<Msg> {
    if store == [] then []
    else (if store[0].kind == Received then [store[0].msg] else []) + Heard(store[1..])
  }

  lemma {:induction false} HeardConcat(a: seq<Stored>, b: seq<Stored>)
    ensures Heard(a + b) == Heard(a) + Heard(b)
  {
    if a == [] {
      NoneLeft(b);
      NoneLeft(Heard(b));
    } else {
      assert (a + b)[1..] == a[1..] + b;
      HeardConcat(a[1..], b);
      Assoc(if a[0].kind == Received then [a[0].msg] else [], Heard(a[1..]), Heard(b));
    }
  }

  lemma {:induction false} SentNotHeard(next: nat, os: seq<Outgoing>)
    ensures Heard(SentRecords(next, os)) == []
    decreases |os|
  {
    if os != [] {
      SentNotHeard(next + 1, os[1..]);
    }
  }

  lemma {:induction false} ReactionsNotHeard(next: nat, msgs: seq<Msg>, hook: Hook)
    ensures Heard(Reactions(next, msgs, hook)) == []
    decreases |msgs|
  {
    if msgs != [] {
      var sent := Present(hook(msgs[0]));
      SentNotHeard(next + 1, sent);
      ReactionsNotHeard(next + 1 + |sent|, msgs[1..], hook);
      HeardConcat(SentRecords(next + 1, sent), Reactions(next + 1 + |sent|, msgs[1..], hook));
    }
  }

  lemma {:induction false} ReceiptsHeard(next: nat, msgs: seq<Msg>, hook: Hook)
    ensures Heard(Receipts(next, msgs, hook)) == msgs
    decreases |msgs|
  {
    if msgs != [] {
      ReceiptsHeard(next + 1 + |Present(hook(msgs[0]))|, msgs[1..], hook);
    }
  }

  lemma {:induction false} ReceivedHeard<S>(m: Mgr<S>, msgs: seq<Msg>, hook: Hook)
    ensures Heard(Receive(m, msgs, hook).store) == Heard(m.store) + msgs
  {
    var rs, own := Reactions(m.next, msgs, hook), Receipts(m.next, msgs, hook);
    ReceiveRecords(m, msgs, hook);
    HeardConcat(m.store + rs, own);
    HeardConcat(m.store, rs);
    ReactionsNotHeard(m.next, msgs, hook);
    ReceiptsHeard(m.next, msgs, hook);
    NoneRight(Heard(m.store));
  }

  /** The octets put out since. */
  function Added<S>(before: Mgr<S>, after: Mgr<S>): Data
    requires before.out <= after.out
  {
    Flatten(after.out[|before.out|..])
  }

  lemma {:induction false} AddedTwice<S>(a: Mgr<S>, b: Mgr<S>, c: Mgr<S>)
    requires a.out <= b.out <= c.out
    ensures Added(a, c) == Added(a, b) + Added(b, c)
  {
    assert c.out[|a.out|..] == b.out[|a.out|..] + c.out[|b.out|..];
    FlattenConcat(b.out[|a.out|..], c.out[|b.out|..]);
  }

  /** A list sent while data is under way goes behind it. */
  lemma {:induction false} SendsListBehind<S(!new)>(
    f: Frame, c: Carries<S>, m: Mgr<S>, os: seq<Option<Outgoing>>, low: Data, high: Data)
    requires SendsBehind(c) && Carried(c, m.filters, low, high) && Readable(f, os)
    ensures var r := SendList(m, os);
            && m.out <= r.out
            && Carried(c, r.filters, low + Added(m, r), high + RawBytes(Messages(Written(os))))
  {
    SendListIsOnePass(m, os);
    ChainSendsBehind(c, m.filters, low, high, Wires(os));
    WrittenKnown(f, os);
    var p := SendChain(m.filters, Wires(os));
    assert SendList(m, os).out[|m.out|..] == p.out;
  }

  /** So do the reactions to a list of received messages. */
  lemma {:induction false} ReactsBehind<S(!new)>(
    f: Frame, c: Carries<S>, m: Mgr<S>, msgs: seq<Msg>, hook: Hook, low: Data, high: Data)
    requires SendsBehind(c) && Carried(c, m.filters, low, high) && Answers(f, hook, msgs)
    ensures var r := ReceiveEach(m, msgs, hook).0;
            && m.out <= r.out
            && Carried(c, r.filters, low + Added(m, r), high + RawBytes(Replies(msgs, hook)))
    decreases |msgs|
  {
    if msgs == [] {
      NoneRight(low);
      NoneRight(high);
    } else {
      var m1, own := AfterFirst(m, msgs[0], hook), Messages(Written(hook(msgs[0])));
      assert Readable(f, hook(msgs[0]));
      assert m.out <= m1.out && Carried(c, m1.filters, low + Added(m, m1), high + RawBytes(own)) by {
        SendsListBehind(f, c, m.(next := m.next + 1), hook(msgs[0]), low, high);
      }
      ReactsBehind(f, c, m1, msgs[1..], hook, low + Added(m, m1), high + RawBytes(own));
      var r := ReceiveEach(m1, msgs[1..], hook).0;
      BothOn(m, m1, r, own, Replies(msgs[1..], hook), low, high);
    }
  }

  lemma {:induction false} BothOn<S>(
    a: Mgr<S>, b: Mgr<S>, c: Mgr<S>, own: seq<Msg>, later: seq<Msg>, low: Data, high: Data)
    requires a.out <= b.out <= c.out
    ensures low + Added(a, b) + Added(b, c) == low + Added(a, c)
    ensures high + RawBytes(own) + RawBytes(later) == high + RawBytes(own + later)
  {
    AddedTwice(a, b, c);
    Assoc(low, Added(a, b), Added(b, c));
    RawConcat(own, later);
    Assoc(high, RawBytes(own), RawBytes(later));
  }

  /** Without filters every written message is a block of its own. */
  lemma {:induction false} PlainBlocks<S>(m: Mgr<S>, msgs: seq<Msg>, hook: Hook)
    requires m.filters == []
    ensures var r := ReceiveEach(m, msgs, hook).0;
            r.filters == [] && |r.out| == |m.out| + |Replies(msgs, hook)|
    decreases |msgs|
  {
    if msgs != [] {
      var os := hook(msgs[0]);
      SendListIsOnePass(m.(next := m.next + 1), os);
      WiresCount(os);
      PlainBlocks(AfterFirst(m, msgs[0], hook), msgs[1..], hook);
    }
  }

  lemma {:induction false} WiresCount(os: seq<Option<Outgoing>>)
    ensures |Wires(os)| == |Written(os)|
  {
    if os != [] {
      WiresCount(os[1..]);
    }
  }

  // ---------------------------------------------------------------------------
  // Block by block

  /** The octets `high` are still to come up the chain; with the unread ones in front they are the
      octets of the messages still to be heard. */
  ghost predicate Awaits<S>(f: Frame, l: Link<S>, ms: seq<Msg>, high: Data) {
    && l.garbage == [] && Known(f, ms)
    && l.inData + high == RawBytes(ms) && Begins(l.inData, ms)
  }

  /** The waiting blocks carry what is still to come of these messages. */
  ghost predicate UnderWay<S(!new)>(f: Frame, c: Carries<S>, e: Echoing<S>, ms: seq<Msg>, high: Data) {
    Carried(c, e.link.mgr.filters, Flatten(e.pending), high) && Awaits(f, e.link, ms, high)
  }

  /** One more block has been handed over: some messages were heard, their replies wait. */
  ghost predicate OneOn<S>(e: Echoing<S>, h: Echoing<S>, heard: seq<Msg>, hook: Hook) {
    && e.pending != [] && e.link.mgr.out <= h.link.mgr.out
    && h.pending == e.pending[1..] + h.link.mgr.out[|e.link.mgr.out|..]
    && (heard == [] ==> h.link.mgr.out == e.link.mgr.out)
    && Heard(h.link.mgr.store) == Heard(e.link.mgr.store) + heard
    && (e.link.mgr.filters == []
        ==> h.link.mgr.filters == [] && |h.link.mgr.out| == |e.link.mgr.out| + |Replies(heard, hook)|)
  }

  /** The front of the stream, one block of it, up to the reader. */
  lemma {:induction false} BlockRead<S(!new)>(
    f: Frame, c: Carries<S>, e: Echoing<S>, ms: seq<Msg>, high: Data) returns (j: nat, later: Data)
    requires Sound(f) && PrefixStable(f) && Returns(c)
    requires e.pending != [] && UnderWay(f, c, e, ms, high)
    ensures j <= |ms|
    ensures var p := RecvChain(e.link.mgr.filters, [e.pending[0]]);
            var d := ReadAll(f, e.link.inData, [], Calls(p.out));
            && Carried(c, p.filters, Flatten(e.pending[1..]), later)
            && d.msgs == ms[..j] && d.garbage == []
            && d.rest + later == RawBytes(ms[j..]) && Begins(d.rest, ms[j..])
  {
    var block, rest := e.pending[0], e.pending[1..];
    assert Flatten([block]) + Flatten(rest) == Flatten(e.pending) by {
      assert [block][1..] == [];
      NoneRight(block);
    }
    later := ChainReceivesInFront(c, e.link.mgr.filters, Flatten(rest), high, [block]);
    var p := RecvChain(e.link.mgr.filters, [block]);
    j := ReadsBlocks(f, ms, e.link.inData, p.out, later);
  }

  /** One block: messages from the front are heard, their replies go behind. */
  lemma {:induction false} OneBlock<S(!new)>(
    f: Frame, hook: Hook, c: Carries<S>, e: Echoing<S>, ms: seq<Msg>, high: Data) returns (j: nat, later: Data)
    requires Sound(f) && PrefixStable(f) && Returns(c) && Understood(f, hook, ms)
    requires e.pending != [] && UnderWay(f, c, e, ms, high)
    ensures j <= |ms|
    ensures var h := HandOver(f, hook, true, true, e);
            OneOn(e, h, ms[..j], hook) && UnderWay(f, c, h, ms[j..] + Replies(ms[..j], hook), later)
    ensures Understood(f, hook, ms[j..] + Replies(ms[..j], hook))
  {
    var rest: Data;
    j, rest := BlockRead(f, c, e, ms, high);
    var heard, ahead := ms[..j], ms[j..];
    var replies := Replies(heard, hook);
    assert heard + ahead == ms;
    UnderstoodOn(f, hook, heard, ahead);
    later := rest + RawBytes(replies);
    var p := RecvChain(e.link.mgr.filters, [e.pending[0]]);
    var m := e.link.mgr.(filters := p.filters);
    BlockReacted(f, hook, c, m, heard, e.pending[1..], rest);
    var l := Deliver(f, hook, e.link, e.pending[0]);
    assert Awaits(f, l, ahead + replies, later) by {
      RepliesKnown(f, hook, heard);
      KnownConcat(f, ahead, replies);
      RawConcat(ahead, replies);
      Assoc(l.inData, rest, RawBytes(replies));
      BeginsStill(l.inData, ahead, replies);
    }
  }

  /** The same with names for what was heard, what is still ahead, and the state that follows. */
  lemma {:induction false} NextBlock<S(!new)>(
    f: Frame, hook: Hook, c: Carries<S>, e: Echoing<S>, ms: seq<Msg>, high: Data)
    returns (h: Echoing<S>, heard: seq<Msg>, ahead: seq<Msg>, on: seq<Msg>, later: Data)
    requires Sound(f) && PrefixStable(f) && Returns(c) && Understood(f, hook, ms)
    requires e.pending != [] && UnderWay(f, c, e, ms, high)
    ensures h == HandOver(f, hook, true, true, e) && OneOn(e, h, heard, hook)
    ensures ms == heard + ahead && on == ahead + Replies(heard, hook)
    ensures UnderWay(f, c, h, on, later) && Understood(f, hook, on)
  {
    var j;
    h := HandOver(f, hook, true, true, e);
    j, later := OneBlock(f, hook, c, e, ms, high);
    heard, ahead := ms[..j], ms[j..];
    on := ahead + Replies(heard, hook);
  }

  lemma {:induction false} BlockReacted<S(!new)>(
    f: Frame, hook: Hook, c: Carries<S>, m: Mgr<S>, heard: seq<Msg>, waiting: seq<Data>, high: Data)
    requires Returns(c) && Answers(f, hook, heard) && Carried(c, m.filters, Flatten(waiting), high)
    ensures var r := Receive(m, heard, hook);
            && m.out <= r.out && (heard == [] ==> r.out == m.out)
            && Carried(c, r.filters, Flatten(waiting + r.out[|m.out|..]), high + RawBytes(Replies(heard, hook)))
            && Heard(r.store) == Heard(m.store) + heard
            && (m.filters == [] ==> r.filters == [] && |r.out| == |m.out| + |Replies(heard, hook)|)
  {
    ReactsBehind(f, c, m, heard, hook, Flatten(waiting), high);
    ReceivedHeard(m, heard, hook);
    FlattenConcat(waiting, Receive(m, heard, hook).out[|m.out|..]);
    if m.filters == [] {
      PlainBlocks(m, heard, hook);
    }
  }

  lemma {:induction false} BeginsStill(inData: Data, ahead: seq<Msg>, replies: seq<Msg>)
    requires Begins(inData, ahead)
    requires forall k :: 0 <= k < |replies| ==> replies[k].raw != []
    ensures Begins(inData, ahead + replies)
  {
    if ahead == [] {
      NoneLeft(replies);
    }
  }

  // ---------------------------------------------------------------------------
  // When the exchange ends

  /** With no block waiting nothing is still to be heard. */
  lemma {:induction false} NothingWaits<S(!new)>(
    f: Frame, c: Carries<S>, e: Echoing<S>, ms: seq<Msg>, high: Data)
    requires Returns(c) && UnderWay(f, c, e, ms, high) && e.pending == []
    ensures ms == [] && Idle(c, e)
  {
    ChainLosesNothing(c, e.link.mgr.filters, high);
    NoneRight(e.link.inData);
  }

  /** Nothing is under way, and nothing is left in any buffer. */
  ghost predicate Idle<S(!new)>(c: Carries<S>, e: Echoing<S>) {
    && e.pending == [] && e.link.inData == [] && e.link.garbage == []
    && Carried(c, e.link.mgr.filters, [], [])
  }

  /** The exchange is over after `n` blocks; these messages were heard meanwhile, in this order. */
  ghost predicate Over<S(!new)>(
    c: Carries<S>, hook: Hook, e: Echoing<S>, r: Echoing<S>, n: nat, heard: seq<Msg>)
  {
    && Idle(c, r)
    && Heard(r.link.mgr.store) == Heard(e.link.mgr.store) + heard
    && n + |e.link.mgr.out| == |e.pending| + |r.link.mgr.out|
    && (e.link.mgr.filters == [] ==> |r.link.mgr.out| == |e.link.mgr.out| + |Replies(heard, hook)|)
  }

  lemma {:induction false} OverOneLater<S(!new)>(
    c: Carries<S>, hook: Hook, e: Echoing<S>, h: Echoing<S>, r: Echoing<S>, n: nat,
    first: seq<Msg>, later: seq<Msg>)
    requires OneOn(e, h, first, hook) && Over(c, hook, h, r, n, later)
    ensures Over(c, hook, e, r, n + 1, first + later)
  {
    RepliesConcat(first, later, hook);
    Assoc(Heard(e.link.mgr.store), first, later);
  }

  /** If a generation is empty the exchange ends, and the generations before it are what was heard. */
  lemma {:induction false} EndsWhenDiedOut<S(!new)>(
    f: Frame, hook: Hook, c: Carries<S>, e: Echoing<S>, ms: seq<Msg>, high: Data, d: nat)
    returns (n: nat, r: Echoing<S>)
    requires Sound(f) && PrefixStable(f) && Returns(c) && Understood(f, hook, ms)
    requires UnderWay(f, c, e, ms, high) && Generation(ms, hook, d) == []
    ensures r == HandOvers(f, hook, true, true, e, n)
    ensures Over(c, hook, e, r, n, Ancestry(ms, hook, d))
    decreases |Ancestry(ms, hook, d)|, |e.pending|
  {
    if e.pending == [] {
      n, r := 0, e;
      OverAtOnce(f, hook, c, e, ms, high, d);
    } else {
      var h, heard, on, later := NextDying(f, hook, c, e, ms, high, d);
      n, r := EndsWhenDiedOut(f, hook, c, h, on, later, d);
      OverOneLater(c, hook, e, h, r, n, heard, Ancestry(on, hook, d));
      n := n + 1;
    }
  }

  lemma {:induction false} OverAtOnce<S(!new)>(
    f: Frame, hook: Hook, c: Carries<S>, e: Echoing<S>, ms: seq<Msg>, high: Data, d: nat)
    requires Returns(c) && UnderWay(f, c, e, ms, high) && e.pending == []
    ensures Over(c, hook, e, e, 0, Ancestry(ms, hook, d))
  {
    NothingWaits(f, c, e, ms, high);
    NoneGoOn(hook, d);
    NoneRight(Heard(e.link.mgr.store));
  }

  /** With every block there is less to hear, or as much and one block fewer. */
  lemma {:induction false} NextDying<S(!new)>(
    f: Frame, hook: Hook, c: Carries<S>, e: Echoing<S>, ms: seq<Msg>, high: Data, d: nat)
    returns (h: Echoing<S>, heard: seq<Msg>, on: seq<Msg>, later: Data)
    requires Sound(f) && PrefixStable(f) && Returns(c) && Understood(f, hook, ms)
    requires e.pending != [] && UnderWay(f, c, e, ms, high) && Generation(ms, hook, d) == []
    ensures h == HandOver(f, hook, true, true, e) && OneOn(e, h, heard, hook)
    ensures UnderWay(f, c, h, on, later) && Understood(f, hook, on) && Generation(on, hook, d) == []
    ensures Ancestry(ms, hook, d) == heard + Ancestry(on, hook, d)
    ensures heard == [] ==> |h.pending| < |e.pending|
  {
    var ahead;
    h, heard, ahead, on, later := NextBlock(f, hook, c, e, ms, high);
    DiedOutOn(heard, ahead, hook, d);
    if heard == [] {
      NoneRight(e.pending[1..]);
    }
  }

  lemma {:induction false} DiedOutOn(heard: seq<Msg>, ahead: seq<Msg>, hook: Hook, d: nat)
    requires Generation(heard + ahead, hook, d) == []
    ensures var on := ahead + Replies(heard, hook);
            && Generation(on, hook, d) == []
            && Ancestry(heard + ahead, hook, d) == heard + Ancestry(on, hook, d)
  {
    GenerationConcat(heard, ahead, hook, d);
    GenerationOn(heard, ahead, hook, d);
    GenerationNext(heard, hook, d);
    AncestryOn(heard, ahead, hook, d);
    NoneRight(Ancestry(heard + ahead, hook, d));
  }

  lemma {:induction false} NextOfEnding<S(!new)>(
    f: Frame, hook: Hook, c: Carries<S>, e: Echoing<S>, ms: seq<Msg>, high: Data, n: nat)
    returns (h: Echoing<S>, on: seq<Msg>, later: Data)
    requires Sound(f) && PrefixStable(f) && Returns(c) && Understood(f, hook, ms)
    requires e.pending != [] && UnderWay(f, c, e, ms, high)
    requires HandOvers(f, hook, true, true, e, n).pending == []
    ensures 0 < n && HandOvers(f, hook, true, true, h, n - 1).pending == []
    ensures UnderWay(f, c, h, on, later) && Understood(f, hook, on)
    ensures DiesOut(on, hook) ==> DiesOut(ms, hook)
  {
    var heard, ahead;
    HandOversStep(f, hook, true, true, e, n);
    h, heard, ahead, on, later := NextBlock(f, hook, c, e, ms, high);
    DiesOutOn(heard, ahead, hook);
  }

  /** And if the exchange ends, a generation is empty. */
  lemma {:induction false} DiesOutWhenEnded<S(!new)>(
    f: Frame, hook: Hook, c: Carries<S>, e: Echoing<S>, ms: seq<Msg>, high: Data, n: nat)
    requires Sound(f) && PrefixStable(f) && Returns(c) && Understood(f, hook, ms)
    requires UnderWay(f, c, e, ms, high) && HandOvers(f, hook, true, true, e, n).pending == []
    ensures DiesOut(ms, hook)
    decreases n
  {
    if e.pending == [] {
      NothingWaits(f, c, e, ms, high);
      assert Generation(ms, hook, 0) == [];
    } else {
      var h, on, later := NextOfEnding(f, hook, c, e, ms, high, n);
      DiesOutWhenEnded(f, hook, c, h, on, later, n - 1);
    }
  }

  /** There is a number of blocks after which none waits. */
  ghost predicate Ends<S>(f: Frame, hook: Hook, listening: bool, connected: bool, e: Echoing<S>)
    requires Sound(f)
  {
    exists n: nat :: HandOvers(f, hook, listening, connected, e, n).pending == []
  }

  /** Wherever an exchange stands, it ends if and only if the generations of replies to the messages
      still to be heard die out. */
  lemma {:induction false} ExchangeEndsIff<S(!new)>(
    f: Frame, hook: Hook, c: Carries<S>, e: Echoing<S>, ms: seq<Msg>, high: Data)
    requires Sound(f) && PrefixStable(f) && Returns(c) && Understood(f, hook, ms)
    requires UnderWay(f, c, e, ms, high)
    ensures Ends(f, hook, true, true, e) <==> DiesOut(ms, hook)
  {
    if Ends(f, hook, true, true, e) {
      var n: nat :| HandOvers(f, hook, true, true, e, n).pending == [];
      DiesOutWhenEnded(f, hook, c, e, ms, high, n);
    }
    if d: nat :| Generation(ms, hook, d) == [] {
      var n, r := EndsWhenDiedOut(f, hook, c, e, ms, high, d);
      assert HandOvers(f, hook, true, true, e, n).pending == [];
    }
  }

  /** A list has just been sent with nothing else under way. */
  lemma {:induction false} SendingIsUnderWay<S(!new)>(
    f: Frame, c: Carries<S>, m: Mgr<S>, os: seq<Option<Outgoing>>)
    requires Returns(c) && Readable(f, os)
    requires forall k :: 0 <= k < |m.filters| ==> c(m.filters[k], [], [])
    ensures var ms := Messages(Written(os));
            UnderWay(f, c, Sending(Link(m, [], []), os), ms, RawBytes(ms))
  {
    var ms := Messages(Written(os));
    ChainIdle(c, m.filters);
    SendsListBehind(f, c, m, os, [], []);
    WiresHandedOver(m, os);
    WrittenKnown(f, os);
    NoneLeft(RawBytes(ms));
    NoneLeft(Flatten(WireBlocks(m, os)));
  }

  /** A list sent through a connected, running echo, by whatever protocol and filters: handing the
      blocks back ends if and only if the generations of replies to what was written die out. */
  lemma {:induction false} SentEndsIff<S(!new)>(
    f: Frame, hook: Hook, c: Carries<S>, m: Mgr<S>, os: seq<Option<Outgoing>>)
    requires Sound(f) && PrefixStable(f) && Returns(c)
    requires forall k :: 0 <= k < |m.filters| ==> c(m.filters[k], [], [])
    requires Readable(f, os) && Understood(f, hook, Messages(Written(os)))
    ensures Ends(f, hook, true, true, Sending(Link(m, [], []), os)) <==> DiesOut(Messages(Written(os)), hook)
  {
    var ms := Messages(Written(os));
    SendingIsUnderWay(f, c, m, os);
    ExchangeEndsIff(f, hook, c, Sending(Link(m, [], []), os), ms, RawBytes(ms));
  }

  /** What has been heard when it ends are the generations in order, and the buffers are empty; the
      number of blocks handed back is the number put out, and without filters it is the number of
      messages in all the generations. */
  lemma {:induction false} SentHears<S(!new)>(
    f: Frame, hook: Hook, c: Carries<S>, m: Mgr<S>, os: seq<Option<Outgoing>>, d: nat) returns (n: nat)
    requires Sound(f) && PrefixStable(f) && Returns(c)
    requires forall k :: 0 <= k < |m.filters| ==> c(m.filters[k], [], [])
    requires Readable(f, os) && Understood(f, hook, Messages(Written(os)))
    requires Generation(Messages(Written(os)), hook, d) == []
    ensures var ms := Messages(Written(os));
            var r := HandOvers(f, hook, true, true, Sending(Link(m, [], []), os), n);
            && Idle(c, r)
            && Heard(r.link.mgr.store) == Heard(m.store) + Ancestry(ms, hook, d)
            && n + |m.out| == |r.link.mgr.out|
            && (m.filters == [] ==> n == |Ancestry(ms, hook, d)|)
  {
    var ms, e := Messages(Written(os)), Sending(Link(m, [], []), os);
    SendingIsUnderWay(f, c, m, os);
    var r;
    n, r := EndsWhenDiedOut(f, hook, c, e, ms, RawBytes(ms), d);
    assert Heard(e.link.mgr.store) == Heard(m.store) by {
      SendRecordsAll(m, os);
      SentNotHeard(m.next, Present(os));
      HeardConcat(m.store, SentRecords(m.next, Present(os)));
      NoneRight(Heard(m.store));
    }
    WiresHandedOver(m, os);
    if m.filters == [] {
      SendListIsOnePass(m, os);
      WiresCount(os);
      AncestryReplies(ms, hook, d);
      NoneRight(Ancestry(ms, hook, d));
    }
  }

  /** If nobody listens or the socket is not connected, nothing is put behind the waiting blocks. */
  lemma {:induction false} UnansweredEnds<S>(
    f: Frame, hook: Hook, listening: bool, connected: bool, e: Echoing<S>)
    requires Sound(f) && !(listening && connected)
    ensures HandOvers(f, hook, listening, connected, e, |e.pending|).pending == []
    decreases |e.pending|
  {
    if e.pending != [] {
      NoneRight(e.pending[1..]);
      UnansweredEnds(f, hook, listening, connected, HandOver(f, hook, listening, connected, e));
    }
  }
}
