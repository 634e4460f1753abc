/** The loopback with everything concrete: messages of the demo protocol, sent through any number
    of masking filters to an echo socket. */
module DemoEcho {
  import opened Wrappers
  import opened Bytes
  import opened FrameReader
  import opened DemoFrame
  import opened MaskFilter
  import opened MsgStore
  import opened Loopback
  import opened Generations
  import opened EchoAnswers

  datatype DemoMsg = DemoMsg(id: byte, version: byte, payload: Data)

  predicate Fits(m: DemoMsg) {
    m.id as nat < NUM_OF_IDS && |m.payload| + OVERHEAD < 0x1_0000
  }

  predicate AllFit(ms: seq<DemoMsg>) {
    forall k :: 0 <= k < |ms| ==> Fits(ms[k])
  }

  /** The message as the demo protocol writes it. */
  function Encoded(m: DemoMsg): MsgStore.Outgoing
    requires Fits(m)
  {
    var raw := WriteDemo(m.id, m.version, m.payload);
    MsgStore.Outgoing(Decoded(raw, m.id as int, 0), Some(raw))
  }

  function AllEncoded(ms: seq<DemoMsg>): (r: seq<Option<MsgStore.Outgoing>>)
    requires AllFit(ms)
    ensures |r| == |ms| && forall k :: 0 <= k < |r| ==> r[k] == Some(Encoded(ms[k]))
  {
    seq(|ms|, k requires 0 <= k < |ms| => Some(Encoded(ms[k])))
  }

  lemma {:induction false} DemoReadable(ms: seq<DemoMsg>)
    requires AllFit(ms)
    ensures Readable(Demo(), AllEncoded(ms))
  {
    forall k | 0 <= k < |ms|
      ensures Accepts(Demo(), Encoded(ms[k]).wire.value, Encoded(ms[k]).msg)
    {
      DemoAcceptsWritten(ms[k].id, ms[k].version, ms[k].payload);
    }
  }

  lemma {:induction false} AllPresent(os: seq<Option<MsgStore.Outgoing>>)
    requires forall k :: 0 <= k < |os| ==> os[k].Some? && os[k].value.wire.Some?
    ensures |Present(os)| == |Written(os)| == |os|
  {
    if os != [] {
      AllPresent(os[1..]);
    }
  }

  /** Whatever demo messages are sent, through whatever masks, all come back in order. */
  lemma {:induction false} DemoEchoes(m: Mgr<byte>, ms: seq<DemoMsg>)
    requires AllFit(ms)
    requires forall k :: 0 <= k < |m.filters| ==> m.filters[k] == Masker(m.filters[k].state)
    ensures Sound(Demo())
    ensures var os := AllEncoded(ms);
            var l := DeliverAll(Demo(), (msg: Msg) => [], Link(SendList(m, os), [], []), WireBlocks(m, os));
            && l.mgr.store == m.store + RoundRecord(m.next, os)
            && l.mgr.next == m.next + 2 * |ms|
            && l.inData == [] && l.garbage == []
  {
    var os, hook := AllEncoded(ms), (msg: Msg) => [];
    var sync := MaskersUndo();
    DemoMeetsAssumptions();
    DemoReadable(ms);
    AllPresent(os);
    assert forall k :: 0 <= k < |m.filters| ==> sync(Masker(m.filters[k].state));
    assert Silent(hook);
    OneRound(Demo(), hook, sync, m, os);
  }

  lemma {:induction false} EncodedMessages(ms: seq<DemoMsg>, os: seq<Option<MsgStore.Outgoing>>)
    requires AllFit(ms) && |os| == |ms| && forall k :: 0 <= k < |os| ==> os[k] == Some(Encoded(ms[k]))
    ensures var r := Messages(Written(os));
            |r| == |ms| && forall k :: 0 <= k < |r| ==> r[k] == Encoded(ms[k]).msg
  {
    if ms != [] {
      EncodedMessages(ms[1..], os[1..]);
      assert Written(os) == [os[0].value] + Written(os[1..]);
      assert Messages(Written(os)) == [os[0].value.msg] + Messages(Written(os[1..]));
    }
  }

  /** Every answer has a larger id than what it answers. */
  ghost predicate AnswersUpwards(hook: Hook, reply: Msg -> seq<DemoMsg>) {
    forall m: Msg {:trigger hook(m)} :: AnswerUpwards(m, hook(m), reply(m))
  }

  ghost predicate AnswerUpwards(m: Msg, os: seq<Option<MsgStore.Outgoing>>, ms: seq<DemoMsg>) {
    && AllFit(ms) && os == AllEncoded(ms)
    && (m.Decoded? ==> forall k :: 0 <= k < |ms| ==> m.id < ms[k].id as int)
  }

  /** How many answers can still follow. */
  function Rank(m: Msg): nat {
    if m.Invalid? || m.id < 0 then NUM_OF_IDS + 1
    else if NUM_OF_IDS <= m.id then 0
    else NUM_OF_IDS - m.id
  }

  lemma {:induction false} UpwardsRanked(hook: Hook, reply: Msg -> seq<DemoMsg>)
    requires AnswersUpwards(hook, reply)
    ensures Ranked(hook, Rank)
  {
    forall m: Msg {:trigger Rank(m)} ensures RankedBelow(Messages(Written(hook(m))), Rank, Rank(m)) {
      assert AnswerUpwards(m, hook(m), reply(m));
      EncodedMessages(reply(m), hook(m));
    }
  }

  /** A demo protocol that answers only with larger ids: sent through whatever masks, the exchange
      with its own echo comes to an end. */
  lemma {:induction false} DemoAnswersEnd(
    m: Mgr<byte>, ms: seq<DemoMsg>, hook: Hook, reply: Msg -> seq<DemoMsg>)
    requires AllFit(ms) && AnswersUpwards(hook, reply)
    requires forall k :: 0 <= k < |m.filters| ==> m.filters[k] == Masker(m.filters[k].state)
    ensures Sound(Demo())
    ensures Ends(Demo(), hook, true, true, Sending(Link(m, [], []), AllEncoded(ms)))
  {
    var os := AllEncoded(ms);
    var sent := Messages(Written(os));
    var c := MaskersReturn();
    assert forall k :: 0 <= k < |m.filters| ==> c(Masker(m.filters[k].state), [], []);
    DemoMeetsAssumptions();
    DemoReadable(ms);
    assert Understood(Demo(), hook, sent) by {
      forall x: Msg {:trigger hook(x)} ensures Readable(Demo(), hook(x)) {
        assert AnswerUpwards(x, hook(x), reply(x));
        DemoReadable(reply(x));
      }
      AlwaysUnderstood(Demo(), hook, sent);
    }
    UpwardsRanked(hook, reply);
    RankedDiesOut(sent, hook, Rank, NUM_OF_IDS + 2);
    SentEndsIff(Demo(), hook, c, m, os);
  }
}
