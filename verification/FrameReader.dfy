/** Reassembly of frames from a byte stream (lib/include/cc_tools_qt/ToolsFrameBase.h). */
module FrameReader {
  import opened Bytes
  import opened Seqs

  /** What the protocol frame answers for the unread bytes. */
  datatype ReadStatus =
    | NotEnoughData
    | MsgAllocFailure
    | Failure
    | Success(len: nat, id: int, idx: nat)
  {
    /** The two answers that end the read loop. */
    predicate Waits() { NotEnoughData? || MsgAllocFailure? }
  }

  /** The protocol frame and the message factory, both supplied by a protocol plugin. */
  datatype Frame = Frame(read: Data -> ReadStatus, known: (int, nat) -> bool)

  /** A successful read consumes at least one byte and no more than there are. */
  ghost predicate Sound(f: Frame) {
    forall s: Data {:trigger f.read(s)} :: s != [] && f.read(s).Success? ==> 0 < f.read(s).len <= |s|
  }

  /** More bytes behind a definite answer do not change it. */
  ghost predicate PrefixStable(f: Frame) {
    forall s: Data, t: Data {:trigger f.read(s + t)} ::
      s != [] && f.read(s) != NotEnoughData ==> f.read(s + t) == f.read(s)
  }

  /** An emitted message and its raw bytes. */
  datatype Msg = Decoded(raw: Data, id: int, idx: nat) | Invalid(raw: Data)

  const GARBAGE_LIMIT: nat := 512

  /** The garbage collected so far, as an invalid message. */
  function Flush(garbage: Data): seq<Msg> {
    if garbage == [] then [] else [Invalid(garbage)]
  }

  /** The message of a frame; a frame the factory does not know becomes an invalid message. */
  function Emit(f: Frame, raw: Data, id: int, idx: nat): Msg {
    if f.known(id, idx) then Decoded(raw, id, idx) else Invalid(raw)
  }

  /** Emitted messages, unread bytes, pending garbage. */
  datatype Drained = Drained(msgs: seq<Msg>, rest: Data, garbage: Data) {
    function Behind(front: seq<Msg>): Drained {
      Drained(front + msgs, rest, garbage)
    }
  }

  /** Read frames from `inData` until it waits for more bytes. */
  function Drain(f: Frame, inData: Data, garbage: Data): Drained
    requires Sound(f)
    decreases |inData|
  {
    if inData == [] then Drained([], [], garbage)
    else
      match f.read(inData)
      case NotEnoughData => Drained([], inData, garbage)
      case MsgAllocFailure => Drained([], inData, garbage)
      case Failure =>
        var g := garbage + [inData[0]];
        if GARBAGE_LIMIT <= |g| then Drain(f, inData[1..], []).Behind([Invalid(g)])
        else Drain(f, inData[1..], g)
      case Success(len, id, idx) =>
        Drain(f, inData[len..], []).Behind(Flush(garbage) + [Emit(f, inData[..len], id, idx)])
  }

  /** One call of `readData`: append, drain, and on the final call turn what is unread into
      garbage and flush it. */
  function Read(f: Frame, inData: Data, garbage: Data, data: Data, final: bool): Drained
    requires Sound(f)
  {
    var d := Drain(f, inData + data, garbage);
    if final && d.rest != [] then Drained(d.msgs + Flush(d.garbage + d.rest), [], [])
    else d
  }

  /** One call from outside: the bytes and the `final` flag. */
  datatype Call = Call(data: Data, final: bool)

  /** A sequence of calls. */
  function ReadAll(f: Frame, inData: Data, garbage: Data, calls: seq<Call>): Drained
    requires Sound(f)
    decreases |calls|
  {
    if calls == [] then Drained([], inData, garbage)
    else
      var d := Read(f, inData, garbage, calls[0].data, calls[0].final);
      ReadAll(f, d.rest, d.garbage, calls[1..]).Behind(d.msgs)
  }

  /** All the bytes a sequence of calls brings. */
  function Fed(calls: seq<Call>): Data {
    if calls == [] then [] else calls[0].data + Fed(calls[1..])
  }

  // ---------------------------------------------------------------------------
  // Chunking

  /** Feeding `a` then `b` is feeding `a + b`, from any buffers. */
  lemma {:induction false} ChunkIndependence(f: Frame, a: Data, b: Data, garbage: Data)
    requires Sound(f) && PrefixStable(f)
    ensures var d := Drain(f, a, garbage);
            Drain(f, a + b, garbage) == Drain(f, d.rest + b, d.garbage).Behind(d.msgs)
    decreases |a|
  {
    if a == [] {
      assert a + b == b;
      NothingInFront(Drain(f, b, garbage));
    } else if f.read(a).Waits() {
      NothingInFront(Drain(f, a + b, garbage));
    } else if f.read(a).Failure? {
      assert f.read(a + b) == f.read(a);
      var g := garbage + [a[0]];
      assert (a + b)[1..] == a[1..] + b && (a + b)[0] == a[0];
      var g' := if GARBAGE_LIMIT <= |g| then [] else g;
      ChunkIndependence(f, a[1..], b, g');
      var d := Drain(f, a[1..], g');
      BehindTwice(Drain(f, d.rest + b, d.garbage), [Invalid(g)], d.msgs);
    } else {
      assert f.read(a + b) == f.read(a);
      var len := f.read(a).len;
      assert (a + b)[len..] == a[len..] + b && (a + b)[..len] == a[..len];
      ChunkIndependence(f, a[len..], b, []);
      var d := Drain(f, a[len..], []);
      BehindTwice(Drain(f, d.rest + b, d.garbage),
                  Flush(garbage) + [Emit(f, a[..len], f.read(a).id, f.read(a).idx)], d.msgs);
    }
  }

  lemma {:induction false} NothingInFront(d: Drained)
    ensures d.Behind([]) == d
  {
    NoneLeft(d.msgs);
  }

  lemma {:induction false} BehindTwice(d: Drained, a: seq<Msg>, b: seq<Msg>)
    ensures d.Behind(b).Behind(a) == d.Behind(a + b)
  {
    Assoc(a, b, d.msgs);
  }

  /** Any non-empty sequence of non-final calls emits the messages, and leaves the buffers, of one
      call with all the bytes. */
  lemma {:induction false} AnyChunking(f: Frame, inData: Data, garbage: Data, calls: seq<Call>)
    requires Sound(f) && PrefixStable(f)
    requires calls != [] && forall k :: 0 <= k < |calls| ==> !calls[k].final
    ensures ReadAll(f, inData, garbage, calls) == Drain(f, inData + Fed(calls), garbage)
    decreases |calls|
  {
    var c, rest := calls[0].data, calls[1..];
    var d := Drain(f, inData + c, garbage);
    assert !calls[0].final;
    assert ReadAll(f, inData, garbage, calls) == ReadAll(f, d.rest, d.garbage, rest).Behind(d.msgs);
    assert inData + c + Fed(rest) == inData + Fed(calls);
    if rest == [] {
      assert inData + c + [] == inData + c;
      NoneRight(d.msgs);
    } else {
      AnyChunking(f, d.rest, d.garbage, rest);
      ChunkIndependence(f, inData + c, Fed(rest), garbage);
    }
  }

  /** Two sequences of calls, one after the other. */
  lemma {:induction false} ReadAllConcat(f: Frame, inData: Data, garbage: Data, a: seq<Call>, b: seq<Call>)
    requires Sound(f)
    ensures var d := ReadAll(f, inData, garbage, a);
            ReadAll(f, inData, garbage, a + b) == ReadAll(f, d.rest, d.garbage, b).Behind(d.msgs)
    decreases |a|
  {
    if a == [] {
      assert a + b == b;
      NothingInFront(ReadAll(f, inData, garbage, b));
    } else {
      assert (a + b)[1..] == a[1..] + b;
      var c := Read(f, inData, garbage, a[0].data, a[0].final);
      ReadAllConcat(f, c.rest, c.garbage, a[1..], b);
      var d := ReadAll(f, c.rest, c.garbage, a[1..]);
      BehindTwice(ReadAll(f, d.rest, d.garbage, b), c.msgs, d.msgs);
    }
  }

  // ---------------------------------------------------------------------------
  // Conservation and bounds

  /** The raw bytes of a list of messages. */
  function RawBytes(msgs: seq<Msg>): Data {
    if msgs == [] then [] else msgs[0].raw + RawBytes(msgs[1..])
  }

  lemma {:induction false} RawConcat(a: seq<Msg>, b: seq<Msg>)
    ensures RawBytes(a + b) == RawBytes(a) + RawBytes(b)
  {
    var ab := a + b;
    if a == [] {
      assert ab == b;
    } else {
      assert ab[0] == a[0] && ab[1..] == a[1..] + b;
      RawConcat(a[1..], b);
      Assoc(a[0].raw, RawBytes(a[1..]), RawBytes(b));
    }
  }

  lemma {:induction false} RawOne(m: Msg)
    ensures RawBytes([m]) == m.raw
  {
    assert [m][1..] == [];
    NoneRight(m.raw);
  }

  /** All the bytes a drained reader accounts for, in stream order. */
  function Stream(d: Drained): Data {
    RawBytes(d.msgs) + d.garbage + d.rest
  }

  lemma {:induction false} DrainConserves(f: Frame, inData: Data, garbage: Data)
    requires Sound(f)
    ensures Stream(Drain(f, inData, garbage)) == garbage + inData
    decreases |inData|
  {
    if inData != [] && f.read(inData).Failure? {
      var g := garbage + [inData[0]];
      assert g + inData[1..] == garbage + inData;
      DrainConserves(f, inData[1..], if GARBAGE_LIMIT <= |g| then [] else g);
      if GARBAGE_LIMIT <= |g| {
        FullConserves(Drain(f, inData[1..], []), g, inData[1..]);
      }
    } else if inData != [] && f.read(inData).Success? {
      var len := f.read(inData).len;
      DrainConserves(f, inData[len..], []);
      FrameConserves(f, Drain(f, inData[len..], []), garbage, inData[..len], inData[len..],
                     f.read(inData).id, f.read(inData).idx);
      assert inData[..len] + inData[len..] == inData;
    }
  }

  lemma {:induction false} FullConserves(d: Drained, g: Data, rest: Data)
    requires Stream(d) == [] + rest
    ensures Stream(d.Behind([Invalid(g)])) == g + rest
  {
    RawOne(Invalid(g));
    BehindConserves(d, [Invalid(g)]);
    NoneLeft(rest);
  }

  lemma {:induction false} FrameConserves(
    f: Frame, d: Drained, garbage: Data, raw: Data, rest: Data, id: int, idx: nat)
    requires Stream(d) == [] + rest
    ensures Stream(d.Behind(Flush(garbage) + [Emit(f, raw, id, idx)])) == garbage + (raw + rest)
  {
    FlushAndEmit(f, garbage, raw, id, idx);
    BehindConserves(d, Flush(garbage) + [Emit(f, raw, id, idx)]);
    NoneLeft(rest);
    Assoc(garbage, raw, rest);
  }

  lemma {:induction false} FlushAndEmit(f: Frame, garbage: Data, raw: Data, id: int, idx: nat)
    ensures RawBytes(Flush(garbage) + [Emit(f, raw, id, idx)]) == garbage + raw
  {
    var m := Emit(f, raw, id, idx);
    RawOne(m);
    if garbage != [] {
      RawOne(Invalid(garbage));
    }
    RawConcat(Flush(garbage), [m]);
  }

  lemma {:induction false} BehindConserves(d: Drained, front: seq<Msg>)
    ensures Stream(d.Behind(front)) == RawBytes(front) + Stream(d)
  {
    RawConcat(front, d.msgs);
  }

  /** No byte is lost, duplicated or reordered by any call, final or not. */
  lemma {:induction false} ReadConserves(f: Frame, inData: Data, garbage: Data, data: Data, final: bool)
    requires Sound(f)
    ensures Stream(Read(f, inData, garbage, data, final)) == garbage + inData + data
  {
    var d := Drain(f, inData + data, garbage);
    assert Stream(d) == garbage + inData + data by {
      DrainConserves(f, inData + data, garbage);
      Assoc(garbage, inData, data);
    }
    if final && d.rest != [] {
      FlushConserves(d);
    }
  }

  lemma {:induction false} FlushConserves(d: Drained)
    requires d.rest != []
    ensures Stream(Drained(d.msgs + Flush(d.garbage + d.rest), [], [])) == Stream(d)
  {
    RawOne(Invalid(d.garbage + d.rest));
    RawConcat(d.msgs, Flush(d.garbage + d.rest));
    assert RawBytes(d.msgs) + (d.garbage + d.rest) + [] + [] == RawBytes(d.msgs) + d.garbage + d.rest;
  }

  /** Over any sequence of calls: the raw bytes of everything emitted, then the pending garbage,
      then the unread bytes, are the bytes buffered at first and all the bytes ever fed. */
  lemma {:induction false} RunConserves(f: Frame, inData: Data, garbage: Data, calls: seq<Call>)
    requires Sound(f)
    ensures Stream(ReadAll(f, inData, garbage, calls)) == garbage + inData + Fed(calls)
    decreases |calls|
  {
    if calls != [] {
      var c, later := calls[0], Fed(calls[1..]);
      var d := Read(f, inData, garbage, c.data, c.final);
      var e := ReadAll(f, d.rest, d.garbage, calls[1..]);
      RunConserves(f, d.rest, d.garbage, calls[1..]);
      assert Stream(e.Behind(d.msgs)) == garbage + inData + c.data + later by {
        StreamGoesOn(d, e, later);
        ReadConserves(f, inData, garbage, c.data, c.final);
      }
      Assoc(garbage + inData, c.data, later);
    }
  }

  lemma {:induction false} StreamGoesOn(d: Drained, e: Drained, more: Data)
    requires Stream(e) == d.garbage + d.rest + more
    ensures Stream(e.Behind(d.msgs)) == Stream(d) + more
  {
    BehindConserves(e, d.msgs);
    assert RawBytes(d.msgs) + (d.garbage + d.rest + more) == Stream(d) + more;
  }

  /** Between calls the garbage stays below the limit, and what is unread after a non-final call
      is nothing or a frame the reader is waiting to complete. */
  lemma {:induction false} DrainBounds(f: Frame, inData: Data, garbage: Data)
    requires Sound(f) && |garbage| < GARBAGE_LIMIT
    ensures var d := Drain(f, inData, garbage);
            && |d.garbage| < GARBAGE_LIMIT
            && (d.rest == [] || f.read(d.rest).Waits())
    decreases |inData|
  {
    if inData == [] || f.read(inData).Waits() {
    } else if f.read(inData).Failure? {
      var g := garbage + [inData[0]];
      DrainBounds(f, inData[1..], if GARBAGE_LIMIT <= |g| then [] else g);
    } else {
      DrainBounds(f, inData[f.read(inData).len..], []);
    }
  }

  lemma {:induction false} RunBounds(f: Frame, calls: seq<Call>, inData: Data, garbage: Data)
    requires Sound(f) && |garbage| < GARBAGE_LIMIT && (inData == [] || f.read(inData).Waits())
    ensures var d := ReadAll(f, inData, garbage, calls);
            && |d.garbage| < GARBAGE_LIMIT
            && (d.rest == [] || f.read(d.rest).Waits())
    decreases |calls|
  {
    if calls != [] {
      DrainBounds(f, inData + calls[0].data, garbage);
      var d := Read(f, inData, garbage, calls[0].data, calls[0].final);
      RunBounds(f, calls[1..], d.rest, d.garbage);
    }
  }

  /** The final flush looks only at the unread bytes: it leaves nothing behind exactly when there
      are some, or when draining left no garbage anyway. */
  lemma {:induction false} FinalLeavesNothingIff(f: Frame, inData: Data, garbage: Data, data: Data)
    requires Sound(f)
    ensures var before := Read(f, inData, garbage, data, false);
            var after := Read(f, inData, garbage, data, true);
            && after.rest == []
            && (after.garbage == [] <==> before.rest != [] || before.garbage == [])
  {
  }

  /** A final call emits what the same call would emit otherwise, and then what is left unread, with
      the garbage in front of it, as one invalid message. */
  lemma {:induction false} FinalFlushes(f: Frame, inData: Data, garbage: Data, data: Data)
    requires Sound(f)
    ensures var before := Read(f, inData, garbage, data, false);
            var after := Read(f, inData, garbage, data, true);
            if before.rest == [] then after == before
            else after.msgs == before.msgs + [Invalid(before.garbage + before.rest)]
                 && after.rest == [] && after.garbage == []
  {
  }

  /** While the frame cannot tell, or has no message to give out, everything stays unread. */
  lemma {:induction false} WaitingKeeps(f: Frame, inData: Data, garbage: Data, data: Data)
    requires Sound(f)
    requires inData + data == [] || f.read(inData + data) == NotEnoughData || f.read(inData + data) == MsgAllocFailure
    ensures Read(f, inData, garbage, data, false) == Drained([], inData + data, garbage)
  {
  }

  // ---------------------------------------------------------------------------
  // What counts as a message

  /** A decoded message is one that the frame read at the front of some stream, with this id and
      index, and that the factory knows. */
  ghost predicate Recognised(f: Frame, m: Msg) {
    m.Decoded? ==>
      && m.raw != [] && f.known(m.id, m.idx)
      && exists t: Data {:trigger f.read(m.raw + t)} :: f.read(m.raw + t) == Success(|m.raw|, m.id, m.idx)
  }

  ghost predicate AllRecognised(f: Frame, ms: seq<Msg>) {
    forall k :: 0 <= k < |ms| ==> Recognised(f, ms[k])
  }

  lemma {:induction false} RecognisedConcat(f: Frame, a: seq<Msg>, b: seq<Msg>)
    requires AllRecognised(f, a) && AllRecognised(f, b)
    ensures AllRecognised(f, a + b)
  {
  }

  lemma {:induction false} DrainRecognised(f: Frame, inData: Data, garbage: Data)
    requires Sound(f)
    ensures AllRecognised(f, Drain(f, inData, garbage).msgs)
    decreases |inData|
  {
    if inData != [] && !f.read(inData).Waits() {
      var s := f.read(inData);
      if s.Failure? {
        var g := garbage + [inData[0]];
        if GARBAGE_LIMIT <= |g| {
          DrainRecognised(f, inData[1..], []);
          RecognisedConcat(f, [Invalid(g)], Drain(f, inData[1..], []).msgs);
        } else {
          DrainRecognised(f, inData[1..], g);
        }
      } else {
        var raw := inData[..s.len];
        assert inData == raw + inData[s.len..];
        DrainRecognised(f, inData[s.len..], []);
        RecognisedConcat(f, Flush(garbage), [Emit(f, raw, s.id, s.idx)]);
        RecognisedConcat(f, Flush(garbage) + [Emit(f, raw, s.id, s.idx)], Drain(f, inData[s.len..], []).msgs);
      }
    }
  }

  /** Over any calls, nothing is passed off as a message that the frame did not read. */
  lemma {:induction false} RunRecognised(f: Frame, inData: Data, garbage: Data, calls: seq<Call>)
    requires Sound(f)
    ensures AllRecognised(f, ReadAll(f, inData, garbage, calls).msgs)
    decreases |calls|
  {
    if calls != [] {
      var c := calls[0];
      var d := Read(f, inData, garbage, c.data, c.final);
      DrainRecognised(f, inData + c.data, garbage);
      RunRecognised(f, d.rest, d.garbage, calls[1..]);
      RecognisedConcat(f, d.msgs, ReadAll(f, d.rest, d.garbage, calls[1..]).msgs);
    }
  }

  lemma {:induction false} FedConcat(a: seq<Call>, b: seq<Call>)
    ensures Fed(a + b) == Fed(a) + Fed(b)
  {
    if a == [] {
      assert a + b == b;
    } else {
      assert (a + b)[1..] == a[1..] + b;
      FedConcat(a[1..], b);
      Assoc(a[0].data, Fed(a[1..]), Fed(b));
    }
  }

  /** Calls ended by a final one: everything that was ever fed has been emitted if and only if the
      last bytes left some unread, or left no garbage. */
  lemma {:induction false} FinalEmitsAllIff(f: Frame, calls: seq<Call>, data: Data)
    requires Sound(f)
    ensures var d := ReadAll(f, [], [], calls);
            var before := Read(f, d.rest, d.garbage, data, false);
            RawBytes(ReadAll(f, [], [], calls + [Call(data, true)]).msgs) == Fed(calls) + data
            <==> before.rest != [] || before.garbage == []
  {
    var last := [Call(data, true)];
    var d, whole := ReadAll(f, [], [], calls), ReadAll(f, [], [], calls + last);
    var after := Read(f, d.rest, d.garbage, data, true);
    FinalLeavesNothingIff(f, d.rest, d.garbage, data);
    assert whole.rest == [] && whole.garbage == after.garbage by {
      ReadAllConcat(f, [], [], calls, last);
      assert last[1..] == [];
    }
    assert RawBytes(whole.msgs) + whole.garbage == Fed(calls) + data by {
      RunConserves(f, [], [], calls + last);
      FedConcat(calls, last);
      assert Fed(last) == data by {
        assert last[1..] == [] && data + [] == data;
      }
      assert [] + [] + (Fed(calls) + data) == Fed(calls) + data;
      assert Stream(whole) == RawBytes(whole.msgs) + whole.garbage;
    }
    if whole.garbage == [] {
      NoneRight(RawBytes(whole.msgs));
    } else {
      assert |RawBytes(whole.msgs)| < |Fed(calls) + data|;
    }
  }

  /** A frame with a sync octet in front and one octet behind it. */
  function TwoOctetFrame(sync: byte): Frame {
    Frame(
      (s: Data) => if s == [] then NotEnoughData
                   else if s[0] != sync then Failure
                   else if |s| < 2 then NotEnoughData
                   else Success(2, 0, 0),
      (id: int, idx: nat) => true)
  }

  /** Its reader rejects any other octet by itself; in a final call such an octet is neither
      emitted nor forgotten. */
  lemma {:induction false} FinalKeepsGarbage(sync: byte, b: byte)
    requires b != sync
    ensures var f := TwoOctetFrame(sync);
            Sound(f) && PrefixStable(f) && Read(f, [], [], [b], true) == Drained([], [], [b])
  {
    var f := TwoOctetFrame(sync);
    assert Sound(f);
    assert [] + [b] == [b] && [b][1..] == [];
    assert Drain(f, [], [b]) == Drained([], [], [b]);
  }

  /** The reader rejects no octet that stands alone. */
  ghost predicate RejectsNoneAlone(f: Frame) {
    forall b: byte {:trigger f.read([b])} :: !f.read([b]).Failure?
  }

  /** Such a reader holds garbage only together with unread bytes. */
  lemma {:induction false} DrainHoldsBoth(f: Frame, inData: Data, garbage: Data)
    requires Sound(f) && RejectsNoneAlone(f) && (inData == [] ==> garbage == [])
    ensures var d := Drain(f, inData, garbage); d.rest == [] ==> d.garbage == []
    decreases |inData|
  {
    if |inData| == 1 {
      assert inData == [inData[0]];
    }
    if inData != [] && !f.read(inData).Waits() {
      if f.read(inData).Failure? {
        var g := garbage + [inData[0]];
        DrainHoldsBoth(f, inData[1..], if GARBAGE_LIMIT <= |g| then [] else g);
      } else {
        DrainHoldsBoth(f, inData[f.read(inData).len..], []);
      }
    }
  }

  lemma {:induction false} RunHoldsBoth(f: Frame, inData: Data, garbage: Data, calls: seq<Call>)
    requires Sound(f) && RejectsNoneAlone(f) && (inData == [] ==> garbage == [])
    ensures var d := ReadAll(f, inData, garbage, calls); d.rest == [] ==> d.garbage == []
    decreases |calls|
  {
    if calls != [] {
      var c := calls[0];
      if inData + c.data != [] || garbage == [] {
        DrainHoldsBoth(f, inData + c.data, garbage);
      }
      var d := Read(f, inData, garbage, c.data, c.final);
      RunHoldsBoth(f, d.rest, d.garbage, calls[1..]);
    }
  }

  /** Calls ended by a final one have emitted everything. */
  ghost predicate EmitsAll(f: Frame, calls: seq<Call>, data: Data)
    requires Sound(f)
  {
    RawBytes(ReadAll(f, [], [], calls + [Call(data, true)]).msgs) == Fed(calls) + data
  }

  lemma {:induction false} FinalEmitsAll(f: Frame, calls: seq<Call>, data: Data)
    requires Sound(f) && RejectsNoneAlone(f)
    ensures EmitsAll(f, calls, data)
  {
    var d := ReadAll(f, [], [], calls);
    RunHoldsBoth(f, [], [], calls);
    DrainHoldsBoth(f, d.rest + data, d.garbage);
    FinalEmitsAllIff(f, calls, data);
  }

  /** Final calls always emit everything if and only if the frame rejects no octet that stands
      alone. */
  lemma {:induction false} AlwaysEmitsAllIff(f: Frame)
    requires Sound(f)
    ensures (forall calls: seq<Call>, data: Data :: EmitsAll(f, calls, data)) <==> RejectsNoneAlone(f)
  {
    if RejectsNoneAlone(f) {
      forall calls: seq<Call>, data: Data ensures EmitsAll(f, calls, data) {
        FinalEmitsAll(f, calls, data);
      }
    }
    if b: byte :| f.read([b]).Failure? {
      FinalEmitsAllIff(f, [], [b]);
      assert [] + [b] == [b] && [b][1..] == [];
      assert Drain(f, [], [b]) == Drained([], [], [b]);
      assert Read(f, [], [], [b], false) == Drained([], [], [b]);
      assert !EmitsAll(f, [], [b]);
    }
  }

  // ---------------------------------------------------------------------------
  // Resynchronisation

  /** Cut a run of garbage into messages of the limit, the last one shorter. */
  function Cut(g: Data): seq<Msg>
    decreases |g|
  {
    if g == [] then []
    else if |g| <= GARBAGE_LIMIT then [Invalid(g)]
    else [Invalid(g[..GARBAGE_LIMIT])] + Cut(g[GARBAGE_LIMIT..])
  }

  /** Cut gives ceil(|g| / 512) invalid messages, all full but possibly the last, that join up to
      the garbage. */
  lemma {:induction false} CutIsCeil(g: Data)
    ensures |Cut(g)| == (|g| + GARBAGE_LIMIT - 1) / GARBAGE_LIMIT
    ensures RawBytes(Cut(g)) == g
    ensures forall k :: 0 <= k < |Cut(g)| ==>
              Cut(g)[k].Invalid? && 0 < |Cut(g)[k].raw| <= GARBAGE_LIMIT
    ensures forall k :: 0 <= k < |Cut(g)| - 1 ==> |Cut(g)[k].raw| == GARBAGE_LIMIT
    decreases |g|
  {
    if g == [] {
    } else if |g| <= GARBAGE_LIMIT {
      RawOne(Invalid(g));
    } else {
      var rest := g[GARBAGE_LIMIT..];
      CutIsCeil(rest);
      assert Cut(g)[1..] == Cut(rest);
      assert g[..GARBAGE_LIMIT] + rest == g;
    }
  }

  /** The reader rejects at every offset of `g` when `tail` follows it. */
  ghost predicate RejectsAll(f: Frame, g: Data, tail: Data) {
    forall k :: 0 <= k < |g| ==> f.read(g[k..] + tail).Failure?
  }

  /** After garbage the reader finds the next frame again: with `pending` already collected, it
      emits the garbage cut to the limit and then the frame, and goes on behind it. */
  lemma {:induction false} Resynchronises(f: Frame, pending: Data, g: Data, tail: Data)
    requires Sound(f) && |pending| < GARBAGE_LIMIT
    requires tail != [] && f.read(tail).Success?
    requires RejectsAll(f, g, tail)
    ensures var s := f.read(tail);
            Drain(f, g + tail, pending)
            == Drain(f, tail[s.len..], []).Behind(Cut(pending + g) + [Emit(f, tail[..s.len], s.id, s.idx)])
    decreases |g|
  {
    var s := f.read(tail);
    var m := Emit(f, tail[..s.len], s.id, s.idx);
    if g == [] {
      assert g + tail == tail && pending + g == pending;
      assert Flush(pending) == Cut(pending);
    } else {
      RejectsRest(f, g, tail);
      var p := pending + [g[0]];
      assert p + g[1..] == pending + g;
      if GARBAGE_LIMIT <= |p| {
        assert Drain(f, g[1..] + tail, []) == Drain(f, tail[s.len..], []).Behind(Cut(g[1..]) + [m]) by {
          Resynchronises(f, [], g[1..], tail);
          NoneLeft(g[1..]);
        }
        CutBehind(Drain(f, tail[s.len..], []), p, g[1..], m);
      } else {
        Resynchronises(f, p, g[1..], tail);
      }
    }
  }

  /** Rejected octets are held back while there are fewer than 512 of them; the 512th lets them all
      out in one invalid message. */
  lemma {:induction false} GarbageLimit(f: Frame, pending: Data, g: Data)
    requires Sound(f) && |pending| < 512 && |pending| + |g| <= 512
    requires forall k :: 0 <= k < |g| ==> f.read(g[k..]).Failure?
    ensures Drain(f, g, pending)
         == if |pending| + |g| < 512 then Drained([], [], pending + g) else Drained([Invalid(pending + g)], [], [])
    decreases |g|
  {
    if g == [] {
      assert pending + g == pending;
    } else {
      var p := pending + [g[0]];
      assert g[0..] == g && p + g[1..] == pending + g;
      if |p| < 512 {
        assert forall k :: 0 <= k < |g[1..]| ==> g[1..][k..] == g[k + 1..];
        GarbageLimit(f, p, g[1..]);
      } else {
        assert g[1..] == [] && p == pending + g;
        assert [Invalid(p)] + [] == [Invalid(p)];
      }
    }
  }

  lemma {:induction false} CutBehind(d: Drained, p: Data, g: Data, m: Msg)
    requires |p| == GARBAGE_LIMIT
    ensures d.Behind(Cut(g) + [m]).Behind([Invalid(p)]) == d.Behind(Cut(p + g) + [m])
  {
    CutFull(p, g);
    BehindTwice(d, [Invalid(p)], Cut(g) + [m]);
    Assoc([Invalid(p)], Cut(g), [m]);
  }

  lemma {:induction false} RejectsRest(f: Frame, g: Data, tail: Data)
    requires g != [] && RejectsAll(f, g, tail)
    ensures f.read(g + tail).Failure? && RejectsAll(f, g[1..], tail)
    ensures (g + tail)[1..] == g[1..] + tail && (g + tail)[0] == g[0]
  {
    assert g[0..] == g;
    forall k | 0 <= k < |g[1..]| ensures f.read(g[1..][k..] + tail).Failure? {
      assert g[1..][k..] == g[k + 1..];
    }
  }

  lemma {:induction false} CutFull(p: Data, g: Data)
    requires |p| == GARBAGE_LIMIT
    ensures Cut(p + g) == [Invalid(p)] + Cut(g)
  {
    if g == [] {
      assert p + g == p;
    } else {
      assert (p + g)[..GARBAGE_LIMIT] == p && (p + g)[GARBAGE_LIMIT..] == g;
    }
  }

  // ---------------------------------------------------------------------------
  // Reading back what was written

  /** The reader takes `raw` off the front of any stream as the message `m`. */
  ghost predicate Accepts(f: Frame, raw: Data, m: Msg) {
    && raw != []
    && m.Decoded? && m.raw == raw && f.known(m.id, m.idx)
    && forall t: Data {:trigger f.read(raw + t)} :: f.read(raw + t) == Success(|raw|, m.id, m.idx)
  }

  /** A stream of accepted frames, read from empty buffers, gives back exactly its messages and
      leaves nothing behind. */
  lemma {:induction false} ReadsBack(f: Frame, frames: seq<Data>, msgs: seq<Msg>)
    requires Sound(f) && |frames| == |msgs|
    requires forall k :: 0 <= k < |frames| ==> Accepts(f, frames[k], msgs[k])
    ensures Drain(f, Flatten(frames), []) == Drained(msgs, [], [])
    decreases |frames|
  {
    if frames != [] {
      var raw, t := frames[0], Flatten(frames[1..]);
      assert Accepts(f, raw, msgs[0]);
      assert f.read(raw + t) == Success(|raw|, msgs[0].id, msgs[0].idx);
      assert (raw + t)[|raw|..] == t && (raw + t)[..|raw|] == raw;
      ReadsBack(f, frames[1..], msgs[1..]);
      assert [] + [msgs[0]] + msgs[1..] == msgs;
    }
  }

  // ---------------------------------------------------------------------------
  // The object

  /** The reading half of the frame object, with its two buffers. */
  class ToolsFrame {
    const frame: Frame
    var inData: Data
    var garbage: Data

    constructor (frame: Frame)
      ensures this.frame == frame && inData == [] && garbage == []
    {
      this.frame := frame;
      inData, garbage := [], [];
    }

    method ReadData(data: Data, final: bool) returns (allMsgs: seq<Msg>)
      requires Sound(frame)
      modifies this
      ensures var d := Read(frame, old(inData), old(garbage), data, final);
              allMsgs == d.msgs && inData == d.rest && garbage == d.garbage
    {
      inData := inData + data;
      allMsgs := [];
      var consumed: nat := 0;
      ghost var whole := Drain(frame, inData, garbage);
      while consumed < |inData|
        invariant consumed <= |inData| && inData == old(inData) + data
        invariant Drain(frame, inData[consumed..], garbage).Behind(allMsgs) == whole
      {
        var unread := inData[consumed..];
        var es := frame.read(unread);
        if es.Waits() {
          break;
        }
        if es.Failure? {
          allMsgs := Skip(unread, allMsgs);
          consumed := consumed + 1;
          assert inData[consumed..] == unread[1..];
          continue;
        }
        allMsgs := Take(unread, es, allMsgs);
        consumed := consumed + es.len;
        assert inData[consumed..] == unread[es.len..];
      }
      inData := inData[consumed..];
      assert Drained(allMsgs, inData, garbage) == whole;
      if final && inData != [] {
        garbage := garbage + inData;
        inData := [];
        allMsgs := CheckGarbage(allMsgs);
      }
    }

    /** A rejected byte: into the garbage, which is emitted when it reaches the limit. */
    method Skip(unread: Data, soFar: seq<Msg>) returns (allMsgs: seq<Msg>)
      requires Sound(frame) && unread != [] && frame.read(unread).Failure?
      modifies this`garbage
      ensures Drain(frame, unread[1..], garbage).Behind(allMsgs)
           == Drain(frame, unread, old(garbage)).Behind(soFar)
    {
      allMsgs := soFar;
      garbage := garbage + [unread[0]];
      if GARBAGE_LIMIT <= |garbage| {
        BehindTwice(Drain(frame, unread[1..], []), soFar, [Invalid(garbage)]);
        allMsgs := CheckGarbage(allMsgs);
      }
    }

    /** A frame: emit the garbage before it, then its message. */
    method Take(unread: Data, es: ReadStatus, soFar: seq<Msg>) returns (allMsgs: seq<Msg>)
      requires Sound(frame) && unread != [] && es == frame.read(unread) && es.Success?
      modifies this`garbage
      ensures Drain(frame, unread[es.len..], garbage).Behind(allMsgs)
           == Drain(frame, unread, old(garbage)).Behind(soFar)
    {
      var raw := unread[..es.len];
      ghost var front := Flush(garbage) + [Emit(frame, raw, es.id, es.idx)];
      BehindTwice(Drain(frame, unread[es.len..], []), soFar, front);
      allMsgs := CheckGarbage(soFar);
      if !frame.known(es.id, es.idx) {
        garbage := garbage + raw;
        assert garbage == raw;
        allMsgs := CheckGarbage(allMsgs);
      } else {
        allMsgs := allMsgs + [Decoded(raw, es.id, es.idx)];
      }
      assert allMsgs == soFar + front;
    }

    /** Turn pending garbage, if any, into an invalid message. */
    method CheckGarbage(soFar: seq<Msg>) returns (allMsgs: seq<Msg>)
      modifies this`garbage
      ensures allMsgs == soFar + Flush(old(garbage)) && garbage == []
    {
      allMsgs := soFar;
      if garbage == [] {
        return;
      }
      allMsgs := allMsgs + [Invalid(garbage)];
      garbage := [];
    }
  }
}
