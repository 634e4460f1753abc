/** The message manager and the echo socket as objects (lib/src/ToolsMsgMgrImpl.cpp,
    lib/src/ToolsSocket.cpp, plugin/echo_socket/EchoSocket.cpp).  Their methods are proved against
    the functions of MsgStore, FilterChain and Loopback. */
module MsgMgr {
  import opened Wrappers
  import opened Bytes
  import opened FrameReader
  import opened FilterChain
  import opened MsgStore
  import opened Loopback
  import opened Seqs

  /** The socket base with the echo plugin's sending: data waits for the timer and then comes back. */
  class EchoSocket {
    var running: bool
    var connected: bool
    var pending: seq<Data>    // m_pendingData
    var timerActive: bool

    /** Between events: whatever is pending has the timer to bring it back. */
    ghost predicate Valid()
      reads this
    {
      pending != [] ==> timerActive
    }

    constructor ()
      ensures Valid() && !running && !connected && pending == []
    {
      running, connected, pending, timerActive := false, false, [], false;
    }

    method Start()
      modifies this`running
      ensures running
    {
      running := true;
    }

    /** Stopping also disconnects.  What is pending stays pending. */
    method Stop()
      modifies this`running, this`connected
      ensures !running && !connected
    {
      if connected {
        SocketDisconnect();
      }
      running := false;
    }

    method SocketConnect()
      modifies this`connected
      ensures connected
    {
      connected := true;
    }

    method SocketDisconnect()
      modifies this`connected
      ensures !connected
    {
      connected := false;
    }

    /** Data is accepted only while connected; the first piece arms the zero timer. */
    method SendData(data: Data)
      modifies this`pending, this`timerActive
      ensures pending == if connected then old(pending) + [data] else old(pending)
      ensures timerActive == (old(timerActive) || connected)
      ensures old(Valid()) ==> Valid()
    {
      if !connected {
        return;
      }
      pending := pending + [data];
      if timerActive {
        return;
      }
      timerActive := true;
    }

    /** The timer fires: hand everything pending to the manager, oldest first; data is dropped
        while the socket is not running.  What the protocol sends meanwhile is handed back in the
        same loop, which comes to an end if there is a number of blocks after which none waits. */
    method SendDataPostponed<S(!new)>(mgr: ToolsMsgMgr<S>, ghost blocks: nat, ghost end: Echoing<S>)
      requires timerActive
      requires mgr.socket == this && mgr.Ready()
      requires end == HandOvers(mgr.FrameNow(), mgr.hook, running && mgr.Listening(), connected, mgr.EchoNow(), blocks)
      requires end.pending == []
      modifies this`pending, this`timerActive
      modifies mgr`allMsgs, mgr`nextMsgNum, mgr`filters, mgr`out, mgr`reported, mgr.frame
      ensures Valid() && mgr.Ready() && mgr.EchoNow() == end && pending == []
      ensures old(mgr.out) <= mgr.out
      ensures timerActive == (connected && mgr.out != old(mgr.out))
    {
      timerActive := false;
      ghost var f, listening, left := mgr.FrameNow(), running && mgr.Listening(), blocks;
      while pending != []
        invariant mgr.Ready() && old(mgr.out) <= mgr.out
        invariant timerActive == (connected && mgr.out != old(mgr.out))
        invariant HandOvers(f, mgr.hook, listening, connected, mgr.EchoNow(), left) == end
        decreases left
      {
        HandNext(mgr, left, end);
        left := left - 1;
      }
    }

    /** One round of that loop, with what is still to come. */
    method HandNext<S(!new)>(mgr: ToolsMsgMgr<S>, ghost left: nat, ghost end: Echoing<S>)
      requires pending != []
      requires mgr.socket == this && mgr.Ready()
      requires end == HandOvers(mgr.FrameNow(), mgr.hook, running && mgr.Listening(), connected, mgr.EchoNow(), left)
      requires end.pending == []
      modifies this`pending, this`timerActive
      modifies mgr`allMsgs, mgr`nextMsgNum, mgr`filters, mgr`out, mgr`reported, mgr.frame
      ensures mgr.Ready() && 0 < left
      ensures end
           == HandOvers(mgr.FrameNow(), mgr.hook, running && mgr.Listening(), connected, mgr.EchoNow(), left - 1)
      ensures old(mgr.out) <= mgr.out
      ensures timerActive == (old(timerActive) || (connected && mgr.out != old(mgr.out)))
    {
      HandOversStep(mgr.FrameNow(), mgr.hook, running && mgr.Listening(), connected, mgr.EchoNow(), left);
      HandBack(mgr);
    }

    method HandBack<S(!new)>(mgr: ToolsMsgMgr<S>)
      requires pending != []
      requires mgr.socket == this && mgr.Ready()
      modifies this`pending, this`timerActive
      modifies mgr`allMsgs, mgr`nextMsgNum, mgr`filters, mgr`out, mgr`reported, mgr.frame
      ensures mgr.Ready()
      ensures mgr.EchoNow()
           == HandOver(mgr.FrameNow(), mgr.hook, running && mgr.Listening(), connected, old(mgr.EchoNow()))
      ensures old(mgr.out) <= mgr.out
      ensures timerActive == (old(timerActive) || (connected && mgr.out != old(mgr.out)))
    {
      var data := pending[0];
      pending := pending[1..];
      if running {
        mgr.SocketDataReceived(data);
      }
      assert pending == old(pending)[1..] + (if connected then PutOut(old(mgr.out), mgr.out) else []);
    }
  }

  class ToolsMsgMgr<S(!new)> {
    var allMsgs: seq<Stored>
    var nextMsgNum: nat
    var recvEnabled: bool
    var socket: EchoSocket?
    var frame: ToolsFrame?        // through m_protocol
    var filters: seq<Filter<S>>
    const hook: Hook              // what the protocol sends when a message is received
    ghost var out: seq<Data>      // every block handed to the socket
    var reported: seq<Stored>     // every call of the message-added callback

    ghost function View(): Mgr<S>
      reads this
    {
      Mgr(allMsgs, nextMsgNum, filters, out, reported)
    }

    /** The socket is set, and the protocol's frame, if there is one, is sound. */
    ghost predicate Ready()
      reads this, frame
    {
      socket != null && (frame != null ==> Sound(frame.frame))
    }

    /** Reception is enabled and there is a protocol to read with. */
    ghost predicate Listening()
      reads this
    {
      recvEnabled && frame != null
    }

    ghost function LinkNow(): Link<S>
      reads this, frame
    {
      if frame == null then Link(View(), [], []) else Link(View(), frame.inData, frame.garbage)
    }

    /** The frame, or one that only ever waits. */
    ghost function FrameNow(): (f: Frame)
      requires Ready()
      reads this, frame
      ensures Sound(f)
    {
      if frame == null then Frame((s: Data) => NotEnoughData, (id: int, idx: nat) => false) else frame.frame
    }

    ghost function EchoNow(): Echoing<S>
      requires socket != null
      reads this, frame, socket
    {
      Echoing(LinkNow(), socket.pending)
    }

    constructor (hook: Hook)
      ensures View() == Mgr([], 1, [], [], []) && socket == null && frame == null && !recvEnabled
      ensures this.hook == hook
    {
      allMsgs, nextMsgNum, recvEnabled, socket, frame, filters := [], 1, false, null, null, [];
      this.hook := hook;
      out, reported := [], [];
    }

    /** Number a message, append it to the store and report it. */
    method Push(kind: Kind, msg: Msg)
      modifies this`allMsgs, this`nextMsgNum, this`reported
      ensures View() == old(View()).Record(kind, msg)
    {
      reported := reported + [Stored(nextMsgNum, kind, msg)];
      allMsgs := allMsgs + [Stored(nextMsgNum, kind, msg)];
      nextMsgNum := nextMsgNum + 1;
    }

    static function Step(f: Filter<S>, block: Data, outgoing: bool): (S, seq<Data>) {
      if outgoing then f.send(f.state, block) else f.recv(f.state, block)
    }

    static ghost function Ran(f: Filter<S>, data: seq<Data>, outgoing: bool): Filtered<S> {
      if outgoing then SendAll(f, data) else RecvAll(f, data)
    }

    static lemma {:induction false} RanStep(f: Filter<S>, data: seq<Data>, i: nat, outgoing: bool, front: seq<Data>)
      requires i < |data|
      ensures var (st, more) := Step(f, data[i], outgoing);
              var now, later := Ran(f, data[i..], outgoing), Ran(f.(state := st), data[i + 1..], outgoing);
              now.filter == later.filter && front + now.out == front + more + later.out
    {
      NextOf(data, i);
    }

    /** Run one filter over a list of blocks. */
    method RunFilter(k: nat, data: seq<Data>, outgoing: bool) returns (result: seq<Data>)
      requires k < |filters|
      modifies this`filters
      ensures var r := Ran(old(filters)[k], data, outgoing);
              filters == old(filters)[k := r.filter] && result == r.out
    {
      result := [];
      ghost var whole := Ran(filters[k], data, outgoing);
      assert data[0..] == data;
      for i := 0 to |data|
        invariant |filters| == |old(filters)| && filters == old(filters)[k := filters[k]]
        invariant whole.filter == Ran(filters[k], data[i..], outgoing).filter
        invariant whole.out == result + Ran(filters[k], data[i..], outgoing).out
      {
        var f := filters[k];
        RanStep(f, data, i, outgoing, result);
        var (st, more) := Step(f, data[i], outgoing);
        filters := filters[k := f.(state := st)];
        result := result + more;
      }
      assert data[|data|..] == [];
    }

    /** Data enters the chain below filter `k`: filters k-1 down to 0, until nothing is left. */
    method SendThrough(k: nat, block: Data) returns (data: seq<Data>)
      requires k <= |filters|
      modifies this`filters
      ensures var p := Inject(old(filters), k, [block]);
              filters == p.filters && data == p.out
    {
      data := [block];
      var i := k;
      ghost var fs := filters;
      assert fs[k..k] == [];
      while i > 0
        invariant Down(fs, filters, i, k, block, data)
      {
        if data == [] {
          break;
        }
        i := i - 1;
        DownStep(fs, filters, i, k, block, data);
        data := RunFilter(i, data, true);
      }
      DownEnd(fs, filters, i, k, block, data);
    }

    /** Filters k-1 down to i have worked on the block: now `fs` has become `gs`. */
    static ghost predicate Down(fs: seq<Filter<S>>, gs: seq<Filter<S>>, i: int, k: nat, block: Data, data: seq<Data>) {
      && 0 <= i <= k <= |fs| == |gs|
      && gs[..i] == fs[..i] && gs[k..] == fs[k..]
      && SendChain(fs[i..k], [block]) == Passed(gs[i..k], data)
    }

    static lemma {:induction false} DownStep(
      fs: seq<Filter<S>>, gs: seq<Filter<S>>, i: nat, k: nat, block: Data, data: seq<Data>)
      requires Down(fs, gs, i + 1, k, block, data)
      ensures var r := SendAll(gs[i], data);
              Down(fs, gs[i := r.filter], i, k, block, r.out)
    {
      var r := SendAll(gs[i], data);
      var hs := gs[i := r.filter];
      assert fs[..i + 1][i] == gs[..i + 1][i];
      assert fs[i..k][1..] == fs[i + 1..k] && fs[i..k][0] == gs[i];
      assert hs[i..k] == [r.filter] + gs[i + 1..k];
      assert hs[..i] == gs[..i + 1][..i] == fs[..i + 1][..i];
    }

    static lemma {:induction false} DownEnd(
      fs: seq<Filter<S>>, gs: seq<Filter<S>>, i: nat, k: nat, block: Data, data: seq<Data>)
      requires Down(fs, gs, i, k, block, data) && (i == 0 || data == [])
      ensures var p := Inject(fs, k, [block]); gs == p.filters && data == p.out
    {
      ChainConcat(fs[..i], fs[i..k], [block]);
      assert fs[..i] + fs[i..k] == fs[..k];
      EmptyStaysEmpty(fs[..i]);
      assert gs == gs[..i] + gs[i..k] + gs[k..];
    }

    ghost function Sockets(): set<EchoSocket>
      reads this
    {
      if socket == null then {} else {socket}
    }

    /** If connected, the socket took the blocks handed to it since `before` behind those that were
        pending, and its timer runs if there were any. */
    ghost predicate SocketTook(before: seq<Data>, pending: seq<Data>, active: bool)
      requires socket != null
      reads this, socket
    {
      && before <= out
      && socket.pending == (if socket.connected then pending + out[|before|..] else pending)
      && socket.timerActive == (active || (socket.connected && before != out))
    }

    /** What was handed over in two portions. */
    static lemma {:induction false} HandedOn(before: seq<Data>, mid: seq<Data>, after: seq<Data>, pending: seq<Data>)
      requires before <= mid <= after
      ensures pending + mid[|before|..] + after[|mid|..] == pending + after[|before|..]
    {
      assert mid[|before|..] + after[|mid|..] == after[|before|..];
      Assoc(pending, mid[|before|..], after[|mid|..]);
    }

    method HandToSocket(data: seq<Data>)
      requires socket != null
      modifies this`out, socket`pending, socket`timerActive
      ensures out == old(out) + data && SocketTook(old(out), old(socket.pending), old(socket.timerActive))
    {
      for i := 0 to |data|
        invariant out == old(out) + data[..i]
        invariant SocketTook(old(out), old(socket.pending), old(socket.timerActive))
      {
        socket.SendData(data[i]);
        out := out + [data[i]];
        NextOf(data, i);
        assert out[|old(out)|..] == data[..i + 1];
      }
    }

    /** Write one message, pass it down, and record it whatever became of it. */
    method SendMsg(o: Outgoing)
      requires socket != null
      modifies this`allMsgs, this`nextMsgNum, this`filters, this`out, this`reported, socket`pending, socket`timerActive
      ensures View() == SendOne(old(View()), o)
      ensures SocketTook(old(out), old(socket.pending), old(socket.timerActive))
    {
      match o.wire {
        case None =>
        case Some(block) =>
          assert filters[..|filters|] == filters && filters[|filters|..] == [];
          var data := SendThrough(|filters|, block);
          HandToSocket(data);
      }
      Push(Sent, o.msg);
    }

    /** Send a list; without a socket or a protocol nothing happens. */
    method SendMsgs(msgs: seq<Option<Outgoing>>)
      modifies this`allMsgs, this`nextMsgNum, this`filters, this`out, this`reported
      modifies Sockets()`pending, Sockets()`timerActive
      ensures View() == if socket == null || frame == null then old(View()) else SendList(old(View()), msgs)
      ensures socket != null ==> SocketTook(old(out), old(socket.pending), old(socket.timerActive))
    {
      if msgs == [] || socket == null || frame == null {
        return;
      }
      SendEach(msgs);
    }

    method SendEach(msgs: seq<Option<Outgoing>>)
      requires socket != null
      modifies this`allMsgs, this`nextMsgNum, this`filters, this`out, this`reported, socket`pending, socket`timerActive
      ensures View() == SendList(old(View()), msgs)
      ensures SocketTook(old(out), old(socket.pending), old(socket.timerActive))
    {
      ghost var before, was, active := out, socket.pending, socket.timerActive;
      for i := 0 to |msgs|
        invariant SocketTook(before, was, active)
        invariant SendList(View(), msgs[i..]) == SendList(old(View()), msgs)
      {
        NextOf(msgs, i);
        if msgs[i] == None {
          continue;
        }
        ghost var mid := out;
        SendMsg(msgs[i].value);
        HandedOn(before, mid, out, was);
      }
      assert msgs[|msgs|..] == [];
    }

    /** A filter has data to send on its own: it goes through the filters below it. */
    method FilterDataToSend(k: nat, block: Data)
      modifies this`filters, this`out, Sockets()`pending, Sockets()`timerActive
      ensures var p := if k < |old(filters)| then Inject(old(filters), k, [block]) else Passed(old(filters), []);
              filters == p.filters && out == old(out) + (if socket == null then [] else p.out)
      ensures socket != null ==> SocketTook(old(out), old(socket.pending), old(socket.timerActive))
    {
      if |filters| <= k {
        return;
      }
      var data := SendThrough(k, block);
      if socket == null {
        return;
      }
      HandToSocket(data);
    }

    /** Data from the socket: up the filters, through the frame, numbered one by one with the
        protocol reacting to each, and into the store at the end. */
    method SocketDataReceived(block: Data)
      requires Ready()
      modifies this`allMsgs, this`nextMsgNum, this`filters, this`out, this`reported
      modifies frame, socket`pending, socket`timerActive
      ensures Ready()
      ensures LinkNow() == if recvEnabled && frame != null then Deliver(frame.frame, hook, old(LinkNow()), block)
                           else old(LinkNow())
      ensures SocketTook(old(out), old(socket.pending), old(socket.timerActive))
    {
      if !recvEnabled || frame == null {
        return;
      }
      var data := PassUp(block);
      var msgsList := ReadBlocks(data);
      StoreReceived(msgsList);
    }

    /** Up the chain, until nothing is left. */
    method PassUp(block: Data) returns (data: seq<Data>)
      modifies this`filters
      ensures var p := RecvChain(old(filters), [block]); filters == p.filters && data == p.out
    {
      data := [block];
      var k := 0;
      ghost var fs := filters;
      while k < |filters|
        invariant Up(fs, filters, k, block, data)
      {
        if data == [] {
          break;
        }
        UpStep(fs, filters, k, block, data);
        data := RunFilter(k, data, false);
        k := k + 1;
      }
      UpEnd(fs, filters, k, block, data);
    }

    /** Filters 0 up to k-1 have worked on the block: now `fs` has become `gs`. */
    static ghost predicate Up(fs: seq<Filter<S>>, gs: seq<Filter<S>>, k: nat, block: Data, data: seq<Data>) {
      && k <= |fs| == |gs|
      && gs[k..] == fs[k..]
      && RecvChain(fs[..k], [block]) == Passed(gs[..k], data)
    }

    static lemma {:induction false} UpStep(
      fs: seq<Filter<S>>, gs: seq<Filter<S>>, k: nat, block: Data, data: seq<Data>)
      requires Up(fs, gs, k, block, data) && k < |fs|
      ensures var r := RecvAll(gs[k], data);
              Up(fs, gs[k := r.filter], k + 1, block, r.out)
    {
      var r := RecvAll(gs[k], data);
      var hs := gs[k := r.filter];
      assert fs[k..][0] == gs[k..][0];
      RecvChainConcat(fs[..k], [fs[k]], [block]);
      assert fs[..k + 1] == fs[..k] + [fs[k]];
      assert RecvChain([fs[k]][1..], r.out) == Passed([], r.out);
      assert hs[..k + 1] == gs[..k] + [r.filter];
      assert hs[k + 1..] == gs[k..][1..] == fs[k..][1..];
    }

    static lemma {:induction false} UpEnd(
      fs: seq<Filter<S>>, gs: seq<Filter<S>>, k: nat, block: Data, data: seq<Data>)
      requires Up(fs, gs, k, block, data) && (k == |fs| || data == [])
      ensures RecvChain(fs, [block]) == Passed(gs, data)
    {
      RecvChainConcat(fs[..k], fs[k..], [block]);
      assert fs[..k] + fs[k..] == fs && gs[..k] + gs[k..] == gs;
      EmptyStaysEmpty(fs[k..]);
    }

    method ReadBlocks(data: seq<Data>) returns (msgsList: seq<Msg>)
      requires Ready() && frame != null
      modifies frame
      ensures Ready()
      ensures var d := ReadAll(frame.frame, old(frame.inData), old(frame.garbage), Calls(data));
              msgsList == d.msgs && frame.inData == d.rest && frame.garbage == d.garbage
    {
      msgsList := [];
      ghost var whole := ReadAll(frame.frame, frame.inData, frame.garbage, Calls(data));
      for i := 0 to |data|
        invariant Ready()
        invariant ReadAll(frame.frame, frame.inData, frame.garbage, Calls(data)[i..]).Behind(msgsList) == whole
      {
        ghost var now := Read(frame.frame, frame.inData, frame.garbage, data[i], false);
        assert Calls(data)[i..][1..] == Calls(data)[i + 1..];
        BehindTwice(ReadAll(frame.frame, now.rest, now.garbage, Calls(data)[i + 1..]), msgsList, now.msgs);
        var msgs := frame.ReadData(data[i], false);
        msgsList := msgsList + msgs;
      }
      assert Calls(data)[|data|..] == [];
    }

    method StoreReceived(msgsList: seq<Msg>)
      requires Ready() && frame != null
      modifies this`allMsgs, this`nextMsgNum, this`filters, this`out, this`reported, socket`pending, socket`timerActive
      ensures Ready()
      ensures View() == Receive(old(View()), msgsList, hook)
      ensures SocketTook(old(out), old(socket.pending), old(socket.timerActive))
    {
      if msgsList == [] {
        return;
      }
      var received: seq<Stored> := [];
      ghost var before, was, active := out, socket.pending, socket.timerActive;
      for i := 0 to |msgsList|
        invariant Ready() && SocketTook(before, was, active)
        invariant ReceiveEach(old(View()), msgsList[..i], hook) == (View(), received)
      {
        NextOf(msgsList, i);
        ReceiveEachOneMore(old(View()), msgsList[..i], msgsList[i], hook);
        received := received + [Stored(nextMsgNum, Received, msgsList[i])];
        ghost var mid := out;
        NumberAndReact(msgsList[i]);
        HandedOn(before, mid, out, was);
      }
      assert msgsList[..|msgsList|] == msgsList;
      allMsgs := allMsgs + received;
    }

    /** Use up a number for a received message, let the protocol react to it, report it. */
    method NumberAndReact(msg: Msg)
      requires Ready() && frame != null
      modifies this`allMsgs, this`nextMsgNum, this`filters, this`out, this`reported, socket`pending, socket`timerActive
      ensures Ready() && View() == AfterFirst(old(View()), msg, hook)
      ensures SocketTook(old(out), old(socket.pending), old(socket.timerActive))
    {
      var one := Stored(nextMsgNum, Received, msg);
      nextMsgNum := nextMsgNum + 1;
      SendMsgs(hook(msg));
      reported := reported + [one];
    }

    /** Take loaded messages in; null entries and entries without a type are skipped. */
    method AddMsgs(msgs: seq<Option<Loaded>>)
      modifies this`allMsgs, this`nextMsgNum, this`reported
      ensures View() == AddList(old(View()), msgs)
    {
      for i := 0 to |msgs|
        invariant AddList(View(), msgs[i..]) == AddList(old(View()), msgs)
      {
        NextOf(msgs, i);
        if !Typed(msgs[i]) {
          continue;
        }
        Push(msgs[i].value.kind.value, msgs[i].value.msg);
      }
      assert msgs[|msgs|..] == [];
    }

    static lemma {:induction false} PassStep(kept: seq<Stored>, rest: seq<Stored>, wanted: seq<nat>)
      requires rest != [] && wanted != []
      ensures kept + DeletePass(rest, wanted)
           == if rest[0].num == wanted[0] then kept + DeletePass(rest[1..], wanted[1..])
              else kept + [rest[0]] + DeletePass(rest[1..], wanted)
    {
      var later := DeletePass(rest[1..], wanted);
      Assoc(kept, [rest[0]], later);
    }

    static lemma {:induction false} Erased(all: seq<Stored>, prev: nat, stored: nat)
      requires prev <= stored < |all|
      ensures var r := all[..prev] + all[stored..];
              && |r| == |all| - (stored - prev)
              && r[..prev + 1] == all[..prev] + [all[stored]] && r[prev + 1..] == all[stored + 1..]
    {
    }

    /** Delete in one pass over both lists: `prev` and `stored` bound the run of messages found so
        far, which is erased when the run ends. */
    method DeleteMsgs(list: seq<nat>)
      modifies this`allMsgs
      ensures allMsgs == DeletePass(old(allMsgs), list)
    {
      var l, stored, prev := 0, 0, 0;
      while l < |list| && stored < |allMsgs|
        invariant 0 <= l <= |list| && 0 <= prev <= stored <= |allMsgs|
        invariant DeletePass(old(allMsgs), list)
               == allMsgs[..prev] + DeletePass(allMsgs[stored..], list[l..])
        decreases |allMsgs| - stored
      {
        PassStep(allMsgs[..prev], allMsgs[stored..], list[l..]);
        assert allMsgs[stored..][1..] == allMsgs[stored + 1..] && list[l..][1..] == list[l + 1..];
        if allMsgs[stored].num == list[l] {
          l := l + 1;
          stored := stored + 1;
          continue;
        }
        Erased(allMsgs, prev, stored);
        allMsgs := allMsgs[..prev] + allMsgs[stored..];
        stored := prev;
        stored := stored + 1;
        prev := stored;
      }
      allMsgs := allMsgs[..prev] + allMsgs[stored..];
    }

    /** Delete one message: the first one with its number. */
    method DeleteMsg(num: nat)
      modifies this`allMsgs
      ensures allMsgs == DeletePass(old(allMsgs), [num])
    {
      var k := 0;
      while k < |allMsgs| && allMsgs[k].num != num
        invariant k <= |allMsgs|
        invariant forall j :: 0 <= j < k ==> allMsgs[j].num != num
      {
        k := k + 1;
      }
      DeleteFirst(allMsgs, k, num);
      if k == |allMsgs| {
        return;
      }
      allMsgs := allMsgs[..k] + allMsgs[k + 1..];
    }

    method DeleteAllMsgs()
      modifies this`allMsgs
      ensures allMsgs == []
    {
      allMsgs := [];
    }

    method SetRecvEnabled(enabled: bool)
      modifies this`recvEnabled
      ensures recvEnabled == enabled
    {
      recvEnabled := enabled;
    }
  }

  /** A list is sent while nothing is under way: its blocks wait, with the timer running if there are
      any. */
  method SendToEcho<S(!new)>(mgr: ToolsMsgMgr<S>, sock: EchoSocket, msgs: seq<Option<Outgoing>>)
    requires mgr.socket == sock && mgr.Ready() && mgr.frame != null
    requires sock.connected && sock.pending == [] && !sock.timerActive
    modifies mgr`allMsgs, mgr`nextMsgNum, mgr`filters, mgr`out, mgr`reported, sock`pending, sock`timerActive
    ensures mgr.Ready() && mgr.EchoNow() == Sending(old(mgr.LinkNow()), msgs) && sock.Valid()
    ensures mgr.out == SendList(old(mgr.View()), msgs).out
  {
    ghost var before, e := mgr.View(), Sending(mgr.LinkNow(), msgs);
    mgr.SendMsgs(msgs);
    WiresHandedOver(before, msgs);
    NoneLeft(e.pending);
  }

  /** The event loop around a connected echo socket: a list is sent, and if there is anything to
      hand back the socket's timer fires. */
  method SendAndFire<S(!new)>(
    mgr: ToolsMsgMgr<S>, sock: EchoSocket, msgs: seq<Option<Outgoing>>, ghost blocks: nat, ghost end: Echoing<S>)
    requires mgr.socket == sock && mgr.Ready() && mgr.frame != null
    requires sock.connected && sock.pending == [] && !sock.timerActive
    requires end == HandOvers(mgr.FrameNow(), mgr.hook, sock.running && mgr.Listening(), true,
                              Sending(mgr.LinkNow(), msgs), blocks)
    requires end.pending == []
    modifies mgr`allMsgs, mgr`nextMsgNum, mgr`filters, mgr`out, mgr`reported, mgr.frame, sock`pending, sock`timerActive
    ensures mgr.Ready() && mgr.EchoNow() == end && sock.pending == []
    ensures sock.timerActive == (mgr.out != SendList(old(mgr.View()), msgs).out)
  {
    SendToEcho(mgr, sock, msgs);
    if sock.timerActive {
      sock.SendDataPostponed(mgr, blocks, end);
    }
  }

  /** Every message that could be written and was sent through a running echo socket is stored a
      second time, as received, in the same order. */
  method SendAndHearEcho<S(!new)>(
    mgr: ToolsMsgMgr<S>, sock: EchoSocket, msgs: seq<Option<Outgoing>>, ghost sync: Filter<S> -> bool)
    requires mgr.socket == sock && mgr.Ready() && mgr.Listening()
    requires sock.running && sock.connected && sock.pending == [] && !sock.timerActive
    requires mgr.frame.inData == [] && mgr.frame.garbage == []
    requires PrefixStable(mgr.frame.frame) && Silent(mgr.hook) && Readable(mgr.frame.frame, msgs)
    requires Undoes(sync) && AllSynced(sync, mgr.filters)
    modifies mgr`allMsgs, mgr`nextMsgNum, mgr`filters, mgr`out, mgr`reported, mgr.frame, sock`pending, sock`timerActive
    ensures Settled(sync, mgr.LinkNow(), old(mgr.allMsgs) + RoundRecord(old(mgr.nextMsgNum), msgs),
                    old(mgr.nextMsgNum) + RoundSize(msgs))
    ensures sock.pending == [] && !sock.timerActive && mgr.Ready() && mgr.Listening()
  {
    EchoSettles(mgr.frame.frame, mgr.hook, sync, mgr.View(), msgs);
    ghost var e := Sending(mgr.LinkNow(), msgs);
    SendAndFire(mgr, sock, msgs, |e.pending|, HandOvers(mgr.FrameNow(), mgr.hook, true, true, e, |e.pending|));
  }
}
