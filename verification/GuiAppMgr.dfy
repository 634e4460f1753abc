/** The displayed-list half of the viewer's application manager as an object
    (app/cc_view/src/GuiAppMgr.cpp, app/cc_view/src/widget/MsgListWidget.cpp). */
module GuiAppMgr {
  import opened Wrappers
  import opened Bytes
  import opened FrameReader
  import opened FilterChain
  import opened Loopback
  import opened MsgStore
  import opened MsgMgr
  import opened RecvList
  import opened TextOrder
  import opened Seqs

  class AppMgr<S(!new)> {
    const msgMgr: ToolsMsgMgr<S>
    const text: Msg -> string         // the id text of a message
    const desc: Msg -> string         // messageDesc
    var recvListMode: set<RecvListMode>
    var filteredMessages: seq<string>
    var recvListCount: nat
    var items: seq<Stored>            // what the list widget holds

    constructor (msgMgr: ToolsMsgMgr<S>, text: Msg -> string, desc: Msg -> string)
      ensures this.msgMgr == msgMgr && this.text == text && this.desc == desc
      ensures recvListMode == {ShowReceived, ShowSent, ShowGarbage, ApplyFilter}
      ensures filteredMessages == [] && recvListCount == 0 && items == []
    {
      this.msgMgr, this.text, this.desc := msgMgr, text, desc;
      recvListMode := {ShowReceived, ShowSent, ShowGarbage, ApplyFilter};
      filteredMessages, recvListCount, items := [], 0, [];
    }

    ghost function Now(): Gui<S>
      reads this, msgMgr
    {
      Gui(msgMgr.View(), Display(recvListMode, filteredMessages, text, desc), items, recvListCount)
    }

    /** The manager reports a message. */
    method OnMsgAdded(msg: Stored)
      modifies this`items, this`recvListCount
      ensures Now() == MsgAdded(old(Now()), msg)
    {
      if !Display(recvListMode, filteredMessages, text, desc).CanAdd(msg) {
        return;
      }
      recvListCount := recvListCount + 1;
      items := items + [msg];
    }

    /** Show what the store holds. */
    method RefreshRecvList()
      modifies this`items, this`recvListCount
      ensures Now() == Refresh(old(Now()))
    {
      ClearWidget();
      ghost var emptied := Now();
      var all := msgMgr.allMsgs;
      for k := 0 to |all|
        invariant MsgsAdded(Now(), all[k..]) == MsgsAdded(emptied, all)
      {
        NextOf(all, k);
        OnMsgAdded(all[k]);
      }
      assert all[|all|..] == [];
    }

    method ClearWidget()
      modifies this`items, this`recvListCount
      ensures items == [] && recvListCount == 0
    {
      recvListCount := 0;
      items := [];
    }

    /** Delete what the widget reports as cleared; a list as long as the store empties it. */
    method DeleteReported(msgs: seq<Stored>)
      modifies msgMgr`allMsgs
      ensures msgMgr.View() == DeleteMessages(old(msgMgr.View()), msgs)
    {
      if |msgMgr.allMsgs| == |msgs| {
        msgMgr.DeleteAllMsgs();
        return;
      }
      msgMgr.DeleteMsgs(Nums(msgs));
    }

    method ClearRecvList(reportDeleted: bool)
      modifies this`items, this`recvListCount, msgMgr`allMsgs
      ensures Now() == if reportDeleted then ClearList(old(Now()))
                       else old(Now()).(shown := [], count := 0)
    {
      var cleared := items;
      ClearWidget();
      if reportDeleted {
        DeleteReported(cleared);
      }
    }

    method RecvClearClicked()
      requires 0 < recvListCount
      modifies this`items, this`recvListCount, msgMgr`allMsgs
      ensures Now() == ClearList(old(Now()))
    {
      ClearRecvList(true);
    }

    /** Delete the selected message, the one in this row of the widget. */
    method RecvDeleteClicked(row: nat)
      requires row < |items| && 0 < recvListCount
      modifies this`items, this`recvListCount, msgMgr`allMsgs
      ensures Now() == Handle(old(Now()), DeleteSelected(row), msgMgr.hook)
    {
      msgMgr.DeleteMsg(items[row].num);
      items := items[..row] + items[row + 1..];
      recvListCount := recvListCount - 1;
    }

    method UpdateRecvListMode(mode: RecvListMode, checked: bool)
      modifies this`recvListMode, this`items, this`recvListCount
      ensures Now() == Handle(old(Now()), Toggle(mode, checked), msgMgr.hook)
      ensures mode in recvListMode <==> checked
      ensures forall m :: m != mode ==> (m in recvListMode <==> m in old(recvListMode))
      ensures SortedText(filteredMessages) ==>
                forall s :: Switched(old(Now()).display, msgMgr.allMsgs, mode, checked, s, s in items)
    {
      ghost var g := Now();
      if checked {
        recvListMode := recvListMode + {mode};
      } else {
        recvListMode := recvListMode - {mode};
      }
      RefreshRecvList();
      if SortedText(filteredMessages) {
        forall s ensures Switched(g.display, msgMgr.allMsgs, mode, checked, s, s in items) {
          ToggleShows(g, mode, checked, msgMgr.hook, s);
        }
      }
    }

    method SetFilteredMessages(filtered: seq<string>)
      modifies this`filteredMessages, this`items, this`recvListCount
      ensures Now() == Handle(old(Now()), HideList(filtered), msgMgr.hook)
      ensures filteredMessages == filtered
    {
      if filtered == filteredMessages {
        return;
      }
      filteredMessages := filtered;
      if ApplyFilter in recvListMode {
        RefreshRecvList();
      }
    }

    /** Hear of what the manager has reported since. */
    method HearSince(before: nat)
      requires before <= |msgMgr.reported|
      modifies this`items, this`recvListCount
      ensures Now() == MsgsAdded(old(Now()), msgMgr.reported[before..])
    {
      var all := msgMgr.reported;
      ghost var heard := Now();
      for k := before to |all|
        invariant MsgsAdded(Now(), all[k..]) == MsgsAdded(heard, all[before..])
      {
        NextOf(all, k);
        OnMsgAdded(all[k]);
      }
      assert all[|all|..] == [];
    }

    /** Replace everything by loaded messages, hearing of each as it is added. */
    method RecvLoadMsgs(ms: seq<Option<Loaded>>)
      modifies this`items, this`recvListCount
      modifies msgMgr`allMsgs, msgMgr`nextMsgNum, msgMgr`reported
      ensures Now() == LoadList(old(Now()), ms)
    {
      ClearRecvList(false);
      msgMgr.DeleteAllMsgs();
      AddReports(msgMgr.View(), ms);
      var before := |msgMgr.reported|;
      msgMgr.AddMsgs(ms);
      HearSince(before);
    }

    /** Messages are sent, and each is heard of as it is stored: the displayed list stays equal to
        the filtered store. */
    method SendMsgs(msgs: seq<Option<Outgoing>>)
      requires msgMgr.socket != null && msgMgr.frame != null
      modifies this`items, this`recvListCount
      modifies msgMgr`allMsgs, msgMgr`nextMsgNum, msgMgr`filters, msgMgr`out, msgMgr`reported
      modifies msgMgr.socket`pending, msgMgr.socket`timerActive
      ensures Now() == Handle(old(Now()), Store(Send(msgs)), msgMgr.hook)
      ensures msgMgr.View() == SendList(old(msgMgr.View()), msgs)
      ensures InStep(old(Now())) ==> InStep(Now())
    {
      ghost var g := Now();
      SendReports(msgMgr.View(), msgs);
      var before := |msgMgr.reported|;
      msgMgr.SendMsgs(msgs);
      HearSince(before);
      if InStep(g) {
        HandleInStep(g, Store(Send(msgs)), msgMgr.hook);
      }
    }

    /** The messages a block of data completes. */
    ghost function Arrived(block: Data): seq<Msg>
      requires msgMgr.Ready() && msgMgr.Listening()
      reads msgMgr, msgMgr.frame
    {
      var p := RecvChain(msgMgr.filters, [block]);
      ReadAll(msgMgr.frame.frame, msgMgr.frame.inData, msgMgr.frame.garbage, Calls(p.out)).msgs
    }

    /** The block has gone up the filters, nothing else has happened yet. */
    ghost function AfterFilters(block: Data): Gui<S>
      reads this, msgMgr
    {
      var g := Now();
      g.(mgr := g.mgr.(filters := RecvChain(msgMgr.filters, [block]).filters))
    }

    /** Data arrives: the manager stores what it reads, and the viewer hears of it.  The displayed
        list stays equal to the filtered store if and only if no displayable reaction comes behind
        a displayable receipt. */
    method SocketDataReceived(block: Data)
      requires msgMgr.Ready() && msgMgr.Listening()
      modifies this`items, this`recvListCount
      modifies msgMgr`allMsgs, msgMgr`nextMsgNum, msgMgr`filters, msgMgr`out, msgMgr`reported, msgMgr.frame
      modifies msgMgr.socket`pending, msgMgr.socket`timerActive
      ensures Now() == Handle(old(AfterFilters(block)), Store(Arrive(old(Arrived(block)))), msgMgr.hook)
      ensures msgMgr.LinkNow() == Deliver(msgMgr.frame.frame, msgMgr.hook, old(msgMgr.LinkNow()), block)
      ensures InStep(old(Now()))
              ==> (InStep(Now()) <==> Orderly(old(Now()).display, old(Arrived(block)), msgMgr.hook))
    {
      ghost var g, ms := AfterFilters(block), Arrived(block);
      ReceiveReports(g.mgr, ms, msgMgr.hook);
      var before := |msgMgr.reported|;
      msgMgr.SocketDataReceived(block);
      HearSince(before);
      if InStep(g) {
        ArrivalInStepIff(g, ms, msgMgr.hook);
      }
    }
  }
}
