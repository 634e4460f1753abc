/** The list of received and sent messages shown by the viewer (app/cc_view/src/GuiAppMgr.cpp),
    kept up to date message by message next to the manager's store. */
module RecvList {
  import opened Wrappers
  import opened Bytes
  import opened FrameReader
  import opened MsgStore
  import opened IdText
  import opened TextOrder
  import opened Seqs

  /** The bits of the mode mask. */
  datatype RecvListMode = ShowReceived | ShowSent | ShowGarbage | ApplyFilter

  /** What decides whether a message is shown: the mask, as the set of its bits, and the filter
      list.  `text` gives the id text of a message and `desc` the text the filter list holds. */
  datatype Display = Display(
    mask: set<RecvListMode>, filtered: seq<string>, text: Msg -> string, desc: Msg -> string)
  {
    /** `canAddToRecvList`: garbage is what has no id text. */
    predicate CanAdd(s: Stored) {
      if text(s.msg) == "" then ShowGarbage in mask
      else if s.kind == Sent && ShowSent !in mask then false
      else if s.kind == Received && ShowReceived !in mask then false
      else if ApplyFilter !in mask then true
      else Missing(filtered, desc(s.msg))
    }

    function SetMode(mode: RecvListMode, checked: bool): Display {
      this.(mask := if checked then mask + {mode} else mask - {mode})
    }
  }

  /** Switching a bit on puts it into the mask, switching it off takes it out; nothing else changes. */
  lemma {:induction false} SetModeMeaning(d: Display, mode: RecvListMode, checked: bool)
    ensures var r := d.SetMode(mode, checked);
            && (mode in r.mask <==> checked)
            && (forall m :: m != mode ==> (m in r.mask <==> m in d.mask))
            && r.filtered == d.filtered && r.text == d.text && r.desc == d.desc
  {
  }

  /** With a sorted filter list, the filter hides exactly the listed descriptions. */
  lemma {:induction false} CanAddMeaning(d: Display, s: Stored)
    requires SortedText(d.filtered)
    ensures d.CanAdd(s) <==>
              if d.text(s.msg) == "" then ShowGarbage in d.mask
              else && (s.kind == Sent ==> ShowSent in d.mask)
                   && (s.kind == Received ==> ShowReceived in d.mask)
                   && (ApplyFilter in d.mask ==> d.desc(s.msg) !in d.filtered)
  {
    MissingIffAbsent(d.filtered, d.desc(s.msg));
  }

  /** The garbage switch makes a difference to a message if and only if the message has no id text:
      whether it is an invalid message does not matter. */
  lemma {:induction false} GarbageSwitchIff(d: Display, s: Stored)
    ensures d.SetMode(ShowGarbage, true).CanAdd(s) != d.SetMode(ShowGarbage, false).CanAdd(s)
            <==> d.text(s.msg) == ""
  {
  }

  /** An invalid message of the demo protocol is shown as a received message with the id 0. */
  lemma {:induction false} DemoGarbageIsReceived(d: Display, num: nat, raw: Data)
    requires d.text(Invalid(raw)) == DemoText(0) && SortedText(d.filtered)
    ensures d.CanAdd(Stored(num, Received, Invalid(raw)))
            <==> ShowReceived in d.mask && (ApplyFilter in d.mask ==> d.desc(Invalid(raw)) !in d.filtered)
  {
    CanAddMeaning(d, Stored(num, Received, Invalid(raw)));
  }

  /** The displayable part of a list, in order. */
  function Shown(d: Display, store: seq<Stored>): seq<Stored> {
    if store == [] then []
    else (if d.CanAdd(store[0]) then [store[0]] else []) + Shown(d, store[1..])
  }

  /** The rest. */
  function Hidden(d: Display, store: seq<Stored>): seq<Stored> {
    if store == [] then []
    else (if d.CanAdd(store[0]) then [] else [store[0]]) + Hidden(d, store[1..])
  }

  function Nums(list: seq<Stored>): (r: seq<nat>)
    ensures |r| == |list|
    ensures forall k :: 0 <= k < |r| ==> r[k] == list[k].num
  {
    if list == [] then [] else [list[0].num] + Nums(list[1..])
  }

  lemma {:induction false} ShownConcat(d: Display, a: seq<Stored>, b: seq<Stored>)
    ensures Shown(d, a + b) == Shown(d, a) + Shown(d, b)
  {
    var ab := a + b;
    if a == [] {
      assert ab == b;
    } else {
      var head := if d.CanAdd(a[0]) then [a[0]] else [];
      assert ab[0] == a[0] && ab[1..] == a[1..] + b;
      ShownConcat(d, a[1..], b);
      Assoc(head, Shown(d, a[1..]), Shown(d, b));
    }
  }

  lemma {:induction false} ShownInStore(d: Display, store: seq<Stored>)
    ensures |Shown(d, store)| <= |store|
    ensures |Shown(d, store)| == |store| ==> Shown(d, store) == store
    ensures forall s :: s in Shown(d, store) ==> s in store
  {
    if store != [] {
      ShownInStore(d, store[1..]);
    }
  }

  /** The displayed list is a subsequence of the store; deleting it leaves the rest. */
  lemma {:induction false} DeleteShown(d: Display, store: seq<Stored>)
    requires Distinct(store)
    ensures DeletePass(store, Nums(Shown(d, store))) == Hidden(d, store)
    decreases |store|
  {
    if store != [] {
      DistinctTail(store);
      DeleteShown(d, store[1..]);
      var rest := Shown(d, store[1..]);
      if d.CanAdd(store[0]) {
        assert Shown(d, store)[1..] == rest;
        assert Nums(Shown(d, store))[1..] == Nums(rest);
      } else {
        NoneLeft(rest);
        ShownInStore(d, store[1..]);
        if rest == [] {
          assert Nums(rest) == [];
          NoneShown(d, store[1..]);
        } else {
          assert rest[0] in store[1..];
        }
      }
    }
  }

  lemma {:induction false} NoneShown(d: Display, store: seq<Stored>)
    requires Shown(d, store) == []
    ensures Hidden(d, store) == store
  {
    if store != [] {
      NoneShown(d, store[1..]);
    }
  }

  lemma {:induction false} HiddenNotShown(d: Display, store: seq<Stored>)
    ensures Shown(d, Hidden(d, store)) == []
  {
    if store != [] {
      HiddenNotShown(d, store[1..]);
      var rest := Hidden(d, store[1..]);
      assert ([store[0]] + rest)[1..] == rest && [] + rest == rest;
    }
  }

  // ---------------------------------------------------------------------------
  // The viewer next to the manager

  /** The shown list and its count. */
  datatype Gui<!S> = Gui(mgr: Mgr<S>, display: Display, shown: seq<Stored>, count: nat)

  /** `msgAdded`, for one reported message. */
  function MsgAdded<S>(g: Gui<S>, s: Stored): Gui<S> {
    if g.display.CanAdd(s) then g.(shown := g.shown + [s], count := g.count + 1) else g
  }

  function MsgsAdded<S>(g: Gui<S>, reported: seq<Stored>): Gui<S>
    decreases |reported|
  {
    if reported == [] then g else MsgsAdded(MsgAdded(g, reported[0]), reported[1..])
  }

  /** `refreshRecvList`: clear the list and show what the store holds. */
  function Refresh<S>(g: Gui<S>): Gui<S> {
    MsgsAdded(g.(shown := [], count := 0), g.mgr.store)
  }

  /** `deleteMessages`, with its shortcut for lists as long as the store. */
  function DeleteMessages<S>(m: Mgr<S>, list: seq<Stored>): Mgr<S> {
    m.(store := if |m.store| == |list| then [] else DeletePass(m.store, Nums(list)))
  }

  /** Clearing the displayed list deletes what it displayed. */
  function ClearList<S>(g: Gui<S>): Gui<S> {
    g.(mgr := DeleteMessages(g.mgr, g.shown), shown := [], count := 0)
  }

  datatype Event =
    | Store(op: Op)                              // a send, an arrival, a load
    | Clear                                      // recvClearClicked
    | DeleteSelected(row: nat)                   // recvDeleteClicked
    | Toggle(mode: RecvListMode, checked: bool)    // the four toggles
    | HideList(filtered: seq<string>)             // setFilteredMessages
    | LoadFile(ms: seq<Option<Loaded>>)          // recvLoadMsgsFromFile

  /** The manager does something and the viewer hears of every message it reports. */
  function Hear<S>(g: Gui<S>, m: Mgr<S>): Gui<S>
    requires |g.mgr.reported| <= |m.reported|
  {
    MsgsAdded(g.(mgr := m), m.reported[|g.mgr.reported|..])
  }

  function LoadList<S>(g: Gui<S>, ms: seq<Option<Loaded>>): Gui<S> {
    var emptied := g.(mgr := g.mgr.(store := []), shown := [], count := 0);
    var m := AddList(emptied.mgr, ms);
    AddReports(emptied.mgr, ms);
    Hear(emptied, m)
  }

  function Handle<S>(g: Gui<S>, e: Event, hook: Hook): Gui<S>
    requires e.Store? ==> !e.op.Delete? && !e.op.DeleteAll?
    requires e.DeleteSelected? ==> e.row < |g.shown|
  {
    match e
    case Store(op) =>
      ApplyReports(g.mgr, op, hook);
      Hear(g, Apply(g.mgr, op, hook))
    case Clear => ClearList(g)
    case DeleteSelected(row) =>
      Gui(g.mgr.(store := DeletePass(g.mgr.store, [g.shown[row].num])), g.display,
          g.shown[..row] + g.shown[row + 1..], if g.count == 0 then 0 else g.count - 1)
    case Toggle(mode, checked) => Refresh(g.(display := g.display.SetMode(mode, checked)))
    case HideList(filtered) =>
      if filtered == g.display.filtered then g
      else
        var h := g.(display := g.display.(filtered := filtered));
        if ApplyFilter in h.display.mask then Refresh(h) else h
    case LoadFile(ms) => LoadList(g, ms)
  }

  // ---------------------------------------------------------------------------
  // What the manager reports is what it appends

  lemma {:induction false} SendReports<S>(m: Mgr<S>, os: seq<Option<Outgoing>>)
    ensures SendList(m, os).reported == m.reported + SentRecords(m.next, Present(os))
    decreases |os|
  {
    if os == [] {
      NoneRight(m.reported);
    } else {
      match os[0] {
        case None =>
          SendReports(m, os[1..]);
          NoneLeft(Present(os[1..]));
        case Some(o) =>
          var one, rest := Stored(m.next, Sent, o.msg), SentRecords(m.next + 1, Present(os[1..]));
          assert SendList(m, os).reported == m.reported + [one] + rest by {
            SendReports(SendOne(m, o), os[1..]);
          }
          assert SentRecords(m.next, Present(os)) == [one] + rest by {
            assert Present(os)[0] == o && Present(os)[1..] == Present(os[1..]);
          }
          Assoc(m.reported, [one], rest);
      }
    }
  }

  lemma {:induction false} AddReports<S>(m: Mgr<S>, ms: seq<Option<Loaded>>)
    ensures AddList(m, ms).reported == m.reported + LoadedRecords(m.next, ms)
    decreases |ms|
  {
    if ms == [] {
      NoneRight(m.reported);
    } else if Typed(ms[0]) {
      var one := Stored(m.next, ms[0].value.kind.value, ms[0].value.msg);
      AddReports(m.Record(one.kind, one.msg), ms[1..]);
      Assoc(m.reported, [one], LoadedRecords(m.next + 1, ms[1..]));
    } else {
      AddReports(m, ms[1..]);
    }
  }

  /** The order in which a received batch and the protocol's reactions to it are reported. */
  function ReportOrder(next: nat, msgs: seq<Msg>, hook: Hook): seq<Stored>
    decreases |msgs|
  {
    if msgs == [] then []
    else
      var sent := Present(hook(msgs[0]));
      SentRecords(next + 1, sent) + [Stored(next, Received, msgs[0])]
      + ReportOrder(next + 1 + |sent|, msgs[1..], hook)
  }

  lemma {:induction false} AfterFirstReports<S>(m: Mgr<S>, msg: Msg, hook: Hook)
    ensures AfterFirst(m, msg, hook).reported
         == m.reported + (SentRecords(m.next + 1, Present(hook(msg))) + [Stored(m.next, Received, msg)])
  {
    SendReports(m.(next := m.next + 1), hook(msg));
    var sent, one := SentRecords(m.next + 1, Present(hook(msg))), [Stored(m.next, Received, msg)];
    Assoc(m.reported, sent, one);
  }

  lemma {:induction false} ReceiveReports<S>(m: Mgr<S>, msgs: seq<Msg>, hook: Hook)
    ensures ReceiveEach(m, msgs, hook).0.reported == m.reported + ReportOrder(m.next, msgs, hook)
    decreases |msgs|
  {
    if msgs == [] {
      NoneRight(m.reported);
    } else {
      var m1 := AfterFirst(m, msgs[0], hook);
      AfterFirstReports(m, msgs[0], hook);
      AfterFirstRecords(m, msgs[0], hook);
      ReceiveReports(m1, msgs[1..], hook);
      var now := SentRecords(m.next + 1, Present(hook(msgs[0]))) + [Stored(m.next, Received, msgs[0])];
      var later := ReportOrder(m1.next, msgs[1..], hook);
      Assoc(m.reported, now, later);
    }
  }

  /** The protocol reacts to no message of a batch but perhaps the first. */
  ghost predicate QuietAfterFirst(msgs: seq<Msg>, hook: Hook) {
    msgs == [] || Quiet(msgs[1..], hook)
  }

  lemma {:induction false} QuietReports(next: nat, msgs: seq<Msg>, hook: Hook)
    requires Quiet(msgs, hook)
    ensures ReportOrder(next, msgs, hook) == Receipts(next, msgs, hook)
    decreases |msgs|
  {
    if msgs != [] {
      assert Present(hook(msgs[0])) == [] && Quiet(msgs[1..], hook);
      QuietReports(next + 1, msgs[1..], hook);
      var one := [Stored(next, Received, msgs[0])];
      NoneLeft(one);
    }
  }

  lemma {:induction false} ReactionsAreSent(next: nat, msgs: seq<Msg>, hook: Hook)
    ensures forall k :: 0 <= k < |Reactions(next, msgs, hook)| ==> Reactions(next, msgs, hook)[k].kind == Sent
    decreases |msgs|
  {
    if msgs != [] {
      var sent := Present(hook(msgs[0]));
      SentRecordsNumbers(next + 1, sent);
      ReactionsAreSent(next + 1 + |sent|, msgs[1..], hook);
    }
  }

  /** A received batch is reported in the order in which it is stored if and only if the protocol
      reacts to no message but perhaps the first: reactions are reported between the messages, but
      stored before all of them. */
  lemma {:induction false} ReportedAsStoredIff(next: nat, msgs: seq<Msg>, hook: Hook)
    ensures ReportOrder(next, msgs, hook) == Reactions(next, msgs, hook) + Receipts(next, msgs, hook)
            <==> QuietAfterFirst(msgs, hook)
  {
    if msgs != [] {
      var tail := msgs[1..];
      var now := Present(hook(msgs[0]));
      var mid := next + 1 + |now|;
      var sent, one := SentRecords(next + 1, now), [Stored(next, Received, msgs[0])];
      var order, later, got := ReportOrder(mid, tail, hook), Reactions(mid, tail, hook), Receipts(mid, tail, hook);
      assert later == [] <==> Quiet(tail, hook) by {
        ReactionsNoneIffQuiet(mid, tail, hook);
      }
      assert if later == [] then order == got else later[0].kind == Sent by {
        if later == [] {
          QuietReports(mid, tail, hook);
        }
        ReactionsAreSent(mid, tail, hook);
      }
      SentFirst(sent, one, order, later, got);
    }
  }

  /** Two received messages with a reaction to each: reported one way, stored another. */
  lemma {:induction false} ReactionsBetween(next: nat, a: Msg, b: Msg, o: Outgoing)
    ensures var hook := (x: Msg) => [Some(o)];
            ReportOrder(next, [a, b], hook) != Reactions(next, [a, b], hook) + Receipts(next, [a, b], hook)
  {
    var hook := (x: Msg) => [Some(o)];
    ReportedAsStoredIff(next, [a, b], hook);
    assert [a, b][1..][0] == b;
    assert Present(hook(b)) == [o] by {
      assert [Some(o)][1..] == [];
    }
  }

  lemma {:induction false} SentFirst(
    sent: seq<Stored>, one: seq<Stored>, order: seq<Stored>, later: seq<Stored>, got: seq<Stored>)
    requires |one| == 1 && one[0].kind == Received
    requires if later == [] then order == got else later[0].kind == Sent
    ensures sent + one + order == sent + later + (one + got) <==> later == []
  {
    if later == [] {
      assert sent + later == sent && sent + (one + got) == sent + one + got;
    } else {
      assert (sent + one + order)[|sent|] == one[0] && (sent + later + (one + got))[|sent|] == later[0];
    }
  }

  lemma {:induction false} ApplyReports<S>(m: Mgr<S>, op: Op, hook: Hook)
    requires !op.Delete? && !op.DeleteAll?
    ensures |m.reported| <= |Apply(m, op, hook).reported|
  {
    match op {
      case Send(os) => SendReports(m, os);
      case Arrive(msgs) => ReceiveReports(m, msgs, hook);
      case Add(ms) => AddReports(m, ms);
    }
  }

  /** Some records are appended to the store; these are reported, so that the displayable ones come
      in the order in which they are stored. */
  ghost predicate Appends<S>(d: Display, m: Mgr<S>, r: Mgr<S>, records: seq<Stored>, order: seq<Stored>) {
    && r.store == m.store + records && r.reported == m.reported + order
    && Shown(d, order) == Shown(d, records)
  }

  /** The receipt of a message would be displayed. */
  predicate ShowsReceipt(d: Display, msg: Msg) {
    d.CanAdd(Stored(0, Received, msg))
  }

  /** Some reaction to a message would be displayed. */
  predicate ShowsReaction(d: Display, hook: Hook, msg: Msg) {
    Shown(d, SentRecords(0, Present(hook(msg)))) != []
  }

  /** No displayable reaction comes behind a displayable receipt. */
  ghost predicate Orderly(d: Display, msgs: seq<Msg>, hook: Hook) {
    forall i, j :: 0 <= i < j < |msgs| ==> !(ShowsReceipt(d, msgs[i]) && ShowsReaction(d, hook, msgs[j]))
  }

  /** The numbers of sent records make no difference to the display. */
  lemma {:induction false} ShownAnyNumber(d: Display, a: nat, b: nat, os: seq<Outgoing>)
    ensures Shown(d, SentRecords(a, os)) == [] <==> Shown(d, SentRecords(b, os)) == []
    decreases |os|
  {
    if os != [] {
      ShownAnyNumber(d, a + 1, b + 1, os[1..]);
      assert SentRecords(a, os)[1..] == SentRecords(a + 1, os[1..]);
      assert SentRecords(b, os)[1..] == SentRecords(b + 1, os[1..]);
    }
  }

  ghost predicate NoneShows(d: Display, msgs: seq<Msg>, hook: Hook) {
    forall k :: 0 <= k < |msgs| ==> !ShowsReaction(d, hook, msgs[k])
  }

  lemma {:induction false} NoneShowsStep(d: Display, msgs: seq<Msg>, hook: Hook)
    requires msgs != []
    ensures NoneShows(d, msgs, hook) <==> !ShowsReaction(d, hook, msgs[0]) && NoneShows(d, msgs[1..], hook)
  {
    var tail := msgs[1..];
    if NoneShows(d, msgs, hook) {
      forall k | 0 <= k < |tail| ensures !ShowsReaction(d, hook, tail[k]) {
        assert tail[k] == msgs[k + 1];
      }
    }
    assert forall k :: 0 < k < |msgs| ==> msgs[k] == tail[k - 1];
  }

  lemma {:induction false} OrderlyStep(d: Display, msgs: seq<Msg>, hook: Hook)
    requires msgs != []
    ensures Orderly(d, msgs, hook)
            <==> Orderly(d, msgs[1..], hook) && (ShowsReceipt(d, msgs[0]) ==> NoneShows(d, msgs[1..], hook))
  {
    var tail := msgs[1..];
    if Orderly(d, msgs, hook) {
      forall i, j | 0 <= i < j < |tail| ensures !(ShowsReceipt(d, tail[i]) && ShowsReaction(d, hook, tail[j])) {
        assert tail[i] == msgs[i + 1] && tail[j] == msgs[j + 1];
      }
      forall k | 0 <= k < |tail| ensures ShowsReceipt(d, msgs[0]) ==> !ShowsReaction(d, hook, tail[k]) {
        assert tail[k] == msgs[k + 1];
      }
    }
    assert forall k :: 0 < k < |msgs| ==> msgs[k] == tail[k - 1];
  }

  lemma {:induction false} ShownIsSent(d: Display, s: seq<Stored>)
    requires forall k :: 0 <= k < |s| ==> s[k].kind == Sent
    ensures forall k :: 0 <= k < |Shown(d, s)| ==> Shown(d, s)[k].kind == Sent
  {
    ShownInStore(d, s);
    forall k | 0 <= k < |Shown(d, s)| ensures Shown(d, s)[k].kind == Sent {
      assert Shown(d, s)[k] in s;
    }
  }

  // The displayable parts of what a batch reports and stores.

  function OneShown(d: Display, next: nat, msg: Msg): seq<Stored> {
    if ShowsReceipt(d, msg) then [Stored(next, Received, msg)] else []
  }

  function SentShown(d: Display, next: nat, msg: Msg, hook: Hook): seq<Stored> {
    Shown(d, SentRecords(next + 1, Present(hook(msg))))
  }

  function ReportShown(d: Display, next: nat, msgs: seq<Msg>, hook: Hook): seq<Stored>
    decreases |msgs|
  {
    if msgs == [] then []
    else SentShown(d, next, msgs[0], hook) + OneShown(d, next, msgs[0])
         + ReportShown(d, next + 1 + |Present(hook(msgs[0]))|, msgs[1..], hook)
  }

  function ReactionsShown(d: Display, next: nat, msgs: seq<Msg>, hook: Hook): seq<Stored>
    decreases |msgs|
  {
    if msgs == [] then []
    else SentShown(d, next, msgs[0], hook)
         + ReactionsShown(d, next + 1 + |Present(hook(msgs[0]))|, msgs[1..], hook)
  }

  function ReceiptsShown(d: Display, next: nat, msgs: seq<Msg>, hook: Hook): seq<Stored>
    decreases |msgs|
  {
    if msgs == [] then []
    else OneShown(d, next, msgs[0])
         + ReceiptsShown(d, next + 1 + |Present(hook(msgs[0]))|, msgs[1..], hook)
  }

  lemma {:induction false} ShownOne(d: Display, next: nat, msg: Msg)
    ensures Shown(d, [Stored(next, Received, msg)]) == OneShown(d, next, msg)
  {
    assert [Stored(next, Received, msg)][1..] == [];
  }

  lemma {:induction false} ReportShownIs(d: Display, next: nat, msgs: seq<Msg>, hook: Hook)
    ensures Shown(d, ReportOrder(next, msgs, hook)) == ReportShown(d, next, msgs, hook)
    decreases |msgs|
  {
    if msgs != [] {
      var mid, one := next + 1 + |Present(hook(msgs[0]))|, [Stored(next, Received, msgs[0])];
      var now := SentRecords(next + 1, Present(hook(msgs[0])));
      var rest := ReportOrder(mid, msgs[1..], hook);
      ReportShownIs(d, mid, msgs[1..], hook);
      assert Shown(d, now + one + rest) == Shown(d, now) + OneShown(d, next, msgs[0]) + Shown(d, rest) by {
        ShownOne(d, next, msgs[0]);
        ShownConcat(d, now + one, rest);
        ShownConcat(d, now, one);
      }
    }
  }

  lemma {:induction false} ReactionsShownIs(d: Display, next: nat, msgs: seq<Msg>, hook: Hook)
    ensures Shown(d, Reactions(next, msgs, hook)) == ReactionsShown(d, next, msgs, hook)
    decreases |msgs|
  {
    if msgs != [] {
      var mid := next + 1 + |Present(hook(msgs[0]))|;
      ReactionsShownIs(d, mid, msgs[1..], hook);
      ShownConcat(d, SentRecords(next + 1, Present(hook(msgs[0]))), Reactions(mid, msgs[1..], hook));
    }
  }

  lemma {:induction false} ReceiptsShownIs(d: Display, next: nat, msgs: seq<Msg>, hook: Hook)
    ensures Shown(d, Receipts(next, msgs, hook)) == ReceiptsShown(d, next, msgs, hook)
    decreases |msgs|
  {
    if msgs != [] {
      var mid := next + 1 + |Present(hook(msgs[0]))|;
      ReceiptsShownIs(d, mid, msgs[1..], hook);
      ShownOne(d, next, msgs[0]);
      ShownConcat(d, [Stored(next, Received, msgs[0])], Receipts(mid, msgs[1..], hook));
    }
  }

  lemma {:induction false} SentShownKind(d: Display, next: nat, msg: Msg, hook: Hook)
    ensures forall k :: 0 <= k < |SentShown(d, next, msg, hook)| ==> SentShown(d, next, msg, hook)[k].kind == Sent
    ensures SentShown(d, next, msg, hook) == [] <==> !ShowsReaction(d, hook, msg)
  {
    SentRecordsNumbers(next + 1, Present(hook(msg)));
    ShownIsSent(d, SentRecords(next + 1, Present(hook(msg))));
    ShownAnyNumber(d, next + 1, 0, Present(hook(msg)));
  }

  lemma {:induction false} ReactionsShownKind(d: Display, next: nat, msgs: seq<Msg>, hook: Hook)
    ensures ReactionsShown(d, next, msgs, hook) != [] ==> ReactionsShown(d, next, msgs, hook)[0].kind == Sent
    ensures ReactionsShown(d, next, msgs, hook) == [] <==> NoneShows(d, msgs, hook)
    decreases |msgs|
  {
    if msgs != [] {
      SentShownKind(d, next, msgs[0], hook);
      ReactionsShownKind(d, next + 1 + |Present(hook(msgs[0]))|, msgs[1..], hook);
      NoneShowsStep(d, msgs, hook);
    }
  }

  /** The displayable parts are reported in the order in which they are stored. */
  ghost predicate PartsInOrder(d: Display, next: nat, msgs: seq<Msg>, hook: Hook) {
    ReportShown(d, next, msgs, hook) == ReactionsShown(d, next, msgs, hook) + ReceiptsShown(d, next, msgs, hook)
  }

  lemma {:induction false} PartsStep(d: Display, next: nat, msgs: seq<Msg>, hook: Hook, mid: nat, later: seq<Stored>)
    requires msgs != [] && mid == next + 1 + |Present(hook(msgs[0]))|
    requires later == ReactionsShown(d, mid, msgs[1..], hook)
    ensures PartsInOrder(d, next, msgs, hook)
            <==> PartsInOrder(d, mid, msgs[1..], hook) && (ShowsReceipt(d, msgs[0]) ==> later == [])
  {
    var now, one := SentShown(d, next, msgs[0], hook), OneShown(d, next, msgs[0]);
    var order, got := ReportShown(d, mid, msgs[1..], hook), ReceiptsShown(d, mid, msgs[1..], hook);
    assert later != [] ==> later[0].kind == Sent by {
      ReactionsShownKind(d, mid, msgs[1..], hook);
    }
    assert now + one + order == now + later + (one + got) <==> order == later + got && (one != [] ==> later == []) by {
      ShownFirst(now, one, order, later, got);
    }
    FirstParts(d, next, msgs, hook);
  }

  lemma {:induction false} FirstParts(d: Display, next: nat, msgs: seq<Msg>, hook: Hook)
    requires msgs != []
    ensures var now, one := SentShown(d, next, msgs[0], hook), OneShown(d, next, msgs[0]);
            var mid, tail := next + 1 + |Present(hook(msgs[0]))|, msgs[1..];
            && ReportShown(d, next, msgs, hook) == now + one + ReportShown(d, mid, tail, hook)
            && ReactionsShown(d, next, msgs, hook) == now + ReactionsShown(d, mid, tail, hook)
            && ReceiptsShown(d, next, msgs, hook) == one + ReceiptsShown(d, mid, tail, hook)
  {
  }

  /** That is so if and only if no displayable reaction comes behind a displayable receipt. */
  lemma {:induction false} PartsInOrderIff(d: Display, next: nat, msgs: seq<Msg>, hook: Hook)
    ensures PartsInOrder(d, next, msgs, hook) <==> Orderly(d, msgs, hook)
    decreases |msgs|
  {
    if msgs != [] {
      var mid, tail := next + 1 + |Present(hook(msgs[0]))|, msgs[1..];
      PartsInOrderIff(d, mid, tail, hook);
      assert ReactionsShown(d, mid, tail, hook) == [] <==> NoneShows(d, tail, hook) by {
        ReactionsShownKind(d, mid, tail, hook);
      }
      OrderlyStep(d, msgs, hook);
      PartsStep(d, next, msgs, hook, mid, ReactionsShown(d, mid, tail, hook));
    }
  }

  /** What is displayable of a received batch is reported in the order in which it is stored if and
      only if no displayable reaction comes behind a displayable receipt. */
  lemma {:induction false} ShownAsStoredIff(d: Display, next: nat, msgs: seq<Msg>, hook: Hook)
    ensures Shown(d, ReportOrder(next, msgs, hook))
            == Shown(d, Reactions(next, msgs, hook)) + Shown(d, Receipts(next, msgs, hook))
            <==> Orderly(d, msgs, hook)
  {
    ReportShownIs(d, next, msgs, hook);
    ReactionsShownIs(d, next, msgs, hook);
    ReceiptsShownIs(d, next, msgs, hook);
    PartsInOrderIff(d, next, msgs, hook);
  }

  lemma {:induction false} ShownFirst(
    now: seq<Stored>, one: seq<Stored>, order: seq<Stored>, later: seq<Stored>, got: seq<Stored>)
    requires |one| <= 1 && (one != [] ==> one[0].kind == Received)
    requires later != [] ==> later[0].kind == Sent
    ensures now + one + order == now + later + (one + got)
            <==> order == later + got && (one != [] ==> later == [])
  {
    if one == [] {
      assert now + one + order == now + order && now + later + (one + got) == now + (later + got);
      SameTail(now, order, later + got);
    } else if later == [] {
      assert now + later + (one + got) == now + one + got && later + got == got;
      SameTail(now + one, order, got);
    } else {
      assert (now + one + order)[|now|] == one[0] && (now + later + (one + got))[|now|] == later[0];
    }
  }

  lemma {:induction false} SameTail(store: seq<Stored>, a: seq<Stored>, b: seq<Stored>)
    ensures store + a == store + b <==> a == b
  {
    assert (store + a)[|store|..] == a && (store + b)[|store|..] == b;
  }

  /** An operation that the display can follow. */
  ghost predicate Followed(d: Display, op: Op, hook: Hook) {
    !op.Delete? && !op.DeleteAll? && (op.Arrive? ==> Orderly(d, op.msgs, hook))
  }

  lemma {:induction false} ApplyAppends<S>(d: Display, m: Mgr<S>, op: Op, hook: Hook)
    returns (records: seq<Stored>, order: seq<Stored>)
    requires Followed(d, op, hook)
    ensures Appends(d, m, Apply(m, op, hook), records, order)
  {
    match op {
      case Send(os) =>
        SendReports(m, os);
        SendRecordsAll(m, os);
        records := SentRecords(m.next, Present(os));
        order := records;
      case Arrive(msgs) =>
        records := Reactions(m.next, msgs, hook) + Receipts(m.next, msgs, hook);
        order := ReportOrder(m.next, msgs, hook);
        ArrivalAppends(m, msgs, hook);
        ShownAsStoredIff(d, m.next, msgs, hook);
        ShownConcat(d, Reactions(m.next, msgs, hook), Receipts(m.next, msgs, hook));
      case Add(ms) =>
        AddReports(m, ms);
        AddRecords(m, ms);
        records := LoadedRecords(m.next, ms);
        order := records;
    }
  }

  lemma {:induction false} ArrivalAppends<S>(m: Mgr<S>, msgs: seq<Msg>, hook: Hook)
    ensures var r := Receive(m, msgs, hook);
            && r.store == m.store + (Reactions(m.next, msgs, hook) + Receipts(m.next, msgs, hook))
            && r.reported == m.reported + ReportOrder(m.next, msgs, hook)
  {
    var sent, got := Reactions(m.next, msgs, hook), Receipts(m.next, msgs, hook);
    ReceiveReports(m, msgs, hook);
    ReceiveRecords(m, msgs, hook);
    Assoc(m.store, sent, got);
  }

  // ---------------------------------------------------------------------------
  // The shown list is always the filtered store

  ghost predicate InStep<S>(g: Gui<S>) {
    && g.shown == Shown(g.display, g.mgr.store)
    && g.count == |g.shown|
    && Numbered(g.mgr)
  }

  lemma {:induction false} MsgsAddedShown<S>(g: Gui<S>, reported: seq<Stored>)
    ensures var r := MsgsAdded(g, reported);
            && r.shown == g.shown + Shown(g.display, reported)
            && r.count == g.count + |Shown(g.display, reported)|
            && r.mgr == g.mgr && r.display == g.display
    decreases |reported|
  {
    if reported == [] {
      NoneRight(g.shown);
    } else {
      MsgsAddedShown(MsgAdded(g, reported[0]), reported[1..]);
      var rest := Shown(g.display, reported[1..]);
      Assoc(g.shown, [reported[0]], rest);
      NoneLeft(rest);
    }
  }

  lemma {:induction false} RefreshInStep<S>(g: Gui<S>)
    requires Numbered(g.mgr)
    ensures InStep(Refresh(g)) && Refresh(g).mgr == g.mgr && Refresh(g).display == g.display
  {
    var emptied := g.(shown := [], count := 0);
    MsgsAddedShown(emptied, g.mgr.store);
    NoneLeft(Shown(g.display, g.mgr.store));
  }

  lemma {:induction false} HearInStep<S>(g: Gui<S>, m: Mgr<S>, records: seq<Stored>, order: seq<Stored>)
    requires InStep(g) && Appends(g.display, g.mgr, m, records, order) && Numbered(m)
    ensures InStep(Hear(g, m))
  {
    assert m.reported[|g.mgr.reported|..] == order;
    MsgsAddedShown(g.(mgr := m), order);
    ShownConcat(g.display, g.mgr.store, records);
  }

  /** Clearing the displayed list leaves in the store exactly the messages that were not
      displayed, in order; the shortcut for lists as long as the store agrees with the general
      way. */
  lemma {:induction false} ClearLeavesHidden<S>(g: Gui<S>)
    requires InStep(g)
    ensures ClearList(g).mgr.store == Hidden(g.display, g.mgr.store)
    ensures |g.mgr.store| == |g.shown| ==> DeletePass(g.mgr.store, Nums(g.shown)) == []
    ensures InStep(ClearList(g))
  {
    var store := g.mgr.store;
    DeleteShown(g.display, store);
    ShownInStore(g.display, store);
    HiddenNotShown(g.display, store);
    ShownPlusHidden(g.display, store);
    DeleteBelow(store, Nums(g.shown), g.mgr.next);
    DeleteDistinct(store, Nums(g.shown));
  }

  lemma {:induction false} ShownPlusHidden(d: Display, store: seq<Stored>)
    ensures |Shown(d, store)| + |Hidden(d, store)| == |store|
  {
    if store != [] {
      ShownPlusHidden(d, store[1..]);
    }
  }

  lemma {:induction false} WithoutShown(d: Display, store: seq<Stored>, list: seq<nat>)
    ensures Shown(d, Without(store, list)) == Without(Shown(d, store), list)
  {
    if store != [] {
      WithoutShown(d, store[1..], list);
      var kept, rest := Without(store[1..], list), Shown(d, store[1..]);
      assert ([store[0]] + kept)[1..] == kept && [] + kept == kept;
      assert ([store[0]] + rest)[1..] == rest && [] + rest == rest;
    }
  }

  lemma {:induction false} ShownDistinct(d: Display, store: seq<Stored>)
    requires Distinct(store)
    ensures Distinct(Shown(d, store))
  {
    if store != [] {
      DistinctTail(store);
      ShownDistinct(d, store[1..]);
      ShownInStore(d, store[1..]);
      KeptBehindHead(store, Shown(d, store[1..]));
    }
  }

  /** Deleting one displayed message removes its row and nothing else. */
  lemma {:induction false} DeleteOneShown(d: Display, store: seq<Stored>, row: nat)
    requires Distinct(store) && row < |Shown(d, store)|
    ensures var shown := Shown(d, store);
            Shown(d, DeletePass(store, [shown[row].num])) == shown[..row] + shown[row + 1..]
  {
    var shown := Shown(d, store);
    var num := shown[row].num;
    ShownDistinct(d, store);
    DeleteOneExact(store, num);
    DeleteOneExact(shown, num);
    WithoutShown(d, store, [num]);
    DeleteFirst(shown, row, num);
  }

  lemma {:induction false} FilterIrrelevant(d: Display, e: Display, store: seq<Stored>)
    requires forall s :: d.CanAdd(s) == e.CanAdd(s)
    ensures Shown(d, store) == Shown(e, store)
  {
    if store != [] {
      FilterIrrelevant(d, e, store[1..]);
    }
  }

  /** The event can happen in this state: deletion goes through the viewer, and a message is
      deleted by its row. */
  ghost predicate Possible<S>(g: Gui<S>, e: Event) {
    match e
    case Store(op) => !op.Delete? && !op.DeleteAll?
    case DeleteSelected(row) => row < |g.shown|
    case _ => true
  }

  /** An arrival to which the protocol does not react, behind a displayable receipt, in a way that
      is displayed; or any other event. */
  ghost predicate OrderlyEvent<S>(g: Gui<S>, e: Event, hook: Hook) {
    e.Store? && e.op.Arrive? ==> Orderly(g.display, e.op.msgs, hook)
  }

  /** Every orderly event keeps the shown list equal to the displayable part of the store. */
  lemma {:induction false} HandleInStep<S>(g: Gui<S>, e: Event, hook: Hook)
    requires InStep(g) && Possible(g, e) && OrderlyEvent(g, e, hook)
    ensures InStep(Handle(g, e, hook))
  {
    match e {
      case Store(op) =>
        var records, order := ApplyAppends(g.display, g.mgr, op, hook);
        ApplyNumbers(g.mgr, op, hook);
        HearInStep(g, Apply(g.mgr, op, hook), records, order);
      case Clear =>
        ClearLeavesHidden(g);
      case DeleteSelected(row) =>
        DeleteOneShown(g.display, g.mgr.store, row);
        DeleteBelow(g.mgr.store, [g.shown[row].num], g.mgr.next);
        DeleteDistinct(g.mgr.store, [g.shown[row].num]);
      case Toggle(mode, checked) =>
        RefreshInStep(g.(display := g.display.SetMode(mode, checked)));
      case HideList(filtered) =>
        var h := g.(display := g.display.(filtered := filtered));
        if ApplyFilter in h.display.mask {
          RefreshInStep(h);
        } else {
          FilterIrrelevant(g.display, h.display, g.mgr.store);
        }
      case LoadFile(ms) =>
        LoadInStep(g, ms);
    }
  }

  lemma {:induction false} LoadInStep<S>(g: Gui<S>, ms: seq<Option<Loaded>>)
    requires InStep(g)
    ensures InStep(LoadList(g, ms))
  {
    var emptied := g.(mgr := g.mgr.(store := []), shown := [], count := 0);
    var records := LoadedRecords(emptied.mgr.next, ms);
    AddReports(emptied.mgr, ms);
    AddRecords(emptied.mgr, ms);
    AddNumbers(emptied.mgr, ms);
    HearInStep(emptied, AddList(emptied.mgr, ms), records, records);
  }

  lemma {:induction false} ArrivalHandled<S>(g: Gui<S>, msgs: seq<Msg>, hook: Hook)
    ensures var h := Handle(g, Store(Arrive(msgs)), hook);
            && h.shown == g.shown + Shown(g.display, ReportOrder(g.mgr.next, msgs, hook))
            && h.mgr.store == g.mgr.store + (Reactions(g.mgr.next, msgs, hook) + Receipts(g.mgr.next, msgs, hook))
            && h.display == g.display
  {
    var m := Receive(g.mgr, msgs, hook);
    var order := ReportOrder(g.mgr.next, msgs, hook);
    ArrivalAppends(g.mgr, msgs, hook);
    assert m.reported[|g.mgr.reported|..] == order;
    MsgsAddedShown(g.(mgr := m), order);
  }

  /** Under any display, an arrival keeps the shown list in step if and only if no displayable
      reaction comes behind a displayable receipt. */
  lemma {:induction false} ArrivalInStepIff<S>(g: Gui<S>, msgs: seq<Msg>, hook: Hook)
    requires InStep(g)
    ensures InStep(Handle(g, Store(Arrive(msgs)), hook)) <==> Orderly(g.display, msgs, hook)
  {
    if Orderly(g.display, msgs, hook) {
      HandleInStep(g, Store(Arrive(msgs)), hook);
    } else {
      ArrivalOutOfStep(g, msgs, hook);
    }
  }

  lemma {:induction false} ArrivalOutOfStep<S>(g: Gui<S>, msgs: seq<Msg>, hook: Hook)
    requires InStep(g) && !Orderly(g.display, msgs, hook)
    ensures var h := Handle(g, Store(Arrive(msgs)), hook); h.shown != Shown(h.display, h.mgr.store)
  {
    var d, next := g.display, g.mgr.next;
    var order, sent, got := ReportOrder(next, msgs, hook), Reactions(next, msgs, hook), Receipts(next, msgs, hook);
    ArrivalHandled(g, msgs, hook);
    ShownAsStoredIff(d, next, msgs, hook);
    ShownConcat(d, g.mgr.store, sent + got);
    ShownConcat(d, sent, got);
    SameTail(g.shown, Shown(d, order), Shown(d, sent) + Shown(d, got));
  }

  // ---------------------------------------------------------------------------
  // Whole runs

  /** Every event of the run can happen when its turn comes. */
  ghost predicate PossibleRun<S>(g: Gui<S>, events: seq<Event>, hook: Hook)
    decreases |events|
  {
    events == []
    || (Possible(g, events[0]) && PossibleRun(Handle(g, events[0], hook), events[1..], hook))
  }

  /** Every event of the run is orderly under the display of its turn. */
  ghost predicate OrderlyRun<S>(g: Gui<S>, events: seq<Event>, hook: Hook)
    requires PossibleRun(g, events, hook)
    decreases |events|
  {
    events == []
    || (OrderlyEvent(g, events[0], hook) && OrderlyRun(Handle(g, events[0], hook), events[1..], hook))
  }

  /** The shown list is in step before, between and after all events of the run. */
  ghost predicate InStepThroughout<S>(g: Gui<S>, events: seq<Event>, hook: Hook)
    requires PossibleRun(g, events, hook)
    decreases |events|
  {
    InStep(g) && (events != [] ==> InStepThroughout(Handle(g, events[0], hook), events[1..], hook))
  }

  /** Over any run of sends, arrivals, loads, clicks, toggles and filter changes, the viewer shows
      exactly the displayable part of the store at all times if and only if every arrival is
      orderly under the display of its time. */
  lemma {:induction false} RunInStepIff<S>(g: Gui<S>, events: seq<Event>, hook: Hook)
    requires InStep(g) && PossibleRun(g, events, hook)
    ensures InStepThroughout(g, events, hook) <==> OrderlyRun(g, events, hook)
    decreases |events|
  {
    if events != [] {
      var e, rest := events[0], events[1..];
      var h := Handle(g, e, hook);
      if OrderlyEvent(g, e, hook) {
        HandleInStep(g, e, hook);
        RunInStepIff(h, rest, hook);
      } else {
        ArrivalInStepIff(g, e.op.msgs, hook);
        assert !InStepThroughout(h, rest, hook);
      }
    }
  }

  /** In particular a protocol that never reacts keeps every run in step. */
  lemma {:induction false} SilentRunInStep<S>(g: Gui<S>, events: seq<Event>, hook: Hook)
    requires InStep(g) && PossibleRun(g, events, hook)
    requires forall msg {:trigger hook(msg)} :: Present(hook(msg)) == []
    ensures InStepThroughout(g, events, hook)
  {
    SilentOrderly(g, events, hook);
    RunInStepIff(g, events, hook);
  }

  lemma {:induction false} SilentOrderly<S>(g: Gui<S>, events: seq<Event>, hook: Hook)
    requires PossibleRun(g, events, hook)
    requires forall msg {:trigger hook(msg)} :: Present(hook(msg)) == []
    ensures OrderlyRun(g, events, hook)
    decreases |events|
  {
    if events != [] {
      assert forall msg :: !ShowsReaction(g.display, hook, msg);
      SilentOrderly(Handle(g, events[0], hook), events[1..], hook);
    }
  }

  /** A display that shows received but not sent messages stays in step whatever the protocol
      sends in reaction, as long as that has an id text. */
  lemma {:induction false} HidingSentInStep<S>(g: Gui<S>, msgs: seq<Msg>, hook: Hook)
    requires InStep(g) && ShowSent !in g.display.mask
    requires forall msg: Msg {:trigger g.display.text(msg)} :: g.display.text(msg) != ""
    ensures InStep(Handle(g, Store(Arrive(msgs)), hook))
  {
    forall k | 0 <= k < |msgs| ensures !ShowsReaction(g.display, hook, msgs[k]) {
      SentHidden(g.display, 0, Present(hook(msgs[k])));
    }
    ArrivalInStepIff(g, msgs, hook);
  }

  lemma {:induction false} SentHidden(d: Display, next: nat, os: seq<Outgoing>)
    requires ShowSent !in d.mask
    requires forall msg: Msg {:trigger d.text(msg)} :: d.text(msg) != ""
    ensures Shown(d, SentRecords(next, os)) == []
    decreases |os|
  {
    if os != [] {
      SentHidden(d, next + 1, os[1..]);
      assert SentRecords(next, os)[1..] == SentRecords(next + 1, os[1..]);
    }
  }

  // ---------------------------------------------------------------------------
  // What single events do

  lemma {:induction false} ShownMembers(d: Display, store: seq<Stored>, s: Stored)
    ensures s in Shown(d, store) <==> s in store && d.CanAdd(s)
  {
    if store != [] {
      ShownMembers(d, store[1..], s);
      assert store == [store[0]] + store[1..];
    }
  }

  /** What decides about a message with an id text besides the switch for its kind. */
  predicate FilterAllows(d: Display, s: Stored) {
    ApplyFilter in d.mask ==> d.desc(s.msg) !in d.filtered
  }

  /** After a switch the list holds the messages the switch is about if and only if it is on, and of
      the others those it would have held before. */
  ghost predicate Switched(d: Display, store: seq<Stored>, mode: RecvListMode, on: bool, s: Stored, listed: bool) {
    match mode
    case ShowSent =>
      if s.kind == Sent && d.text(s.msg) != "" then FilterAllows(d, s) ==> (listed <==> on && s in store)
      else listed <==> s in store && d.CanAdd(s)
    case ShowReceived =>
      if s.kind == Received && d.text(s.msg) != "" then FilterAllows(d, s) ==> (listed <==> on && s in store)
      else listed <==> s in store && d.CanAdd(s)
    case ShowGarbage =>
      if d.text(s.msg) == "" then listed <==> on && s in store
      else listed <==> s in store && d.CanAdd(s)
    case ApplyFilter =>
      if d.text(s.msg) == "" then listed <==> s in store && d.CanAdd(s)
      else listed <==> && s in store && (if s.kind == Sent then ShowSent in d.mask else ShowReceived in d.mask)
                       && (on ==> d.desc(s.msg) !in d.filtered)
  }

  lemma {:induction false} ToggleShows<S>(g: Gui<S>, mode: RecvListMode, checked: bool, hook: Hook, s: Stored)
    requires SortedText(g.display.filtered)
    ensures Switched(g.display, g.mgr.store, mode, checked, s, s in Handle(g, Toggle(mode, checked), hook).shown)
  {
    var d := g.display.SetMode(mode, checked);
    MsgsAddedShown(g.(display := d, shown := [], count := 0), g.mgr.store);
    NoneLeft(Shown(d, g.mgr.store));
    ShownMembers(d, g.mgr.store, s);
    SetModeMeaning(g.display, mode, checked);
    CanAddMeaning(d, s);
    CanAddMeaning(g.display, s);
  }

  /** A new filter list is the filter list from then on; besides it only the switches change what is
      displayable. */
  lemma {:induction false} HandleDisplay<S>(g: Gui<S>, e: Event, hook: Hook)
    requires Possible(g, e)
    ensures var r := Handle(g, e, hook).display;
            match e
            case HideList(filtered) => r == g.display.(filtered := filtered)
            case Toggle(mode, checked) =>
              r.filtered == g.display.filtered && (mode in r.mask <==> checked)
              && forall m :: m != mode ==> (m in r.mask <==> m in g.display.mask)
            case _ => r == g.display
  {
    match e {
      case Store(op) =>
        ApplyReports(g.mgr, op, hook);
        var m := Apply(g.mgr, op, hook);
        MsgsAddedShown(g.(mgr := m), m.reported[|g.mgr.reported|..]);
      case Toggle(mode, checked) =>
        MsgsAddedShown(g.(display := g.display.SetMode(mode, checked), shown := [], count := 0), g.mgr.store);
      case HideList(filtered) =>
        MsgsAddedShown(g.(display := g.display.(filtered := filtered), shown := [], count := 0), g.mgr.store);
      case LoadFile(ms) =>
        var emptied := g.(mgr := g.mgr.(store := []), shown := [], count := 0);
        AddReports(emptied.mgr, ms);
        var m := AddList(emptied.mgr, ms);
        MsgsAddedShown(emptied.(mgr := m), m.reported[|g.mgr.reported|..]);
      case _ =>
    }
  }

  /** A loaded file replaces the store by what was taken in from it, and the list by what of that is
      displayable; numbers go on. */
  lemma {:induction false} LoadFileReplaces<S>(g: Gui<S>, ms: seq<Option<Loaded>>, hook: Hook)
    returns (ks: seq<nat>, rs: seq<Stored>)
    ensures Places(ms, ks) && TakenIn(ms, ks, g.mgr.next, rs)
    ensures var r := Handle(g, LoadFile(ms), hook);
            r.mgr.store == rs && r.mgr.next == g.mgr.next + |rs| && r.shown == Shown(g.display, rs)
  {
    ks, rs := LoadTakes(g.mgr.(store := []), ms);
    NoneLeft(rs);
    ReplacedBy(g, ms, hook, rs);
  }

  lemma {:induction false} ReplacedBy<S>(g: Gui<S>, ms: seq<Option<Loaded>>, hook: Hook, rs: seq<Stored>)
    requires var m := AddList(g.mgr.(store := []), ms);
             m.store == rs && m.next == g.mgr.next + |rs| && m.reported == g.mgr.reported + rs
    ensures var r := Handle(g, LoadFile(ms), hook);
            r.mgr.store == rs && r.mgr.next == g.mgr.next + |rs| && r.shown == Shown(g.display, rs)
  {
    var emptied := g.(mgr := g.mgr.(store := []), shown := [], count := 0);
    HearAppended(emptied, AddList(emptied.mgr, ms), rs);
  }

  lemma {:induction false} HearAppended<S>(g: Gui<S>, m: Mgr<S>, rs: seq<Stored>)
    requires m.reported == g.mgr.reported + rs && g.shown == []
    ensures Hear(g, m).mgr == m && Hear(g, m).shown == Shown(g.display, rs)
  {
    assert m.reported[|g.mgr.reported|..] == rs;
    MsgsAddedShown(g.(mgr := m), rs);
    NoneLeft(Shown(g.display, rs));
  }
}
