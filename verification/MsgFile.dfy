/** Saving and loading message lists (lib/src/ToolsMsgFileMgr.cpp), at the level of the property
    maps the file holds. */
module MsgFile {
  import opened Wrappers
  import opened Bytes
  import opened HexCodec
  import opened IdText
  import opened MsgFactory
  import opened Seqs

  /** A message object: which prototype it is, none for an invalid message; its index property; the
      data it encodes to, or its raw data; its other properties.  Properties that are not set read
      as zero or empty, the repeat count as given by the reader. */
  datatype Object = Object(
    pos: Option<nat>, idx: nat, data: Data,
    delay: nat, delayUnits: string,
    period: nat, periodUnits: string, count: Option<nat>,
    comment: string, extra: map<string, string>,
    timestamp: nat, kind: nat)

  /** A property map of a file.  A key that is missing reads as zero or empty. */
  datatype FileMsg = FileMsg(
    id: string, msgIdx: nat, data: string,
    delay: nat, delayUnits: string,
    repeat: nat, repeatUnits: string, repeatCount: nat,
    comment: string, extra: map<string, string>,
    timestamp: nat, kind: nat)

  const WORD: nat := 0x1_0000_0000_0000_0000

  /** The id text of a message. */
  function TextOf(f: Factory, o: Object): string {
    match o.pos
    case None => f.invalidText
    case Some(p) => if p < |f.table| then f.table[p].text else ""
  }

  function SaveSendOne(f: Factory, o: Object): FileMsg {
    FileMsg(TextOf(f, o), o.idx, Encode(o.data), o.delay, o.delayUnits, o.period, o.periodUnits,
            o.count.GetOr(1), o.comment, o.extra, 0, 0)
  }

  function SaveSend(f: Factory, os: seq<Object>): (r: seq<Option<FileMsg>>)
    ensures |r| == |os|
  {
    if os == [] then [] else [Some(SaveSendOne(f, os[0]))] + SaveSend(f, os[1..])
  }

  function SaveRecvOne(f: Factory, o: Object): FileMsg {
    var text := TextOf(f, o);
    FileMsg(text, if text == "" then 0 else o.idx, Encode(o.data), 0, "", 0, "", 0,
            o.comment, o.extra, o.timestamp, o.kind)
  }

  /** A message without id text and data leaves no entry in a receive list. */
  function SaveRecv(f: Factory, os: seq<Object>): seq<Option<FileMsg>> {
    if os == [] then []
    else (if TextOf(f, os[0]) == "" && Encode(os[0].data) == "" then [] else [Some(SaveRecvOne(f, os[0]))])
         + SaveRecv(f, os[1..])
  }

  /** The object of an entry, if there is one: entries that are no property maps, entries without
      id and data, and data no message with the id decodes give none. */
  function LoadObject(f: Factory, entry: Option<FileMsg>): Option<Object> {
    if entry == None then None
    else
      var fm := entry.value;
      if fm.id == "" && fm.data == "" then None
      else if fm.id == "" then Some(Object(None, 0, Decode(fm.data), 0, "", 0, "", None, "", fm.extra, 0, 0))
      else
        match Find(f, fm.id, fm.msgIdx, Decode(fm.data))
        case None => None
        case Some(m) => Some(Object(Some(m.pos), m.idx, m.data, 0, "", 0, "", None, "", fm.extra, 0, 0))
  }

  /** The delay of a loaded message and the timestamp the next one is compared with.  Only an entry
      without any send properties takes its delay from timestamps; the difference is unsigned. */
  function LoadDelay(fm: FileMsg, prev: nat): (r: (nat, nat)) {
    if fm.repeat != 0 || fm.repeatCount != 0 || fm.delay != 0 || fm.timestamp == 0 then (fm.delay, prev)
    else
      var since := if prev == 0 then fm.timestamp else prev;
      var delay := (fm.timestamp - since) % WORD;
      if delay == 0 then (0, since) else (delay, fm.timestamp)
  }

  function LoadCount(fm: FileMsg): nat {
    if fm.repeat == 0 && fm.repeatCount == 0 then 1 else fm.repeatCount
  }

  function LoadSendOne(o: Object, fm: FileMsg, delay: nat): Object {
    o.(delay := delay, delayUnits := fm.delayUnits, period := fm.repeat, periodUnits := fm.repeatUnits,
       count := Some(LoadCount(fm)), comment := fm.comment)
  }

  /** An entry and the object made from it. */
  datatype Loaded = Loaded(obj: Object, entry: FileMsg)

  /** The entries an object can be made from, in order. */
  function Loadable(f: Factory, entries: seq<Option<FileMsg>>): seq<Loaded>
    decreases |entries|
  {
    if entries == [] then []
    else
      match LoadObject(f, entries[0])
      case None => Loadable(f, entries[1..])
      case Some(o) => [Loaded(o, entries[0].value)] + Loadable(f, entries[1..])
  }

  /** Give loaded objects their send properties. */
  function Timed(ls: seq<Loaded>, prev: nat): seq<Object>
    decreases |ls|
  {
    if ls == [] then []
    else
      var (delay, next) := LoadDelay(ls[0].entry, prev);
      [LoadSendOne(ls[0].obj, ls[0].entry, delay)] + Timed(ls[1..], next)
  }

  function LoadSend(f: Factory, entries: seq<Option<FileMsg>>): seq<Object> {
    Timed(Loadable(f, entries), 0)
  }

  /** Entries without a timestamp do not come from a receive list. */
  function LoadRecv(f: Factory, entries: seq<Option<FileMsg>>): seq<Object>
    decreases |entries|
  {
    if entries == [] then []
    else
      var rest := LoadRecv(f, entries[1..]);
      match LoadObject(f, entries[0])
      case None => rest
      case Some(o) =>
        var fm := entries[0].value;
        if fm.timestamp == 0 then rest
        else [o.(timestamp := fm.timestamp, kind := fm.kind, comment := fm.comment)] + rest
  }

  // ---------------------------------------------------------------------------
  // The loops

  method ConvertToSendList(f: Factory, os: seq<Object>) returns (entries: seq<Option<FileMsg>>)
    ensures entries == SaveSend(f, os)
  {
    entries := [];
    for k := 0 to |os|
      invariant entries + SaveSend(f, os[k..]) == SaveSend(f, os)
    {
      NextOf(os, k);
      ghost var before := entries;
      entries := entries + [Some(SaveSendOne(f, os[k]))];
      assert before + SaveSend(f, os[k..]) == entries + SaveSend(f, os[k + 1..]);
    }
    assert os[|os|..] == [];
  }

  method ConvertFromSendList(f: Factory, entries: seq<Option<FileMsg>>) returns (os: seq<Object>)
    ensures os == LoadSend(f, entries)
  {
    os := [];
    var prevTimestamp := 0;
    for k := 0 to |entries|
      invariant os + Timed(Loadable(f, entries[k..]), prevTimestamp) == LoadSend(f, entries)
    {
      NextOf(entries, k);
      var msg := CreateMsgObject(f, entries[k]);
      if msg == None {
        continue;
      }
      ghost var before := os;
      var fm := entries[k].value;
      FirstLoaded(f, entries[k..], prevTimestamp, before);
      var delay, repeatCount;
      delay, repeatCount, prevTimestamp := Timing(fm, prevTimestamp);
      os := os + [msg.value.(
        delay := delay, delayUnits := fm.delayUnits, period := fm.repeat, periodUnits := fm.repeatUnits,
        count := Some(repeatCount), comment := fm.comment)];
    }
    assert entries[|entries|..] == [];
  }

  lemma {:induction false} FirstLoaded(f: Factory, entries: seq<Option<FileMsg>>, prev: nat, front: seq<Object>)
    requires entries != [] && LoadObject(f, entries[0]).Some?
    ensures var fm := entries[0].value;
            var (delay, next) := LoadDelay(fm, prev);
            front + Timed(Loadable(f, entries), prev)
            == front + [LoadSendOne(LoadObject(f, entries[0]).value, fm, delay)]
               + Timed(Loadable(f, entries[1..]), next)
  {
    assert Loadable(f, entries)[1..] == Loadable(f, entries[1..]);
  }

  method ConvertToRecvList(f: Factory, os: seq<Object>) returns (entries: seq<Option<FileMsg>>)
    ensures entries == SaveRecv(f, os)
  {
    entries := [];
    for k := 0 to |os|
      invariant entries + SaveRecv(f, os[k..]) == SaveRecv(f, os)
    {
      NextOf(os, k);
      FirstSaved(f, os[k..], entries);
      var data := EncodeMsgData(os[k].data);
      if TextOf(f, os[k]) != "" || data != "" {
        entries := entries + [Some(SaveRecvOne(f, os[k]))];
      }
    }
    assert os[|os|..] == [];
  }

  lemma {:induction false} FirstSaved(f: Factory, os: seq<Object>, front: seq<Option<FileMsg>>)
    requires os != []
    ensures var kept := TextOf(f, os[0]) != "" || Encode(os[0].data) != "";
            front + SaveRecv(f, os)
            == (if kept then front + [Some(SaveRecvOne(f, os[0]))] else front) + SaveRecv(f, os[1..])
  {
    var rest, one := SaveRecv(f, os[1..]), Some(SaveRecvOne(f, os[0]));
    Assoc(front, [one], rest);
    NoneLeft(rest);
  }

  method ConvertFromRecvList(f: Factory, entries: seq<Option<FileMsg>>) returns (os: seq<Object>)
    ensures os == LoadRecv(f, entries)
  {
    os := [];
    for k := 0 to |entries|
      invariant os + LoadRecv(f, entries[k..]) == LoadRecv(f, entries)
    {
      NextOf(entries, k);
      ghost var before, rest := os, LoadRecv(f, entries[k + 1..]);
      var msg := CreateMsgObject(f, entries[k]);
      if msg.Some? && entries[k].value.timestamp != 0 {
        var fm := entries[k].value;
        os := os + [msg.value.(timestamp := fm.timestamp, kind := fm.kind, comment := fm.comment)];
      }
      assert before + LoadRecv(f, entries[k..]) == os + rest;
    }
    assert entries[|entries|..] == [];
  }

  method Timing(fm: FileMsg, prev: nat) returns (delay: nat, repeatCount: nat, prevTimestamp: nat)
    ensures (delay, prevTimestamp) == LoadDelay(fm, prev) && repeatCount == LoadCount(fm)
  {
    delay, repeatCount, prevTimestamp := fm.delay, fm.repeatCount, prev;
    if fm.repeat == 0 && repeatCount == 0 {
      repeatCount := 1;
      if delay != 0 || fm.timestamp == 0 {
        return;
      }
      if prevTimestamp == 0 {
        prevTimestamp := fm.timestamp;
      }
      var delayTmp := (fm.timestamp - prevTimestamp) % WORD;
      if delayTmp <= 0 {
        return;
      }
      prevTimestamp := fm.timestamp;
      delay := delayTmp;
    }
  }

  /** The delay of an entry and the timestamp the next one is measured from: an entry with a delay, a
      period or a count of its own keeps that delay and does not count as a recording; the first
      recording has no delay; any other is as late as it was after the one before. */
  lemma {:induction false} DelayCases(fm: FileMsg, prev: nat)
    requires fm.timestamp < 0x1_0000_0000_0000_0000 && prev < 0x1_0000_0000_0000_0000
    ensures fm.delay != 0 || fm.repeat != 0 || fm.repeatCount != 0 || fm.timestamp == 0
            ==> LoadDelay(fm, prev) == (fm.delay, prev)
    ensures fm.delay == fm.repeat == fm.repeatCount == 0 && fm.timestamp != 0
            ==> LoadDelay(fm, prev)
                == (if prev == 0 then 0
                    else if prev <= fm.timestamp then fm.timestamp - prev
                    else 0x1_0000_0000_0000_0000 - (prev - fm.timestamp), fm.timestamp)
  {
  }

  method CreateMsgObject(f: Factory, entry: Option<FileMsg>) returns (msg: Option<Object>)
    ensures msg == LoadObject(f, entry)
  {
    if entry == None {
      return None;
    }
    var fm := entry.value;
    if fm.id == "" && fm.data == "" {
      return None;
    }
    var data := DecodeMsgData(fm.data);
    if fm.id == "" {
      return Some(Object(None, 0, data, 0, "", 0, "", None, "", fm.extra, 0, 0));
    }
    var found := FindMessage(f, fm.id, fm.msgIdx, data);
    match found {
      case None => msg := None;
      case Some(m) => msg := Some(Object(Some(m.pos), m.idx, m.data, 0, "", 0, "", None, "", fm.extra, 0, 0));
    }
  }

  // ---------------------------------------------------------------------------
  // Round trips

  /** The search of a load, given the stored index, goes on up to index `n`. */
  ghost predicate SearchedUpTo(f: Factory, text: string, idx: nat, data: Data, n: nat) {
    if idx != 0 && Accepted(f, text, idx, data) then n == idx
    else forall k: nat :: k < n ==> !Accepted(f, text, k, data)
  }

  /** Saving and loading keeps what the message is.  An invalid message has no id text and some
      data.  Any other has a text that reads back as its id, its data decodes to itself, and no
      message with the same id that is tried before it decodes that data too. */
  ghost predicate Faithful(f: Factory, o: Object) {
    match o.pos
    case None => f.invalidText == "" && o.data != []
    case Some(p) =>
      && p < |f.table|
      && ParseId(f.table[p].text) == Some(f.table[p].id)
      && f.table[p].decode(o.data) == Some(o.data)
      && SearchedUpTo(f, f.table[p].text, o.idx, o.data, RunBefore(f.table, p))
  }

  /** The index a message has when it was loaded: how many with its id stand before it. */
  function LoadedIdx(f: Factory, o: Object): nat {
    match o.pos
    case None => 0
    case Some(p) => if p < |f.table| then RunBefore(f.table, p) else 0
  }

  lemma {:induction false} EncodeEmpty(data: Data)
    ensures Encode(data) == "" <==> data == []
  {
  }

  /** The search finds a prototype, with the data kept, exactly under these conditions. */
  lemma {:induction false} FindsIff(f: Factory, p: nat, idx: nat, data: Data)
    requires SortedById(f.table) && p < |f.table|
    ensures var text, n := f.table[p].text, RunBefore(f.table, p);
            Find(f, text, idx, data) == Some(Match(p, n, data))
            <==> && ParseId(text) == Some(f.table[p].id)
                 && f.table[p].decode(data) == Some(data)
                 && SearchedUpTo(f, text, idx, data, n)
  {
    var text, n := f.table[p].text, RunBefore(f.table, p);
    FindPicks(f, text, idx, data);
    FoundAt(f.table, p, n);
    if ParseId(text) == Some(f.table[p].id) && f.table[p].decode(data) == Some(data) {
      assert Create(f, text, n) == Some(p) && Accepted(f, text, n, data);
      var m := Find(f, text, idx, data).value;
      if m.idx < n && !(idx != 0 && Accepted(f, text, idx, data)) {
        assert Accepted(f, text, m.idx, data);
      }
    } else if Find(f, text, idx, data) == Some(Match(p, n, data)) {
      FoundHasId(f.table, ParseId(text).value, n, p);
    }
  }

  /** Whatever index it is found at, that index is its place among the messages with its id. */
  lemma {:induction false} FoundIdx(f: Factory, p: nat, idx: nat, data: Data)
    requires SortedById(f.table) && p < |f.table|
    requires Find(f, f.table[p].text, idx, data).Some? && Find(f, f.table[p].text, idx, data).value.pos == p
    ensures Find(f, f.table[p].text, idx, data).value.idx == RunBefore(f.table, p)
  {
    var m := Find(f, f.table[p].text, idx, data).value;
    FindPicks(f, f.table[p].text, idx, data);
    FoundHasId(f.table, ParseId(f.table[p].text).value, m.idx, p);
    FoundAt(f.table, p, m.idx);
  }

  /** The entry holds what is saved of the message itself. */
  predicate SavedAs(f: Factory, o: Object, fm: FileMsg) {
    && fm.id == TextOf(f, o) && fm.data == Encode(o.data) && fm.extra == o.extra
    && (fm.id != "" ==> fm.msgIdx == o.idx)
  }

  /** The load gives the same message again: same prototype, same data. */
  predicate SameMessage(o: Object, r: Option<Object>) {
    r.Some? && r.value.pos == o.pos && r.value.data == o.data
  }

  /** A saved message comes back as the same message if and only if it is faithful. */
  lemma {:induction false} ObjectKeptIff(f: Factory, o: Object, fm: FileMsg)
    requires SortedById(f.table) && SavedAs(f, o, fm)
    ensures SameMessage(o, LoadObject(f, Some(fm))) <==> Faithful(f, o)
  {
    HexRoundTrip(o.data);
    EncodeEmpty(o.data);
    NoDigitsNoId();
    if o.pos.Some? && o.pos.value < |f.table| && fm.id != "" {
      var p := o.pos.value;
      FindsIff(f, p, o.idx, o.data);
      if Find(f, fm.id, o.idx, o.data).Some? && Find(f, fm.id, o.idx, o.data).value.pos == p {
        FoundIdx(f, p, o.idx, o.data);
      }
    }
  }

  /** A faithful message comes back with its place as index, and with its extra information. */
  lemma {:induction false} ObjectRoundTrip(f: Factory, o: Object, fm: FileMsg)
    requires SortedById(f.table) && SavedAs(f, o, fm) && Faithful(f, o)
    ensures LoadObject(f, Some(fm))
         == Some(Object(o.pos, LoadedIdx(f, o), o.data, 0, "", 0, "", None, "", o.extra, 0, 0))
  {
    HexRoundTrip(o.data);
    EncodeEmpty(o.data);
    NoDigitsNoId();
    if o.pos.Some? {
      FindsIff(f, o.pos.value, o.idx, o.data);
    }
  }

  /** Messages the protocol numbered are faithful, and keep their index, if their data decodes to
      itself; on protocols whose lookup agrees with their numbering. */
  lemma {:induction false} NumberedFaithful(f: Factory, o: Object)
    requires SortedById(f.table) && TextsReadBack(f.table) && TextsMatch(f.table)
    requires o.pos.Some? && o.pos.value < |f.table| && o.idx == Numbers(f.table)[o.pos.value]
    ensures Faithful(f, o) <==> f.table[o.pos.value].decode(o.data) == Some(o.data)
    ensures LoadedIdx(f, o) == o.idx
  {
    var p := o.pos.value;
    NumberIsRun(f.table, p);
    FoundAt(f.table, p, o.idx);
  }

  /** A received message has no index property: it is faithful exactly when no message before it
      with the same id decodes its data. */
  lemma {:induction false} ReceivedFaithful(f: Factory, o: Object)
    requires SortedById(f.table) && TextsReadBack(f.table)
    requires o.pos.Some? && o.pos.value < |f.table| && o.idx == 0
    requires f.table[o.pos.value].decode(o.data) == Some(o.data)
    ensures var p := o.pos.value;
            Faithful(f, o) <==>
            forall q :: p - RunBefore(f.table, p) <= q < p ==> f.table[q].decode(o.data) == None
  {
    NoneTriedBefore(f, o.pos.value, o.data, o.pos.value - RunBefore(f.table, o.pos.value));
  }

  lemma {:induction false} NoneTriedBefore(f: Factory, p: nat, data: Data, first: nat)
    requires SortedById(f.table) && TextsReadBack(f.table)
    requires p < |f.table| && first == p - RunBefore(f.table, p)
    ensures SearchedUpTo(f, f.table[p].text, 0, data, p - first)
            <==> forall q :: first <= q < p ==> f.table[q].decode(data) == None
  {
    var text := f.table[p].text;
    forall q: nat | first <= q < p
      ensures Accepted(f, text, q - first, data) <==> f.table[q].decode(data).Some?
    {
      RunBack(f.table, p, q);
      AcceptedIff(f, p, q, q - first, data);
    }
    if forall q :: first <= q < p ==> f.table[q].decode(data) == None {
      forall k: nat | k < p - first ensures !Accepted(f, text, k, data) {
        assert f.table[first + k].decode(data) == None;
        assert (first + k) - first == k;
      }
    }
  }

  /** An entry of a run decodes the data if and only if the index of its place accepts it. */
  lemma {:induction false} AcceptedIff(f: Factory, p: nat, q: nat, k: nat, data: Data)
    requires SortedById(f.table) && TextsReadBack(f.table)
    requires p < |f.table| && q < |f.table| && f.table[p].id == f.table[q].id && k == RunBefore(f.table, q)
    ensures Accepted(f, f.table[p].text, k, data) <==> f.table[q].decode(data).Some?
  {
    LookupAs(f, p, q, k);
  }

  lemma {:induction false} LookupAs(f: Factory, p: nat, q: nat, k: nat)
    requires SortedById(f.table) && TextsReadBack(f.table)
    requires p < |f.table| && q < |f.table| && f.table[p].id == f.table[q].id && k == RunBefore(f.table, q)
    ensures Create(f, f.table[p].text, k) == Some(q)
  {
    FoundAt(f.table, q, k);
    ByText(f, f.table[p].text, f.table[p].id, k);
  }

  lemma {:induction false} ByText(f: Factory, text: string, id: int, k: nat)
    requires ParseId(text) == Some(id)
    ensures Create(f, text, k) == CreateById(f.table, id, k)
  {
  }

  /** The entries of a run, seen from its end. */
  lemma {:induction false} RunBack(table: seq<Proto>, p: nat, q: nat)
    requires p < |table| && p - RunBefore(table, p) <= q <= p
    ensures table[q].id == table[p].id && RunBefore(table, q) == q - (p - RunBefore(table, p))
    decreases p
  {
    if q < p {
      RunBack(table, p - 1, q);
    }
  }

  /** An invalid message is kept, as an invalid message, exactly when such messages have no id text
      and it has some data. */
  lemma {:induction false} RawMessageKept(f: Factory, o: Object)
    requires SortedById(f.table) && o.pos == None
    ensures SameMessage(o, LoadObject(f, Some(SaveSendOne(f, o)))) <==> f.invalidText == "" && o.data != []
  {
    ObjectKeptIff(f, o, SaveSendOne(f, o));
  }

  /** In the demo protocol an invalid message has the text of the id 0: it is lost, or comes back
      as a message with that id. */
  lemma {:induction false} DemoGarbageChanges(f: Factory, o: Object)
    requires SortedById(f.table) && f.invalidText == DemoText(0) && o.pos == None
    ensures match LoadObject(f, Some(SaveSendOne(f, o)))
            case None => true
            case Some(r) => r.pos.Some? && r.pos.value < |f.table| && f.table[r.pos.value].id == 0
  {
    var fm := SaveSendOne(f, o);
    DemoReadsBack(0);
    HexRoundTrip(o.data);
    FindPicks(f, fm.id, fm.msgIdx, o.data);
    match Find(f, fm.id, fm.msgIdx, o.data) {
      case None =>
      case Some(m) =>
        SearchFindsLeast(f, fm.id, 0, o.data);
        FoundHasId(f.table, 0, m.idx, m.pos);
    }
  }

  /** In the raw data protocol every message has a dash as its id text: none is ever loaded. */
  lemma {:induction false} DashLost(f: Factory, o: Object)
    requires TextOf(f, o) == "-"
    ensures LoadObject(f, Some(SaveSendOne(f, o))) == None
  {
    NoDigitsNoId();
  }

  /** A message without id text and data is saved as an entry that makes no message. */
  lemma {:induction false} EmptyRawMessageLost(f: Factory)
    requires f.invalidText == ""
    ensures var o := Object(None, 0, [], 0, "", 0, "", Some(1), "", map[], 0, 0);
            |SaveSend(f, [o])| == 1 && LoadSend(f, SaveSend(f, [o])) == []
  {
    var o := Object(None, 0, [], 0, "", 0, "", Some(1), "", map[], 0, 0);
    var saved := SaveSend(f, [o]);
    assert saved[0] == Some(SaveSendOne(f, o)) && saved[1..] == [];
    assert Loadable(f, saved) == [];
  }

  /** What a send list is after saving and loading: a message that is sent once anyhow, without a
      period and with a zero count, gets the count one; an unset count becomes one; receive
      properties are not part of a send list. */
  function Normal(f: Factory, o: Object): Object {
    o.(idx := LoadedIdx(f, o),
       count := Some(if o.period == 0 && o.count.GetOr(1) == 0 then 1 else o.count.GetOr(1)),
       timestamp := 0, kind := 0)
  }

  function NormalList(f: Factory, os: seq<Object>): (r: seq<Object>)
    ensures |r| == |os|
  {
    if os == [] then [] else [Normal(f, os[0])] + NormalList(f, os[1..])
  }

  ghost predicate AllFaithful(f: Factory, os: seq<Object>) {
    os == [] || (Faithful(f, os[0]) && AllFaithful(f, os[1..]))
  }

  lemma {:induction false} SendListRoundTrip(f: Factory, os: seq<Object>)
    requires SortedById(f.table) && AllFaithful(f, os)
    ensures LoadSend(f, SaveSend(f, os)) == NormalList(f, os)
    decreases |os|
  {
    if os != [] {
      var fm := SaveSendOne(f, os[0]);
      SendListRoundTrip(f, os[1..]);
      assert SaveSend(f, os)[0] == Some(fm) && SaveSend(f, os)[1..] == SaveSend(f, os[1..]);
      assert LoadObject(f, Some(fm)).Some?
             && LoadSendOne(LoadObject(f, Some(fm)).value, fm, os[0].delay) == Normal(f, os[0]) by {
        ObjectRoundTrip(f, os[0], fm);
      }
      assert LoadDelay(fm, 0) == (os[0].delay, 0);
      assert Loadable(f, SaveSend(f, os))[1..] == Loadable(f, SaveSend(f, os[1..]));
    }
  }

  /** One message at the head of a saved send list. */
  lemma {:induction false} SendListHead(f: Factory, os: seq<Object>)
    requires os != []
    ensures var fm, later := SaveSendOne(f, os[0]), LoadSend(f, SaveSend(f, os[1..]));
            LoadSend(f, SaveSend(f, os))
            == (match LoadObject(f, Some(fm))
                case None => later
                case Some(o) => [LoadSendOne(o, fm, os[0].delay)] + later)
  {
    var fm, saved := SaveSendOne(f, os[0]), SaveSend(f, os);
    assert saved[0] == Some(fm) && saved[1..] == SaveSend(f, os[1..]);
    assert LoadDelay(fm, 0) == (os[0].delay, 0);
    if LoadObject(f, Some(fm)).Some? {
      assert Loadable(f, saved)[1..] == Loadable(f, saved[1..]);
    }
  }

  lemma {:induction false} SendListNoLonger(f: Factory, os: seq<Object>)
    ensures |LoadSend(f, SaveSend(f, os))| <= |os|
  {
    if os != [] {
      SendListHead(f, os);
      SendListNoLonger(f, os[1..]);
    }
  }

  /** A send list comes back whole if and only if all its messages are faithful. */
  lemma {:induction false} SendListKeptIff(f: Factory, os: seq<Object>)
    requires SortedById(f.table)
    ensures LoadSend(f, SaveSend(f, os)) == NormalList(f, os) <==> AllFaithful(f, os)
  {
    if AllFaithful(f, os) {
      SendListRoundTrip(f, os);
    } else {
      SendListChanges(f, os);
    }
  }

  lemma {:induction false} SendListChanges(f: Factory, os: seq<Object>)
    requires SortedById(f.table) && !AllFaithful(f, os)
    ensures LoadSend(f, SaveSend(f, os)) != NormalList(f, os)
  {
    var fm := SaveSendOne(f, os[0]);
    ObjectKeptIff(f, os[0], fm);
    SendListHead(f, os);
    SendListNoLonger(f, os[1..]);
    var whole, rest := LoadSend(f, SaveSend(f, os)), LoadSend(f, SaveSend(f, os[1..]));
    if LoadObject(f, Some(fm)).Some? {
      assert whole[1..] == rest && NormalList(f, os)[1..] == NormalList(f, os[1..]);
      if Faithful(f, os[0]) {
        SendListChanges(f, os[1..]);
      }
    }
  }

  /** What a receive list is after saving and loading: messages without a timestamp are gone, send
      properties are not part of a receive list. */
  function RecvNormalList(f: Factory, os: seq<Object>): seq<Object> {
    if os == [] then []
    else (if os[0].timestamp == 0 then [] else [RecvNormal(f, os[0])]) + RecvNormalList(f, os[1..])
  }

  function RecvNormal(f: Factory, o: Object): Object {
    o.(idx := LoadedIdx(f, o), delay := 0, delayUnits := "", period := 0, periodUnits := "", count := None)
  }

  lemma {:induction false} RecvListRoundTrip(f: Factory, os: seq<Object>)
    requires SortedById(f.table) && AllFaithful(f, os)
    ensures LoadRecv(f, SaveRecv(f, os)) == RecvNormalList(f, os)
    decreases |os|
  {
    if os != [] {
      var fm := SaveRecvOne(f, os[0]);
      RecvEntry(f, os);
      ObjectRoundTrip(f, os[0], fm);
      assert LoadRecv(f, SaveRecv(f, os)[1..]) == RecvNormalList(f, os[1..]) by {
        RecvListRoundTrip(f, os[1..]);
      }
    }
  }

  /** A faithful message has an entry in the saved list. */
  lemma {:induction false} RecvEntry(f: Factory, os: seq<Object>)
    requires os != [] && Faithful(f, os[0])
    ensures var r := SaveRecv(f, os);
            && r != [] && r[0] == Some(SaveRecvOne(f, os[0])) && r[1..] == SaveRecv(f, os[1..])
    ensures SavedAs(f, os[0], SaveRecvOne(f, os[0]))
  {
    EncodeEmpty(os[0].data);
    NoDigitsNoId();
  }

  /** Every message that was received at some time is faithful; the others are dropped anyhow. */
  ghost predicate ReceivedKept(f: Factory, os: seq<Object>) {
    forall k :: 0 <= k < |os| ==> os[k].timestamp != 0 ==> Faithful(f, os[k])
  }

  /** One message at the head of a saved receive list. */
  lemma {:induction false} RecvListHead(f: Factory, os: seq<Object>)
    requires os != []
    ensures var fm, later := SaveRecvOne(f, os[0]), LoadRecv(f, SaveRecv(f, os[1..]));
            LoadRecv(f, SaveRecv(f, os))
            == (match LoadObject(f, Some(fm))
                case None => later
                case Some(o) =>
                  if os[0].timestamp == 0 then later
                  else [o.(timestamp := fm.timestamp, kind := fm.kind, comment := fm.comment)] + later)
  {
    var fm, saved := SaveRecvOne(f, os[0]), SaveRecv(f, os);
    if fm.id == "" && fm.data == "" {
      NoneLeft(SaveRecv(f, os[1..]));
    } else {
      assert saved[0] == Some(fm) && saved[1..] == SaveRecv(f, os[1..]);
    }
  }

  lemma {:induction false} RecvListNoLonger(f: Factory, os: seq<Object>)
    ensures |LoadRecv(f, SaveRecv(f, os))| <= |RecvNormalList(f, os)|
  {
    if os != [] {
      RecvListHead(f, os);
      RecvListNoLonger(f, os[1..]);
    }
  }

  lemma {:induction false} RecvSavedAs(f: Factory, o: Object)
    ensures SavedAs(f, o, SaveRecvOne(f, o))
  {
  }

  /** A receive list comes back as it is meant to if and only if all its messages with a timestamp
      are faithful. */
  lemma {:induction false} RecvListKeptIff(f: Factory, os: seq<Object>)
    requires SortedById(f.table)
    ensures LoadRecv(f, SaveRecv(f, os)) == RecvNormalList(f, os) <==> ReceivedKept(f, os)
  {
    if os != [] {
      var o, fm := os[0], SaveRecvOne(f, os[0]);
      var whole, rest := LoadRecv(f, SaveRecv(f, os)), LoadRecv(f, SaveRecv(f, os[1..]));
      RecvListHead(f, os);
      RecvListNoLonger(f, os[1..]);
      RecvListKeptIff(f, os[1..]);
      assert ReceivedKept(f, os) <==> (o.timestamp != 0 ==> Faithful(f, o)) && ReceivedKept(f, os[1..]);
      if o.timestamp == 0 {
        NoneLeft(RecvNormalList(f, os[1..]));
      } else {
        RecvHeadKept(f, o, fm, whole, rest, RecvNormalList(f, os[1..]));
      }
    }
  }

  lemma {:induction false} RecvHeadKept(
    f: Factory, o: Object, fm: FileMsg, whole: seq<Object>, rest: seq<Object>, meant: seq<Object>)
    requires SortedById(f.table) && fm == SaveRecvOne(f, o)
    requires |rest| <= |meant|
    requires whole == match LoadObject(f, Some(fm))
                      case None => rest
                      case Some(l) => [l.(timestamp := fm.timestamp, kind := fm.kind, comment := fm.comment)] + rest
    ensures whole == [RecvNormal(f, o)] + meant <==> Faithful(f, o) && rest == meant
  {
    RecvSavedAs(f, o);
    ObjectKeptIff(f, o, fm);
    if Faithful(f, o) {
      ObjectRoundTrip(f, o, fm);
    }
    if LoadObject(f, Some(fm)).Some? {
      assert whole[1..] == rest && ([RecvNormal(f, o)] + meant)[1..] == meant;
      assert ([RecvNormal(f, o)] + meant)[0] == RecvNormal(f, o);
    }
  }

  /** The file of a send list holds nothing that a receive list would be loaded from. */
  lemma {:induction false} SendFileNoRecvList(f: Factory, os: seq<Object>)
    ensures LoadRecv(f, SaveSend(f, os)) == []
  {
    if os != [] {
      assert SaveSend(f, os)[0] == Some(SaveSendOne(f, os[0])) && SaveSend(f, os)[1..] == SaveSend(f, os[1..]);
      SendFileNoRecvList(f, os[1..]);
    }
  }
}
