/** Lookup of message prototypes by id and index (lib/src/ToolsMsgFactory.cpp), the numbering of
    all messages (lib/src/ToolsProtocol.cpp), and the search a file load makes for the message a
    stored id and data belong to (lib/src/ToolsMsgFileMgr.cpp). */
module MsgFactory {
  import opened Wrappers
  import opened Bytes
  import opened Bisect
  import opened IdText

  /** A default message of the protocol: its numeric id, the text of its id, and its decoder, which
      gives the data the decoded message would encode to, or nothing. */
  datatype Proto = Proto(id: int, text: string, decode: Data -> Option<Data>)

  /** The default messages, and the id text of an invalid message. */
  datatype Factory = Factory(table: seq<Proto>, invalidText: string)

  ghost predicate SortedById(table: seq<Proto>) {
    forall a, b :: 0 <= a < b < |table| ==> table[a].id <= table[b].id
  }

  function Lower(table: seq<Proto>, id: int): (pos: nat)
    ensures pos <= |table|
  {
    PartitionPoint((k: nat) => k < |table| && table[k].id < id, 0, |table|)
  }

  function Upper(table: seq<Proto>, id: int): (pos: nat)
    ensures pos <= |table|
  {
    PartitionPoint((k: nat) => k < |table| && table[k].id <= id, 0, |table|)
  }

  /** `createMessage` by number: the position of the prototype that is cloned. */
  function CreateById(table: seq<Proto>, id: int, idx: nat): (r: Option<nat>)
    ensures r.Some? ==> idx <= r.value < |table|
  {
    var lower := Lower(table, id);
    if lower == |table| || table[lower].id != id then None
    else
      var upper := Upper(table, id);
      if upper - lower <= idx then None else Some(lower + idx)
  }

  /** `createMessage` by text. */
  function Create(f: Factory, text: string, idx: nat): (r: Option<nat>)
    ensures r.Some? ==> idx <= r.value < |f.table|
  {
    match ParseId(text)
    case None => None
    case Some(id) => CreateById(f.table, id, idx)
  }

  // ---------------------------------------------------------------------------
  // The idx-th message with an id

  /** The positions of the entries with this id, in order. */
  function Positions(table: seq<Proto>, id: int, n: nat): (r: seq<nat>)
    requires n <= |table|
    ensures forall k :: 0 <= k < |r| ==> r[k] < n && table[r[k]].id == id
  {
    if n == 0 then []
    else Positions(table, id, n - 1) + (if table[n - 1].id == id then [n - 1] else [])
  }

  lemma {:induction false} LowerSplits(table: seq<Proto>, id: int)
    requires SortedById(table)
    ensures forall k :: 0 <= k < Lower(table, id) ==> table[k].id < id
    ensures forall k :: Lower(table, id) <= k < |table| ==> id <= table[k].id
  {
    var test := (k: nat) => k < |table| && table[k].id < id;
    FindsPartition(test, 0, |table|);
    forall k | 0 <= k < Lower(table, id) ensures table[k].id < id {
      assert test(k);
    }
    forall k | Lower(table, id) <= k < |table| ensures id <= table[k].id {
      assert !test(k);
    }
  }

  lemma {:induction false} UpperSplits(table: seq<Proto>, id: int)
    requires SortedById(table)
    ensures forall k :: 0 <= k < Upper(table, id) ==> table[k].id <= id
    ensures forall k :: Upper(table, id) <= k < |table| ==> id < table[k].id
  {
    var test := (k: nat) => k < |table| && table[k].id <= id;
    FindsPartition(test, 0, |table|);
    forall k | 0 <= k < Upper(table, id) ensures table[k].id <= id {
      assert test(k);
    }
    forall k | Upper(table, id) <= k < |table| ensures id < table[k].id {
      assert !test(k);
    }
  }

  /** In a sorted table the entries with one id are a contiguous run. */
  lemma {:induction false} PositionsRun(table: seq<Proto>, id: int, n: nat, lower: nat, upper: nat)
    requires n <= |table| && lower <= upper <= |table|
    requires forall k :: 0 <= k < |table| ==> (table[k].id == id <==> lower <= k < upper)
    ensures var r := Positions(table, id, n);
            && |r| == (if n <= lower then 0 else if n <= upper then n - lower else upper - lower)
            && forall k :: 0 <= k < |r| ==> r[k] == lower + k
  {
    if n != 0 {
      PositionsRun(table, id, n - 1, lower, upper);
    }
  }

  /** The lookup returns the idx-th entry with the id, and nothing exactly when there are not that
      many. */
  lemma {:induction false} CreateIsNth(table: seq<Proto>, id: int, idx: nat)
    requires SortedById(table)
    ensures var all := Positions(table, id, |table|);
            CreateById(table, id, idx) == if idx < |all| then Some(all[idx]) else None
  {
    var lower, upper := Lower(table, id), Upper(table, id);
    LowerSplits(table, id);
    UpperSplits(table, id);
    assert lower <= upper by {
      if upper < |table| {
        assert id < table[upper].id;
      }
    }
    PositionsRun(table, id, |table|, lower, upper);
  }

  // ---------------------------------------------------------------------------
  // Numbering

  /** The indices `createAllMessages` gives, continuing after an entry `prev` numbered `prevIdx`. */
  function Number(prev: string, prevIdx: nat, texts: seq<string>): (r: seq<nat>)
    ensures |r| == |texts|
    decreases |texts|
  {
    if texts == [] then []
    else
      var idx := if prev == texts[0] then prevIdx + 1 else 0;
      [idx] + Number(texts[0], idx, texts[1..])
  }

  function Texts(table: seq<Proto>): (r: seq<string>)
    ensures |r| == |table| && forall k :: 0 <= k < |r| ==> r[k] == table[k].text
  {
    seq(|table|, k requires 0 <= k < |table| => table[k].text)
  }

  method CreateAllMessages(table: seq<Proto>) returns (idxs: seq<nat>)
    ensures idxs == Number("", 0, Texts(table))
  {
    idxs := [];
    var prevId, prevIdx := "", 0;
    ghost var texts := Texts(table);
    for k := 0 to |table|
      invariant idxs + Number(prevId, prevIdx, texts[k..]) == Number("", 0, texts)
    {
      assert texts[k..][0] == table[k].text && texts[k..][1..] == texts[k + 1..];
      var idx := 0;
      if prevId == table[k].text {
        idx := prevIdx + 1;
      }
      prevId := table[k].text;
      prevIdx := idx;
      ghost var before := idxs;
      idxs := idxs + [idx];
      assert before + ([idx] + Number(prevId, prevIdx, texts[k + 1..]))
          == idxs + Number(prevId, prevIdx, texts[k + 1..]);
    }
    assert texts[|table|..] == [];
  }

  /** An entry is numbered one behind the entry before it if their texts agree, and else zero; the
      first is compared with the empty text. */
  lemma {:induction false} NumberStep(prev: string, prevIdx: nat, texts: seq<string>, n: nat)
    requires n < |texts|
    ensures var r := Number(prev, prevIdx, texts);
            var before := if n == 0 then prev else texts[n - 1];
            r[n] == if before == texts[n] then (if n == 0 then prevIdx else r[n - 1]) + 1 else 0
    decreases n
  {
    if n != 0 {
      var idx := if prev == texts[0] then prevIdx + 1 else 0;
      NumberStep(texts[0], idx, texts[1..], n - 1);
    }
  }

  function Numbers(table: seq<Proto>): (r: seq<nat>)
    ensures |r| == |table|
  {
    Number("", 0, Texts(table))
  }

  lemma {:induction false} NumbersStep(table: seq<Proto>, n: nat)
    requires n < |table|
    ensures var same := (if n == 0 then "" else table[n - 1].text) == table[n].text;
            Numbers(table)[n] == if same then (if n == 0 then 0 else Numbers(table)[n - 1]) + 1 else 0
  {
    NumberStep("", 0, Texts(table), n);
  }

  /** Every id text reads back as its id. */
  ghost predicate TextsReadBack(table: seq<Proto>) {
    forall n {:trigger ParseId(table[n].text)} :: 0 <= n < |table| ==> ParseId(table[n].text) == Some(table[n].id)
  }

  /** Entries with the same id, where they stand side by side, have the same text. */
  ghost predicate TextsMatch(table: seq<Proto>) {
    forall n :: 0 < n < |table| ==> table[n - 1].id == table[n].id ==> table[n - 1].text == table[n].text
  }

  /** How many of the entries right before position `k` have its id. */
  function RunBefore(table: seq<Proto>, k: nat): (r: nat)
    requires k < |table|
    ensures r <= k
  {
    if k == 0 || table[k - 1].id != table[k].id then 0 else RunBefore(table, k - 1) + 1
  }

  /** The number of an entry counts the entries with its id right before it. */
  lemma {:induction false} NumberIsRun(table: seq<Proto>, n: nat)
    requires TextsReadBack(table) && TextsMatch(table) && n < |table|
    ensures Numbers(table)[n] == RunBefore(table, n)
  {
    if n != 0 {
      NumberIsRun(table, n - 1);
    }
    NumbersStep(table, n);
    assert (if n == 0 then "" else table[n - 1].text) == table[n].text
           <==> n != 0 && table[n - 1].id == table[n].id by {
      SameTextIffSameId(table, n);
    }
  }

  lemma {:induction false} SameTextIffSameId(table: seq<Proto>, n: nat)
    requires TextsReadBack(table) && TextsMatch(table) && n < |table|
    ensures table[n].text != ""
    ensures n != 0 ==> (table[n - 1].text == table[n].text <==> table[n - 1].id == table[n].id)
  {
    NoDigitsNoId();
    assert ParseId(table[n].text) == Some(table[n].id);
    if n != 0 {
      assert ParseId(table[n - 1].text) == Some(table[n - 1].id);
    }
  }

  lemma {:induction false} RunFromLower(table: seq<Proto>, n: nat, lower: nat)
    requires lower <= n < |table|
    requires forall k :: lower <= k <= n ==> table[k].id == table[n].id
    requires lower != 0 ==> table[lower - 1].id != table[n].id
    ensures RunBefore(table, n) == n - lower
    decreases n
  {
    if lower < n {
      RunFromLower(table, n - 1, lower);
    }
  }

  /** Looking an entry up by its own id and an index finds it if and only if the index counts the
      entries with its id before it. */
  lemma {:induction false} FoundAt(table: seq<Proto>, n: nat, idx: nat)
    requires SortedById(table) && n < |table|
    ensures CreateById(table, table[n].id, idx) == Some(n) <==> idx == RunBefore(table, n)
  {
    var id := table[n].id;
    var lower, upper := Lower(table, id), Upper(table, id);
    LowerSplits(table, id);
    UpperSplits(table, id);
    assert lower <= n < upper;
    RunFromLower(table, n, lower);
  }

  lemma {:induction false} FoundHasId(table: seq<Proto>, id: int, idx: nat, n: nat)
    requires SortedById(table) && CreateById(table, id, idx) == Some(n)
    ensures table[n].id == id
  {
    LowerSplits(table, id);
    UpperSplits(table, id);
  }

  /** The entry is found by its text and its number. */
  predicate Agrees(f: Factory, n: nat)
    requires n < |f.table|
  {
    Create(f, f.table[n].text, Numbers(f.table)[n]) == Some(n)
  }

  /** The lookup agrees with the numbering on every entry if and only if every id text reads back
      as its id and entries with the same id have the same text. */
  lemma {:induction false} NumberingAgrees(f: Factory)
    requires SortedById(f.table)
    ensures (forall n :: 0 <= n < |f.table| ==> Agrees(f, n))
            <==> TextsReadBack(f.table) && TextsMatch(f.table)
  {
    if TextsReadBack(f.table) && TextsMatch(f.table) {
      forall n | 0 <= n < |f.table| ensures Agrees(f, n) {
        NumberIsRun(f.table, n);
        FoundAt(f.table, n, Numbers(f.table)[n]);
      }
    }
    if forall n :: 0 <= n < |f.table| ==> Agrees(f, n) {
      forall n | 0 <= n < |f.table| ensures ParseId(f.table[n].text) == Some(f.table[n].id) {
        AgreesReadsBack(f, n);
      }
      forall n | 0 < n < |f.table| && f.table[n - 1].id == f.table[n].id
        ensures f.table[n - 1].text == f.table[n].text
      {
        AgreesReadsBack(f, n);
        NumbersStep(f.table, n);
      }
    }
  }

  lemma {:induction false} AgreesReadsBack(f: Factory, n: nat)
    requires SortedById(f.table) && n < |f.table| && Agrees(f, n)
    ensures ParseId(f.table[n].text) == Some(f.table[n].id)
    ensures Numbers(f.table)[n] == RunBefore(f.table, n)
  {
    var id := ParseId(f.table[n].text).value;
    FoundHasId(f.table, id, Numbers(f.table)[n], n);
    FoundAt(f.table, n, Numbers(f.table)[n]);
  }

  /** The id text of the raw data protocol is a dash: its message is never found again. */
  lemma {:induction false} DashNotFound(decode: Data -> Option<Data>, invalidText: string, idx: nat, data: Data)
    ensures var f := Factory([Proto(0, "-", decode)], invalidText);
            SortedById(f.table) && Create(f, "-", idx) == None && Find(f, "-", idx, data) == None
  {
    NoDigitsNoId();
  }

  /** A message without an id text, alone in its table, is numbered one and not found. */
  lemma {:induction false} EmptyTextMisnumbered(decode: Data -> Option<Data>, invalidText: string)
    ensures var f := Factory([Proto(0, "", decode)], invalidText);
            Numbers(f.table) == [1] && Create(f, "", 1) == None
  {
    NoDigitsNoId();
    var texts := Texts([Proto(0, "", decode)]);
    assert texts == [""] && texts[1..] == [];
  }

  /** Tables of protocols that write ids as the library or the demo does read back. */
  lemma {:induction false} UsualTextsReadBack(table: seq<Proto>)
    requires forall n :: 0 <= n < |table| ==>
               && -LONG_MAX - 1 <= table[n].id <= LONG_MAX
               && (table[n].text == DecimalText(table[n].id)
                   || (0 <= table[n].id && table[n].text == DemoText(table[n].id)))
    ensures TextsReadBack(table)
  {
    forall n | 0 <= n < |table| ensures ParseId(table[n].text) == Some(table[n].id) {
      if table[n].text == DecimalText(table[n].id) {
        DecimalReadsBack(table[n].id);
      } else {
        DemoReadsBack(table[n].id);
      }
    }
  }

  // ---------------------------------------------------------------------------
  // The search of a file load

  /** What was found: the prototype, the index property, the decoded contents. */
  datatype Match = Match(pos: nat, idx: nat, data: Data)

  /** Indices from `idx` on, until one decodes the data or there is no message left. */
  function Search(f: Factory, text: string, idx: nat, data: Data): Option<Match>
    decreases |f.table| - idx
  {
    match Create(f, text, idx)
    case None => None
    case Some(pos) =>
      match f.table[pos].decode(data)
      case Some(contents) => Some(Match(pos, idx, contents))
      case None => Search(f, text, idx + 1, data)
  }

  /** A stored index other than 0 is tried first. */
  function Find(f: Factory, text: string, idx: nat, data: Data): Option<Match> {
    if Accepted(f, text, idx, data) && idx != 0
    then
      var pos := Create(f, text, idx).value;
      Some(Match(pos, idx, f.table[pos].decode(data).value))
    else Search(f, text, 0, data)
  }

  /** There is an idx-th message with this id and it decodes the data. */
  predicate Accepted(f: Factory, text: string, idx: nat, data: Data) {
    var r := Create(f, text, idx);
    r.Some? && f.table[r.value].decode(data).Some?
  }

  /** Where there is an idx-th message there are all before it. */
  lemma {:induction false} CreateDense(f: Factory, text: string, idx: nat, less: nat)
    requires Create(f, text, idx).Some? && less <= idx
    ensures Create(f, text, less).Some?
  {
  }

  /** The search ends, with the least index from the start on whose message accepts the data, or
      with nothing exactly when none does. */
  lemma {:induction false} SearchFindsLeast(f: Factory, text: string, idx: nat, data: Data)
    ensures match Search(f, text, idx, data)
            case Some(m) =>
              && idx <= m.idx && Accepted(f, text, m.idx, data)
              && Create(f, text, m.idx) == Some(m.pos) && f.table[m.pos].decode(data) == Some(m.data)
              && forall k: nat :: idx <= k < m.idx ==> !Accepted(f, text, k, data)
            case None => forall k: nat :: idx <= k ==> !Accepted(f, text, k, data)
    decreases |f.table| - idx
  {
    if Create(f, text, idx) == None {
      NoneFrom(f, text, idx, data);
    } else if !Accepted(f, text, idx, data) {
      SearchFindsLeast(f, text, idx + 1, data);
    }
  }

  lemma {:induction false} NoneFrom(f: Factory, text: string, idx: nat, data: Data)
    requires Create(f, text, idx) == None
    ensures forall k: nat :: idx <= k ==> !Accepted(f, text, k, data)
  {
    forall k: nat | idx <= k ensures Create(f, text, k) == None {
      if Create(f, text, k).Some? {
        CreateDense(f, text, k, idx);
      }
    }
  }

  /** A load picks the stored index if it is not 0 and decodes, and else the least that does. */
  lemma {:induction false} FindPicks(f: Factory, text: string, idx: nat, data: Data)
    ensures match Find(f, text, idx, data)
            case Some(m) =>
              && Accepted(f, text, m.idx, data)
              && Create(f, text, m.idx) == Some(m.pos) && f.table[m.pos].decode(data) == Some(m.data)
              && (if idx != 0 && Accepted(f, text, idx, data) then m.idx == idx
                  else forall k: nat :: k < m.idx ==> !Accepted(f, text, k, data))
            case None => forall k: nat :: !Accepted(f, text, k, data)
  {
    SearchFindsLeast(f, text, 0, data);
  }

  /** The loop of the load. */
  method FindMessage(f: Factory, msgId: string, msgIdx: nat, data: Data) returns (msg: Option<Match>)
    ensures msg == Find(f, msgId, msgIdx, data)
  {
    msg := None;
    if msgIdx != 0 {
      msg := TryDecode(f, msgId, msgIdx, data);
    }
    var idx := 0;
    while msg == None
      invariant msg.Some? ==> msg == Find(f, msgId, msgIdx, data)
      invariant msg == None ==> Search(f, msgId, idx, data) == Find(f, msgId, msgIdx, data)
      decreases msg == None, |f.table| - idx
    {
      if Create(f, msgId, idx) == None {
        break;
      }
      msg := TryDecode(f, msgId, idx, data);
      idx := idx + 1;
    }
  }

  method TryDecode(f: Factory, msgId: string, idx: nat, data: Data) returns (msg: Option<Match>)
    ensures msg.Some? <==> Accepted(f, msgId, idx, data)
    ensures msg.Some? ==>
              Create(f, msgId, idx) == Some(msg.value.pos) && msg.value.idx == idx
              && f.table[msg.value.pos].decode(data) == Some(msg.value.data)
  {
    msg := None;
    var pos := Create(f, msgId, idx);
    if pos.Some? {
      var contents := f.table[pos.value].decode(data);
      if contents.Some? {
        msg := Some(Match(pos.value, idx, contents.value));
      }
    }
  }
}
