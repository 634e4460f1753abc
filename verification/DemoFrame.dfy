/** A concrete frame after the layer declarations of the demo protocol
    (demo/protocol/include/demo/Frame.h): sync prefix, length, id, version, payload, checksum.
    It shows that the assumptions made about frames can be met. */
module DemoFrame {
  import opened Bytes
  import opened FrameReader

  const SYNC: nat := 0xabcd
  const NUM_OF_IDS: nat := 10
  /** The serialised length counts what follows it: id, version, payload and the checksum. */
  const OVERHEAD: nat := 4

  function Get16(s: Data): nat
    requires |s| == 2
  {
    s[0] as nat * 0x100 + s[1] as nat
  }

  /** Big endian. */
  function Put16(v: nat): (s: Data)
    requires v < 0x1_0000
    ensures |s| == 2 && Get16(s) == v
  {
    [(v / 0x100) as byte, (v % 0x100) as byte]
  }

  function Sum(s: Data): nat {
    if s == [] then 0 else s[0] as nat + Sum(s[1..])
  }

  /** The checksum: the sum of the octets, in 16 bits. */
  function Checksum(s: Data): nat {
    Sum(s) % 0x1_0000
  }

  function ReadDemo(s: Data): ReadStatus {
    if |s| < 2 then NotEnoughData
    else if Get16(s[..2]) != SYNC then Failure
    else if |s| < 4 then NotEnoughData
    else
      var end := 4 + Get16(s[2..4]);
      if end < 4 + OVERHEAD then Failure
      else if |s| < end then NotEnoughData
      else if NUM_OF_IDS <= s[4] as nat then Failure
      else if Get16(s[end - 2..end]) != Checksum(s[2..end - 2]) then Failure
      else Success(end, s[4] as int, 0)
  }

  function Demo(): Frame {
    Frame(ReadDemo, (id: int, idx: nat) => 0 <= id < NUM_OF_IDS && idx == 0)
  }

  /** The length field, id, version and payload: what the checksum covers. */
  function Body(id: byte, version: byte, payload: Data): Data
    requires |payload| + OVERHEAD < 0x1_0000
  {
    Put16(|payload| + OVERHEAD) + [id, version] + payload
  }

  function WriteDemo(id: byte, version: byte, payload: Data): Data
    requires |payload| + OVERHEAD < 0x1_0000
  {
    var body := Body(id, version, payload);
    Put16(SYNC) + body + Put16(Checksum(body))
  }

  /** The demo reader meets both assumptions, and waits on any single octet. */
  lemma {:induction false} DemoMeetsAssumptions()
    ensures Sound(Demo()) && PrefixStable(Demo()) && RejectsNoneAlone(Demo())
    ensures forall b: byte {:trigger Demo().read([b])} :: Demo().read([b]).Waits()
  {
    forall s: Data, t: Data {:trigger Demo().read(s + t)} | s != [] && Demo().read(s) != NotEnoughData
      ensures Demo().read(s + t) == Demo().read(s)
    {
      DemoStable(s, t);
    }
  }

  lemma {:induction false} SumConcat(a: Data, b: Data)
    ensures Sum(a + b) == Sum(a) + Sum(b)
  {
    if a == [] {
      assert a + b == b;
    } else {
      assert (a + b)[1..] == a[1..] + b;
      SumConcat(a[1..], b);
    }
  }

  /** The checksum of one octet is that octet, and what is joined adds up, in 16 bits. */
  lemma {:induction false} ChecksumAdds(a: Data, b: byte)
    ensures Checksum([]) == 0 && Checksum([b]) == b as nat
    ensures Checksum(a + [b]) == (Checksum(a) + b as nat) % 0x1_0000
  {
    SumConcat(a, [b]);
    assert [b][1..] == [];
  }

  /** Where everything stands in a frame of `len` octets at the front of a stream. */
  predicate Framed(s: Data, len: nat, id: int) {
    && 8 <= len <= |s|
    && s[0] == 0xab && s[1] == 0xcd
    && 0x100 * s[2] as nat + s[3] as nat == len - 4
    && id == s[4] as int && id < 10
    && 0x100 * s[len - 2] as nat + s[len - 1] as nat == Checksum(s[2..len - 2])
  }

  /** The reader accepts a frame exactly if the sync octets, the length, the id and the checksum are
      right. */
  lemma {:induction false} DemoReadsIff(s: Data, len: nat, id: int, idx: nat)
    ensures ReadDemo(s) == Success(len, id, idx) <==> idx == 0 && Framed(s, len, id)
  {
    if 2 <= |s| {
      assert Get16(s[..2]) == 0x100 * s[0] as nat + s[1] as nat;
      if 4 <= |s| {
        assert Get16(s[2..4]) == 0x100 * s[2] as nat + s[3] as nat;
        var end := 4 + Get16(s[2..4]);
        if 8 <= end <= |s| {
          assert Get16(s[end - 2..end]) == 0x100 * s[end - 2] as nat + s[end - 1] as nat;
        }
      }
    }
  }

  /** It waits exactly while the sync octets are right so far and the frame, of at least the smallest
      length, is not complete; whatever it does not accept then, it rejects. */
  lemma {:induction false} DemoWaitsIff(s: Data)
    ensures ReadDemo(s) == NotEnoughData
            <==> || |s| < 2
                 || (s[0] == 0xab && s[1] == 0xcd
                     && (|s| < 4
                         || (4 <= 0x100 * s[2] as nat + s[3] as nat
                             && |s| < 4 + 0x100 * s[2] as nat + s[3] as nat)))
    ensures ReadDemo(s) != MsgAllocFailure
  {
    if 2 <= |s| {
      assert Get16(s[..2]) == 0x100 * s[0] as nat + s[1] as nat;
      if 4 <= |s| {
        assert Get16(s[2..4]) == 0x100 * s[2] as nat + s[3] as nat;
      }
    }
  }

  /** These octets are what the protocol writes for a message. */
  predicate WrittenAs(s: Data, id: byte, version: byte, payload: Data) {
    |payload| + OVERHEAD < 0x1_0000 && s == WriteDemo(id, version, payload)
  }

  /** What the reader accepts is what the protocol writes, and nothing else. */
  lemma {:induction false} DemoReadsWritten(s: Data, len: nat, id: byte)
    requires len <= |s|
    ensures ReadDemo(s) == Success(len, id as int, 0)
            <==> id as nat < NUM_OF_IDS && exists version, payload :: WrittenAs(s[..len], id, version, payload)
  {
    if ReadDemo(s) == Success(len, id as int, 0) {
      DemoReadsIff(s, len, id as int, 0);
      FramedIsWritten(s, len, id as int);
      assert WrittenAs(s[..len], id, s[5], s[6..len - 2]);
    }
    if version, payload :| id as nat < NUM_OF_IDS && WrittenAs(s[..len], id, version, payload) {
      DemoAcceptsWritten(id, version, payload);
      assert Demo().read(s[..len] + s[len..]) == Success(len, id as int, 0);
      assert s[..len] + s[len..] == s;
    }
  }

  lemma {:induction false} Put16Of(a: byte, b: byte)
    ensures Put16(0x100 * a as nat + b as nat) == [a, b]
  {
  }

  lemma {:induction false} FramedIsWritten(s: Data, len: nat, id: int)
    requires Framed(s, len, id)
    ensures |s[6..len - 2]| + OVERHEAD < 0x1_0000
    ensures s[..len] == WriteDemo(id as byte, s[5], s[6..len - 2])
  {
    var payload := s[6..len - 2];
    assert |payload| + OVERHEAD == len - 4;
    Put16Of(s[2], s[3]);
    Put16Of(s[len - 2], s[len - 1]);
    Put16Of(0xab, 0xcd);
    var body := Body(id as byte, s[5], payload);
    assert body == s[2..len - 2];
    assert s[..len] == [s[0], s[1]] + s[2..len - 2] + [s[len - 2], s[len - 1]];
  }

  /** A complete frame whose last two octets are not the checksum of its body is rejected. */
  lemma {:induction false} CorruptedIsRejected(id: byte, version: byte, payload: Data, a: byte, b: byte, t: Data)
    requires |payload| + OVERHEAD < 0x1_0000
    requires 0x100 * a as nat + b as nat != Checksum(Body(id, version, payload))
    ensures ReadDemo([0xab, 0xcd] + Body(id, version, payload) + [a, b] + t) == Failure
  {
    var body := Body(id, version, payload);
    var s := [0xab, 0xcd] + body + [a, b] + t;
    var n := |payload| + OVERHEAD;
    assert 0x100 * s[2] as nat + s[3] as nat == n by {
      assert body[..2] == Put16(n);
      assert s[2] == body[0] && s[3] == body[1];
    }
    assert s[2..n + 2] == body && s[n + 2] == a && s[n + 3] == b;
    DemoWaitsIff(s);
    match ReadDemo(s) {
      case Success(len, other, idx) => DemoReadsIff(s, len, other, idx);
      case _ =>
    }
  }

  /** Its final calls leave nothing behind. */
  lemma {:induction false} DemoEmitsAll(calls: seq<Call>, data: Data)
    ensures Sound(Demo())
    ensures EmitsAll(Demo(), calls, data)
  {
    DemoMeetsAssumptions();
    FinalEmitsAll(Demo(), calls, data);
  }

  /** A definite answer of the demo reader survives more bytes. */
  lemma {:induction false} DemoStable(s: Data, t: Data)
    requires ReadDemo(s) != NotEnoughData
    ensures ReadDemo(s + t) == ReadDemo(s)
  {
    var st := s + t;
    assert st[..2] == s[..2];
    if Get16(s[..2]) == SYNC {
      assert st[2..4] == s[2..4];
      var end := 4 + Get16(s[2..4]);
      if 4 + OVERHEAD <= end {
        assert st[end - 2..end] == s[end - 2..end];
        assert st[2..end - 2] == s[2..end - 2];
      }
    }
  }

  /** What the demo frame writes, the reader accepts as that message, whatever follows. */
  lemma {:induction false} DemoAcceptsWritten(id: byte, version: byte, payload: Data)
    requires id as nat < NUM_OF_IDS && |payload| + OVERHEAD < 0x1_0000
    ensures var raw := WriteDemo(id, version, payload);
            Accepts(Demo(), raw, Decoded(raw, id as int, 0))
  {
    var raw := WriteDemo(id, version, payload);
    var body := Body(id, version, payload);
    var end := |raw|;
    assert raw[..2] == Put16(SYNC);
    assert raw[2..4] == body[..2] == Put16(|payload| + OVERHEAD);
    assert raw[4] == body[2] == id;
    assert raw[2..end - 2] == body;
    assert raw[end - 2..] == Put16(Checksum(body));
    assert ReadDemo(raw) == Success(end, id as int, 0);
    forall t: Data {:trigger Demo().read(raw + t)} ensures Demo().read(raw + t) == Success(end, id as int, 0) {
      DemoStable(raw, t);
    }
  }
}
