/** A filter plugin that changes the stream and re-cuts it: every octet goes out by itself, shifted
    by a key.  It shows that the assumption made about filters can be met by more than filters
    that pass everything through. */
module MaskFilter {
  import opened Bytes
  import opened FilterChain
  import opened InFlight
  import opened Seqs

  function Shift(key: byte, b: byte): byte {
    var sum := b as int + key as int;
    (if sum < 0x100 then sum else sum - 0x100) as byte
  }

  function Unshift(key: byte, b: byte): byte {
    var rest := b as int - key as int;
    (if 0 <= rest then rest else rest + 0x100) as byte
  }

  /** Every octet shifted, in a block of its own. */
  function Outgoing(key: byte, block: Data): seq<Data> {
    if block == [] then [] else [[Shift(key, block[0])]] + Outgoing(key, block[1..])
  }

  function Incoming(key: byte, block: Data): (r: Data)
    ensures |r| == |block|
  {
    if block == [] then [] else [Unshift(key, block[0])] + Incoming(key, block[1..])
  }

  function Masker(key: byte): Filter<byte> {
    Filter(key, (k: byte, d: Data) => (k, Outgoing(k, d)), (k: byte, d: Data) => (k, [Incoming(k, d)]))
  }

  lemma {:induction false} IncomingConcat(key: byte, a: Data, b: Data)
    ensures Incoming(key, a + b) == Incoming(key, a) + Incoming(key, b)
  {
    var ab := a + b;
    if a == [] {
      assert ab == b;
    } else {
      assert ab[0] == a[0] && ab[1..] == a[1..] + b;
      IncomingConcat(key, a[1..], b);
    }
  }

  lemma {:induction false} BlockComesBack(key: byte, block: Data)
    ensures Incoming(key, Flatten(Outgoing(key, block))) == block
  {
    if block != [] {
      var out := Outgoing(key, block);
      assert out[0] == [Shift(key, block[0])] && out[1..] == Outgoing(key, block[1..]);
      BlockComesBack(key, block[1..]);
      var stream := [Shift(key, block[0])] + Flatten(out[1..]);
      assert Flatten(out) == stream && stream[0] == Shift(key, block[0]) && stream[1..] == Flatten(out[1..]);
      assert Unshift(key, stream[0]) == block[0];
    }
  }

  lemma {:induction false} SentComesBack(key: byte, xs: seq<Data>)
    ensures var r := SendAll(Masker(key), xs);
            r.filter == Masker(key) && Incoming(key, Flatten(r.out)) == Flatten(xs)
    decreases |xs|
  {
    if xs != [] {
      var f := Masker(key);
      assert f.send(key, xs[0]) == (key, Outgoing(key, xs[0])) && f.(state := key) == f;
      var later := SendAll(f, xs[1..]);
      SentComesBack(key, xs[1..]);
      BlockComesBack(key, xs[0]);
      FlattenConcat(Outgoing(key, xs[0]), later.out);
      IncomingConcat(key, Flatten(Outgoing(key, xs[0])), Flatten(later.out));
    }
  }

  lemma {:induction false} ReceivesStream(key: byte, zs: seq<Data>)
    ensures var r := RecvAll(Masker(key), zs);
            r.filter == Masker(key) && Flatten(r.out) == Incoming(key, Flatten(zs))
    decreases |zs|
  {
    if zs != [] {
      var f := Masker(key);
      assert f.recv(key, zs[0]) == (key, [Incoming(key, zs[0])]) && f.(state := key) == f;
      var later := RecvAll(f, zs[1..]);
      ReceivesStream(key, zs[1..]);
      assert RecvAll(f, zs).out[1..] == later.out && RecvAll(f, zs).out[0] == Incoming(key, zs[0]);
      IncomingConcat(key, zs[0], Flatten(zs[1..]));
    }
  }

  /** Chains of such filters, with any keys, meet the assumption. */
  lemma {:induction false} MaskersUndo() returns (sync: Filter<byte> -> bool)
    ensures Undoes(sync)
    ensures forall key: byte {:trigger Masker(key)} :: sync(Masker(key))
  {
    ghost var same := (f: Filter<byte>) => f == Masker(f.state);
    sync := same;
    forall f: Filter<byte>, xs: seq<Data>, zs: seq<Data> {:trigger RecvAll(SendAll(f, xs).filter, zs)} |
      sync(f) && Flatten(zs) == Flatten(SendAll(f, xs).out)
      ensures var back := RecvAll(SendAll(f, xs).filter, zs);
              Flatten(back.out) == Flatten(xs) && sync(back.filter)
    {
      SentComesBack(f.state, xs);
      ReceivesStream(f.state, zs);
    }
  }

  /** They meet the stronger one too: they may send while something is still under way. */
  lemma {:induction false} MaskersReturn() returns (c: Carries<byte>)
    ensures Returns(c)
    ensures forall key: byte {:trigger Masker(key)} :: c(Masker(key), [], [])
  {
    ghost var masked :=
      (f: Filter<byte>, low: Data, high: Data) => f == Masker(f.state) && high == Incoming(f.state, low);
    c := masked;
    forall f: Filter<byte>, low: Data, high: Data, d: Data {:trigger c(f, low, high), f.send(f.state, d)} |
      c(f, low, high)
      ensures var (st, out) := f.send(f.state, d); c(f.(state := st), low + Flatten(out), high + d)
    {
      MaskerSends(f.state, d);
      IncomingConcat(f.state, low, Flatten(Outgoing(f.state, d)));
    }
    forall f: Filter<byte>, low: Data, high: Data, d: Data {:trigger c(f, d + low, high)} | c(f, d + low, high)
      ensures var (st, out) := f.recv(f.state, d);
              Flatten(out) <= high && c(f.(state := st), low, high[|Flatten(out)|..])
    {
      MaskerReceives(f.state, d);
      IncomingConcat(f.state, d, low);
    }
  }

  lemma {:induction false} MaskerSends(key: byte, d: Data)
    ensures var f := Masker(key);
            f.send(key, d) == (key, Outgoing(key, d)) && f.(state := key) == f
    ensures Incoming(key, Flatten(Outgoing(key, d))) == d
  {
    BlockComesBack(key, d);
  }

  lemma {:induction false} MaskerReceives(key: byte, d: Data)
    ensures var f := Masker(key);
            f.recv(key, d) == (key, [Incoming(key, d)]) && f.(state := key) == f
    ensures Flatten([Incoming(key, d)]) == Incoming(key, d)
  {
    assert [Incoming(key, d)][1..] == [];
    NoneRight(Incoming(key, d));
  }
}
