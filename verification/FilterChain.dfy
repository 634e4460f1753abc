/** The chain of data filters between the protocol and the socket
    (lib/src/ToolsMsgMgrImpl.cpp): run from the last to the first on the way out, from the first
    to the last on the way in, each filter turning one block into any number of blocks. */
module FilterChain {
  import opened Bytes
  import opened Seqs

  /** A filter plugin: its private state and what it does to a block in either direction. */
  datatype Filter<!S> = Filter(
    state: S,
    send: (S, Data) -> (S, seq<Data>),
    recv: (S, Data) -> (S, seq<Data>))

  /** A filter applied to blocks: the filter afterwards and what it put out. */
  datatype Filtered<!S> = Filtered(filter: Filter<S>, out: seq<Data>)

  datatype Passed<!S> = Passed(filters: seq<Filter<S>>, out: seq<Data>)

  function SendAll<S>(f: Filter<S>, blocks: seq<Data>): Filtered<S>
    decreases |blocks|
  {
    if blocks == [] then Filtered(f, [])
    else
      var (st, out) := f.send(f.state, blocks[0]);
      var later := SendAll(f.(state := st), blocks[1..]);
      Filtered(later.filter, out + later.out)
  }

  function RecvAll<S>(f: Filter<S>, blocks: seq<Data>): Filtered<S>
    decreases |blocks|
  {
    if blocks == [] then Filtered(f, [])
    else
      var (st, out) := f.recv(f.state, blocks[0]);
      var later := RecvAll(f.(state := st), blocks[1..]);
      Filtered(later.filter, out + later.out)
  }

  /** The outgoing pipeline: the last filter works first. */
  function SendChain<S>(fs: seq<Filter<S>>, blocks: seq<Data>): (p: Passed<S>)
    ensures |p.filters| == |fs|
  {
    if fs == [] then Passed([], blocks)
    else
      var above := SendChain(fs[1..], blocks);
      var r := SendAll(fs[0], above.out);
      Passed([r.filter] + above.filters, r.out)
  }

  /** The incoming pipeline: the first filter works first. */
  function RecvChain<S>(fs: seq<Filter<S>>, blocks: seq<Data>): (p: Passed<S>)
    ensures |p.filters| == |fs|
    decreases |fs|
  {
    if fs == [] then Passed([], blocks)
    else
      var r := RecvAll(fs[0], blocks);
      var above := RecvChain(fs[1..], r.out);
      Passed([r.filter] + above.filters, above.out)
  }

  /** What filter `k` asks to send on its own: it enters the chain below filter `k`. */
  function Inject<S>(fs: seq<Filter<S>>, k: nat, blocks: seq<Data>): Passed<S>
    requires k <= |fs|
  {
    var below := SendChain(fs[..k], blocks);
    Passed(below.filters + fs[k..], below.out)
  }

  // ---------------------------------------------------------------------------
  // The chain as a composition

  lemma {:induction false} ChainConcat<S>(a: seq<Filter<S>>, b: seq<Filter<S>>, blocks: seq<Data>)
    ensures var upper := SendChain(b, blocks);
            var lower := SendChain(a, upper.out);
            SendChain(a + b, blocks) == Passed(lower.filters + upper.filters, lower.out)
  {
    var upper := SendChain(b, blocks);
    if a == [] {
      assert a + b == b;
      NoneLeft(upper.filters);
    } else {
      assert (a + b)[1..] == a[1..] + b && (a + b)[0] == a[0];
      ChainConcat(a[1..], b, blocks);
      var above := SendChain(a[1..], upper.out);
      var r := SendAll(a[0], above.out);
      Assoc([r.filter], above.filters, upper.filters);
    }
  }

  lemma {:induction false} RecvChainConcat<S>(a: seq<Filter<S>>, b: seq<Filter<S>>, blocks: seq<Data>)
    ensures var lower := RecvChain(a, blocks);
            var upper := RecvChain(b, lower.out);
            RecvChain(a + b, blocks) == Passed(lower.filters + upper.filters, upper.out)
    decreases |a|
  {
    if a == [] {
      assert a + b == b;
      NoneLeft(RecvChain(b, blocks).filters);
    } else {
      assert (a + b)[1..] == a[1..] + b && (a + b)[0] == a[0];
      var r := RecvAll(a[0], blocks);
      RecvChainConcat(a[1..], b, r.out);
      var lower := RecvChain(a[1..], r.out);
      var upper := RecvChain(b, lower.out);
      Assoc([r.filter], lower.filters, upper.filters);
    }
  }

  /** Split law: the whole outgoing path is the filters from `k` up, and then an injection at `k`;
      the injection touches none of the filters from `k` up. */
  lemma {:induction false} SplitLaw<S>(fs: seq<Filter<S>>, k: nat, blocks: seq<Data>)
    requires k <= |fs|
    ensures var upper := SendChain(fs[k..], blocks);
            && SendChain(fs, blocks) == Inject(fs[..k] + upper.filters, k, upper.out)
            && Inject(fs, k, blocks).filters[k..] == fs[k..]
  {
    var upper := SendChain(fs[k..], blocks);
    assert fs[..k] + fs[k..] == fs;
    ChainConcat(fs[..k], fs[k..], blocks);
    var whole := fs[..k] + upper.filters;
    assert whole[..k] == fs[..k] && whole[k..] == upper.filters;
  }

  // ---------------------------------------------------------------------------
  // Block by block

  lemma {:induction false} SendAllConcat<S>(f: Filter<S>, a: seq<Data>, b: seq<Data>)
    ensures var first := SendAll(f, a);
            var second := SendAll(first.filter, b);
            SendAll(f, a + b) == Filtered(second.filter, first.out + second.out)
    decreases |a|
  {
    if a == [] {
      assert a + b == b;
      NoneLeft(SendAll(f, b).out);
    } else {
      assert (a + b)[1..] == a[1..] + b && (a + b)[0] == a[0];
      var (st, out) := f.send(f.state, a[0]);
      var g := f.(state := st);
      SendAllConcat(g, a[1..], b);
      var first := SendAll(g, a[1..]);
      var second := SendAll(first.filter, b);
      Assoc(out, first.out, second.out);
    }
  }

  lemma {:induction false} RecvAllConcat<S>(f: Filter<S>, a: seq<Data>, b: seq<Data>)
    ensures var first := RecvAll(f, a);
            var second := RecvAll(first.filter, b);
            RecvAll(f, a + b) == Filtered(second.filter, first.out + second.out)
    decreases |a|
  {
    if a == [] {
      assert a + b == b;
      NoneLeft(RecvAll(f, b).out);
    } else {
      assert (a + b)[1..] == a[1..] + b && (a + b)[0] == a[0];
      var (st, out) := f.recv(f.state, a[0]);
      var g := f.(state := st);
      RecvAllConcat(g, a[1..], b);
      var first := RecvAll(g, a[1..]);
      var second := RecvAll(first.filter, b);
      Assoc(out, first.out, second.out);
    }
  }

  /** Sending in two portions, the whole chain each time, is sending once. */
  lemma {:induction false} SendInPortions<S>(fs: seq<Filter<S>>, a: seq<Data>, b: seq<Data>)
    ensures var first := SendChain(fs, a);
            var second := SendChain(first.filters, b);
            SendChain(fs, a + b) == Passed(second.filters, first.out + second.out)
  {
    if fs != [] {
      SendInPortions(fs[1..], a, b);
      var first := SendChain(fs, a);
      assert first.filters[1..] == SendChain(fs[1..], a).filters;
      var up1 := SendChain(fs[1..], a);
      var up2 := SendChain(up1.filters, b);
      SendAllConcat(fs[0], up1.out, up2.out);
    }
  }

  /** Receiving in two portions, the whole chain each time, is receiving once. */
  lemma {:induction false} RecvInPortions<S>(fs: seq<Filter<S>>, a: seq<Data>, b: seq<Data>)
    ensures var first := RecvChain(fs, a);
            var second := RecvChain(first.filters, b);
            RecvChain(fs, a + b) == Passed(second.filters, first.out + second.out)
    decreases |fs|
  {
    if fs != [] {
      RecvAllConcat(fs[0], a, b);
      var r1 := RecvAll(fs[0], a);
      var r2 := RecvAll(r1.filter, b);
      RecvInPortions(fs[1..], r1.out, r2.out);
      assert RecvChain(fs, a).filters[1..] == RecvChain(fs[1..], r1.out).filters;
    }
  }

  /** Nothing in, nothing out: stopping the loop on an empty list changes nothing. */
  lemma {:induction false} EmptyStaysEmpty<S>(fs: seq<Filter<S>>)
    ensures SendChain(fs, []) == Passed(fs, []) && RecvChain(fs, []) == Passed(fs, [])
  {
    if fs != [] {
      EmptyStaysEmpty(fs[1..]);
      assert [fs[0]] + fs[1..] == fs;
    }
  }

  // ---------------------------------------------------------------------------
  // Filters that undo themselves

  /** On the filters in `sync`, receiving undoes sending on the byte stream: whatever was sent, and
      however the stream put out is cut into blocks again, the stream that comes back is the one
      that went in, and the filter is in `sync` again. */
  ghost predicate Undoes<S(!new)>(sync: Filter<S> -> bool) {
    forall f: Filter<S>, xs: seq<Data>, zs: seq<Data> {:trigger RecvAll(SendAll(f, xs).filter, zs)} ::
      sync(f) && Flatten(zs) == Flatten(SendAll(f, xs).out)
      ==> var back := RecvAll(SendAll(f, xs).filter, zs);
          Flatten(back.out) == Flatten(xs) && sync(back.filter)
  }

  ghost predicate AllSynced<S(!new)>(sync: Filter<S> -> bool, fs: seq<Filter<S>>) {
    forall k :: 0 <= k < |fs| ==> sync(fs[k])
  }

  /** A chain of such filters undoes itself, for any length, fan-out and re-splitting. */
  lemma {:induction false} ChainUndoes<S(!new)>(
    sync: Filter<S> -> bool, fs: seq<Filter<S>>, xs: seq<Data>, zs: seq<Data>)
    requires Undoes(sync) && AllSynced(sync, fs)
    requires Flatten(zs) == Flatten(SendChain(fs, xs).out)
    ensures var back := RecvChain(SendChain(fs, xs).filters, zs);
            Flatten(back.out) == Flatten(xs) && AllSynced(sync, back.filters)
    decreases |fs|
  {
    if fs != [] {
      var up := SendChain(fs[1..], xs);
      var r := SendAll(fs[0], up.out);
      var sent := SendChain(fs, xs);
      assert sent.filters[0] == r.filter && sent.filters[1..] == up.filters;
      var back := RecvAll(SendAll(fs[0], up.out).filter, zs);
      ChainUndoes(sync, fs[1..], xs, back.out);
    }
  }

  /** The filter that a plugin gets when it overrides nothing. */
  function PassThrough<S>(state: S): Filter<S> {
    Filter(state, (st: S, d: Data) => (st, [d]), (st: S, d: Data) => (st, [d]))
  }

  lemma {:induction false} PassThroughKeeps<S>(f: Filter<S>, blocks: seq<Data>)
    requires f == PassThrough(f.state)
    ensures SendAll(f, blocks) == Filtered(f, blocks) && RecvAll(f, blocks) == Filtered(f, blocks)
    decreases |blocks|
  {
    if blocks != [] {
      PassThroughKeeps(f, blocks[1..]);
      assert f.send(f.state, blocks[0]) == (f.state, [blocks[0]]);
      assert f.recv(f.state, blocks[0]) == (f.state, [blocks[0]]);
      assert f.(state := f.state) == f;
      assert [blocks[0]] + blocks[1..] == blocks;
    }
  }

  /** The assumption on filters is met by chains of plugins that override nothing. */
  lemma {:induction false} PassThroughUndoes<S(!new)>()
    ensures exists sync: Filter<S> -> bool ::
              Undoes(sync) && forall st: S {:trigger PassThrough(st)} :: sync(PassThrough(st))
  {
    ghost var sync := (f: Filter<S>) => f == PassThrough(f.state);
    forall f: Filter<S>, xs: seq<Data>, zs: seq<Data> {:trigger RecvAll(SendAll(f, xs).filter, zs)} |
      sync(f) && Flatten(zs) == Flatten(SendAll(f, xs).out)
      ensures var back := RecvAll(SendAll(f, xs).filter, zs);
              Flatten(back.out) == Flatten(xs) && sync(back.filter)
    {
      PassThroughKeeps(f, xs);
      PassThroughKeeps(f, zs);
    }
    assert Undoes(sync);
  }
}
