/** Filters while data is under way: some of what was sent has been put out and has not come back
    yet, and sending and receiving take turns. */
module InFlight {
  import opened Bytes
  import opened FilterChain
  import opened Seqs

  /** `c(f, low, high)`: the octets `low`, put out by the filter and not yet received again, stand
      for the octets `high` that were given to it. */
  type Carries<!S> = (Filter<S>, Data, Data) -> bool

  ghost predicate SendsBehind<S(!new)>(c: Carries<S>) {
    forall f: Filter<S>, low: Data, high: Data, d: Data {:trigger c(f, low, high), f.send(f.state, d)} ::
      c(f, low, high) ==>
        var (st, out) := f.send(f.state, d);
        c(f.(state := st), low + Flatten(out), high + d)
  }

  ghost predicate ReceivesInFront<S(!new)>(c: Carries<S>) {
    forall f: Filter<S>, low: Data, high: Data, d: Data {:trigger c(f, d + low, high)} ::
      c(f, d + low, high) ==>
        var (st, out) := f.recv(f.state, d);
        Flatten(out) <= high && c(f.(state := st), low, high[|Flatten(out)|..])
  }

  ghost predicate NothingLost<S(!new)>(c: Carries<S>) {
    forall f: Filter<S>, high: Data {:trigger c(f, [], high)} :: c(f, [], high) ==> high == []
  }

  /** What is sent goes behind what is under way, what is received comes from its front, in any
      cuts, and once everything has come back nothing is missing. */
  ghost predicate Returns<S(!new)>(c: Carries<S>) {
    SendsBehind(c) && ReceivesInFront(c) && NothingLost(c)
  }

  lemma {:induction false} SendAllBehind<S(!new)>(
    c: Carries<S>, f: Filter<S>, low: Data, high: Data, blocks: seq<Data>)
    requires SendsBehind(c) && c(f, low, high)
    ensures var r := SendAll(f, blocks); c(r.filter, low + Flatten(r.out), high + Flatten(blocks))
    decreases |blocks|
  {
    if blocks == [] {
      NoneRight(low);
      NoneRight(high);
    } else {
      var (st, out) := f.send(f.state, blocks[0]);
      var g := f.(state := st);
      SendAllBehind(c, g, low + Flatten(out), high + blocks[0], blocks[1..]);
      var later := SendAll(g, blocks[1..]);
      FlattenConcat(out, later.out);
      Assoc(low, Flatten(out), Flatten(later.out));
      Assoc(high, blocks[0], Flatten(blocks[1..]));
    }
  }

  lemma {:induction false} RecvAllInFront<S(!new)>(
    c: Carries<S>, f: Filter<S>, low: Data, high: Data, blocks: seq<Data>) returns (later: Data)
    requires ReceivesInFront(c) && c(f, Flatten(blocks) + low, high)
    ensures var r := RecvAll(f, blocks); high == Flatten(r.out) + later && c(r.filter, low, later)
    decreases |blocks|
  {
    if blocks == [] {
      NoneLeft(low);
      NoneLeft(high);
      later := high;
    } else {
      Assoc(blocks[0], Flatten(blocks[1..]), low);
      assert c(f, blocks[0] + (Flatten(blocks[1..]) + low), high);
      var (st, out) := f.recv(f.state, blocks[0]);
      var n := |Flatten(out)|;
      assert high == Flatten(out) + high[n..];
      later := RecvAllInFront(c, f.(state := st), low, high[n..], blocks[1..]);
      var r := RecvAll(f.(state := st), blocks[1..]);
      FlattenConcat(out, r.out);
      Assoc(Flatten(out), Flatten(r.out), later);
    }
  }

  /** Such filters undo themselves when everything sent comes back before anything else is sent. */
  lemma {:induction false} ReturnsUndoes<S(!new)>(c: Carries<S>) returns (sync: Filter<S> -> bool)
    requires Returns(c)
    ensures Undoes(sync)
    ensures forall f: Filter<S> {:trigger sync(f)} :: sync(f) == c(f, [], [])
  {
    ghost var idle := (f: Filter<S>) => c(f, [], []);
    sync := idle;
    forall f: Filter<S>, xs: seq<Data>, zs: seq<Data> {:trigger RecvAll(SendAll(f, xs).filter, zs)} |
      sync(f) && Flatten(zs) == Flatten(SendAll(f, xs).out)
      ensures var back := RecvAll(SendAll(f, xs).filter, zs);
              Flatten(back.out) == Flatten(xs) && sync(back.filter)
    {
      var sent := SendAll(f, xs);
      SendAllBehind(c, f, [], [], xs);
      NoneLeft(Flatten(sent.out));
      NoneLeft(Flatten(xs));
      NoneRight(Flatten(zs));
      var later := RecvAllInFront(c, sent.filter, [], Flatten(xs), zs);
      NoneRight(Flatten(RecvAll(sent.filter, zs).out));
    }
  }

  // ---------------------------------------------------------------------------
  // The chain

  /** The same for a chain: the octets on the wire stand for octets between the filters, and those
      for what was given to the whole chain. */
  ghost predicate Carried<S(!new)>(c: Carries<S>, fs: seq<Filter<S>>, low: Data, high: Data) {
    if fs == [] then low == high
    else exists mid: Data {:trigger c(fs[0], low, mid)} ::
           c(fs[0], low, mid) && Carried(c, fs[1..], mid, high)
  }

  lemma {:induction false} CarriedThrough<S(!new)>(
    c: Carries<S>, f: Filter<S>, fs: seq<Filter<S>>, low: Data, mid: Data, high: Data)
    requires c(f, low, mid) && Carried(c, fs, mid, high)
    ensures Carried(c, [f] + fs, low, high)
  {
    var gs := [f] + fs;
    assert gs[1..] == fs;
    assert c(gs[0], low, mid) && Carried(c, gs[1..], mid, high);
  }

  lemma {:induction false} ChainIdle<S(!new)>(c: Carries<S>, fs: seq<Filter<S>>)
    requires forall k :: 0 <= k < |fs| ==> c(fs[k], [], [])
    ensures Carried(c, fs, [], [])
  {
    if fs != [] {
      ChainIdle(c, fs[1..]);
      assert c(fs[0], [], []);
    }
  }

  lemma {:induction false} ChainSendsBehind<S(!new)>(
    c: Carries<S>, fs: seq<Filter<S>>, low: Data, high: Data, blocks: seq<Data>)
    requires SendsBehind(c) && Carried(c, fs, low, high)
    ensures var p := SendChain(fs, blocks); Carried(c, p.filters, low + Flatten(p.out), high + Flatten(blocks))
  {
    if fs != [] {
      var mid: Data :| c(fs[0], low, mid) && Carried(c, fs[1..], mid, high);
      ChainSendsBehind(c, fs[1..], mid, high, blocks);
      var above := SendChain(fs[1..], blocks);
      SendAllBehind(c, fs[0], low, mid, above.out);
      var r := SendAll(fs[0], above.out);
      CarriedThrough(c, r.filter, above.filters, low + Flatten(r.out), mid + Flatten(above.out),
                     high + Flatten(blocks));
    }
  }

  lemma {:induction false} ChainReceivesInFront<S(!new)>(
    c: Carries<S>, fs: seq<Filter<S>>, low: Data, high: Data, blocks: seq<Data>) returns (later: Data)
    requires ReceivesInFront(c) && Carried(c, fs, Flatten(blocks) + low, high)
    ensures var p := RecvChain(fs, blocks); high == Flatten(p.out) + later && Carried(c, p.filters, low, later)
    decreases |fs|
  {
    if fs == [] {
      later := low;
    } else {
      var mid: Data :| c(fs[0], Flatten(blocks) + low, mid) && Carried(c, fs[1..], mid, high);
      var under := RecvAllInFront(c, fs[0], low, mid, blocks);
      var r := RecvAll(fs[0], blocks);
      later := ChainReceivesInFront(c, fs[1..], under, high, r.out);
      CarriedThrough(c, r.filter, RecvChain(fs[1..], r.out).filters, low, under, later);
    }
  }

  lemma {:induction false} ChainLosesNothing<S(!new)>(c: Carries<S>, fs: seq<Filter<S>>, high: Data)
    requires NothingLost(c) && Carried(c, fs, [], high)
    ensures high == []
  {
    if fs != [] {
      var mid: Data :| c(fs[0], [], mid) && Carried(c, fs[1..], mid, high);
      ChainLosesNothing(c, fs[1..], high);
    }
  }

  // ---------------------------------------------------------------------------
  // Filters that pass everything through

  lemma {:induction false} PassThroughReturns<S(!new)>() returns (c: Carries<S>)
    ensures Returns(c)
    ensures forall st: S {:trigger PassThrough(st)} :: c(PassThrough(st), [], [])
  {
    ghost var same := (f: Filter<S>, low: Data, high: Data) => f == PassThrough(f.state) && low == high;
    c := same;
    forall f: Filter<S>, low: Data, high: Data, d: Data {:trigger c(f, low, high), f.send(f.state, d)} | c(f, low, high)
      ensures var (st, out) := f.send(f.state, d); c(f.(state := st), low + Flatten(out), high + d)
    {
      PassThroughOne(f, d);
    }
    forall f: Filter<S>, low: Data, high: Data, d: Data {:trigger c(f, d + low, high)} | c(f, d + low, high)
      ensures var (st, out) := f.recv(f.state, d);
              Flatten(out) <= high && c(f.(state := st), low, high[|Flatten(out)|..])
    {
      PassThroughOne(f, d);
    }
  }

  lemma {:induction false} PassThroughOne<S>(f: Filter<S>, d: Data)
    requires f == PassThrough(f.state)
    ensures f.send(f.state, d) == (f.state, [d]) && f.recv(f.state, d) == (f.state, [d])
    ensures f.(state := f.state) == f && Flatten([d]) == d
  {
    assert [d][1..] == [];
    NoneRight(d);
  }
}
