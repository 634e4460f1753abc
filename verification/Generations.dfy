/** Reactions to reactions: what a protocol writes when it hears messages, what it writes when it
    hears that, and so on. */
module Generations {
  import opened Wrappers
  import opened Bytes
  import opened FrameReader
  import opened MsgStore
  import opened Loopback
  import opened Seqs

  /** What the protocol writes in reaction to these messages, in order. */
  function Replies(ms: seq<Msg>, hook: Hook): seq<Msg> {
    if ms == [] then [] else Messages(Written(hook(ms[0]))) + Replies(ms[1..], hook)
  }

  /** The replies to the replies, `d` times over. */
  function Generation(ms: seq<Msg>, hook: Hook, d: nat): seq<Msg>
    decreases d
  {
    if d == 0 then ms else Generation(Replies(ms, hook), hook, d - 1)
  }

  /** The first `d` generations, one behind the other. */
  function Ancestry(ms: seq<Msg>, hook: Hook, d: nat): seq<Msg> {
    if d == 0 then [] else Ancestry(ms, hook, d - 1) + Generation(ms, hook, d - 1)
  }

  /** At some point nothing is answered any more. */
  ghost predicate DiesOut(ms: seq<Msg>, hook: Hook) {
    exists d: nat :: Generation(ms, hook, d) == []
  }

  lemma {:induction false} RepliesConcat(a: seq<Msg>, b: seq<Msg>, hook: Hook)
    ensures Replies(a + b, hook) == Replies(a, hook) + Replies(b, hook)
  {
    if a == [] {
      NoneLeft(b);
      NoneLeft(Replies(b, hook));
    } else {
      assert (a + b)[1..] == a[1..] + b;
      RepliesConcat(a[1..], b, hook);
      Assoc(Messages(Written(hook(a[0]))), Replies(a[1..], hook), Replies(b, hook));
    }
  }

  lemma {:induction false} GenerationConcat(a: seq<Msg>, b: seq<Msg>, hook: Hook, d: nat)
    ensures Generation(a + b, hook, d) == Generation(a, hook, d) + Generation(b, hook, d)
    decreases d
  {
    if d != 0 {
      RepliesConcat(a, b, hook);
      GenerationConcat(Replies(a, hook), Replies(b, hook), hook, d - 1);
    }
  }

  lemma {:induction false} GenerationNext(ms: seq<Msg>, hook: Hook, d: nat)
    ensures Generation(ms, hook, d + 1) == Replies(Generation(ms, hook, d), hook)
    decreases d
  {
    if d != 0 {
      GenerationNext(Replies(ms, hook), hook, d - 1);
    }
  }

  /** Once `a` has been heard and its replies are queued behind `b`. */
  lemma {:induction false} GenerationOn(a: seq<Msg>, b: seq<Msg>, hook: Hook, d: nat)
    ensures Generation(b + Replies(a, hook), hook, d) == Generation(b, hook, d) + Generation(a, hook, d + 1)
  {
    GenerationConcat(b, Replies(a, hook), hook, d);
  }

  /** Hearing the front of a queue changes nothing about whether it dies out. */
  lemma {:induction false} DiesOutOn(a: seq<Msg>, b: seq<Msg>, hook: Hook)
    ensures DiesOut(a + b, hook) <==> DiesOut(b + Replies(a, hook), hook)
  {
    if d: nat :| Generation(a + b, hook, d) == [] {
      GenerationConcat(a, b, hook, d);
      GenerationOn(a, b, hook, d);
      GenerationNext(a, hook, d);
      assert Generation(b + Replies(a, hook), hook, d) == [];
    }
    if d: nat :| Generation(b + Replies(a, hook), hook, d) == [] {
      GenerationOn(a, b, hook, d);
      GenerationNext(b, hook, d);
      GenerationConcat(a, b, hook, d + 1);
      assert Generation(a + b, hook, d + 1) == [];
    }
  }

  /** Taking messages from the front and queueing their replies goes through the generations in
      order. */
  lemma {:induction false} AncestryOn(a: seq<Msg>, b: seq<Msg>, hook: Hook, d: nat)
    ensures Ancestry(a + b, hook, d) + Generation(a, hook, d) == a + Ancestry(b + Replies(a, hook), hook, d)
  {
    if d == 0 {
      NoneLeft(a);
      NoneRight(a);
    } else {
      var e := d - 1;
      var on := b + Replies(a, hook);
      var was, now := Ancestry(a + b, hook, e), Ancestry(on, hook, e);
      var ga, gb, gn := Generation(a, hook, e), Generation(b, hook, e), Generation(a, hook, d);
      AncestryOn(a, b, hook, e);
      GenerationConcat(a, b, hook, e);
      GenerationOn(a, b, hook, e);
      assert was + (ga + gb) + gn == a + (now + (gb + gn)) by {
        Assoc(was, ga, gb);
        Assoc(was + ga, gb, gn);
        Assoc(a, now, gb + gn);
      }
    }
  }

  /** The replies to the first generations are the generations behind the first one. */
  lemma {:induction false} AncestryReplies(ms: seq<Msg>, hook: Hook, d: nat)
    ensures ms + Replies(Ancestry(ms, hook, d), hook) == Ancestry(ms, hook, d + 1)
  {
    if d == 0 {
      NoneRight(ms);
      NoneLeft(ms);
    } else {
      var e := d - 1;
      AncestryReplies(ms, hook, e);
      RepliesConcat(Ancestry(ms, hook, e), Generation(ms, hook, e), hook);
      GenerationNext(ms, hook, e);
      Assoc(ms, Replies(Ancestry(ms, hook, e), hook), Generation(ms, hook, d));
    }
  }

  lemma {:induction false} NoneGoOn(hook: Hook, d: nat)
    ensures Generation([], hook, d) == [] && Ancestry([], hook, d) == []
  {
    if d != 0 {
      NoneGoOn(hook, d - 1);
      GenerationNext([], hook, d - 1);
    }
  }

  // ---------------------------------------------------------------------------
  // Protocols whose exchanges die out

  /** A protocol that never sends on its own account is done after one generation. */
  lemma {:induction false} SilentDiesOut(ms: seq<Msg>, hook: Hook)
    requires Silent(hook)
    ensures Generation(ms, hook, 1) == []
    decreases |ms|
  {
    if ms != [] {
      SilentDiesOut(ms[1..], hook);
      NothingWritten(hook(ms[0]));
    }
  }

  lemma {:induction false} NothingWritten(os: seq<Option<Outgoing>>)
    requires Present(os) == []
    ensures Written(os) == []
  {
    if os != [] {
      NothingWritten(os[1..]);
    }
  }

  ghost predicate RankedBelow(ms: seq<Msg>, rank: Msg -> nat, bound: nat) {
    forall k :: 0 <= k < |ms| ==> rank(ms[k]) < bound
  }

  /** Every reply ranks below what it answers. */
  ghost predicate Ranked(hook: Hook, rank: Msg -> nat) {
    forall m: Msg {:trigger rank(m)} :: RankedBelow(Messages(Written(hook(m))), rank, rank(m))
  }

  lemma {:induction false} RepliesRanked(ms: seq<Msg>, hook: Hook, rank: Msg -> nat, bound: nat)
    requires Ranked(hook, rank) && RankedBelow(ms, rank, bound + 1)
    ensures RankedBelow(Replies(ms, hook), rank, bound)
    decreases |ms|
  {
    if ms != [] {
      RepliesRanked(ms[1..], hook, rank, bound);
      assert rank(ms[0]) < bound + 1;
    }
  }

  /** Ranks bound the number of generations. */
  lemma {:induction false} RankedDiesOut(ms: seq<Msg>, hook: Hook, rank: Msg -> nat, bound: nat)
    requires Ranked(hook, rank) && RankedBelow(ms, rank, bound)
    ensures Generation(ms, hook, bound) == []
    decreases bound
  {
    if ms == [] {
      NoneGoOn(hook, bound);
    } else {
      assert rank(ms[0]) < bound;
      RepliesRanked(ms, hook, rank, bound - 1);
      RankedDiesOut(Replies(ms, hook), hook, rank, bound - 1);
    }
  }

  /** A protocol that answers with one and the same message goes on for ever. */
  lemma {:induction false} AnswerNeverDies(msg: Msg, raw: Data)
    ensures !DiesOut([msg], (m: Msg) => [Some(Outgoing(msg, Some(raw)))])
  {
    var hook := (m: Msg) => [Some(Outgoing(msg, Some(raw)))];
    forall d: nat ensures Generation([msg], hook, d) == [msg] {
      AnswerAgain(msg, raw, d);
    }
  }

  lemma {:induction false} AnswerAgain(msg: Msg, raw: Data, d: nat)
    ensures Generation([msg], (m: Msg) => [Some(Outgoing(msg, Some(raw)))], d) == [msg]
    decreases d
  {
    if d != 0 {
      var hook := (m: Msg) => [Some(Outgoing(msg, Some(raw)))];
      var o := Outgoing(msg, Some(raw));
      assert hook(msg) == [Some(o)] && [Some(o)][1..] == [] && [o][1..] == [] && [msg][1..] == [];
      assert Written([Some(o)]) == [o];
      assert Messages([o]) == [o.msg] + Messages([]);
      assert Replies([msg], hook) == [msg];
      AnswerAgain(msg, raw, d - 1);
    }
  }
}
