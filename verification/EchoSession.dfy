/** The objects once more: a list sent to an answering protocol through an echo socket. */
module EchoSession {
  import opened Wrappers
  import opened FrameReader
  import opened MsgStore
  import opened Loopback
  import opened InFlight
  import opened Generations
  import opened EchoAnswers
  import opened MsgMgr

  /** A protocol that answers what it hears, on a running echo socket: if the generations of its
      replies die out, so that the `d`-th is empty, the socket's loop comes to its end, and what has
      been received by then are the generations in order. */
  method SendAndHearAnswers<S(!new)>(
    mgr: ToolsMsgMgr<S>, sock: EchoSocket, msgs: seq<Option<Outgoing>>, ghost c: Carries<S>, ghost d: nat)
    requires mgr.socket == sock && mgr.Ready() && mgr.Listening()
    requires sock.running && sock.connected && sock.pending == [] && !sock.timerActive
    requires mgr.frame.inData == [] && mgr.frame.garbage == []
    requires PrefixStable(mgr.frame.frame) && Readable(mgr.frame.frame, msgs)
    requires Understood(mgr.frame.frame, mgr.hook, Messages(Written(msgs)))
    requires Returns(c) && forall k :: 0 <= k < |mgr.filters| ==> c(mgr.filters[k], [], [])
    requires Generation(Messages(Written(msgs)), mgr.hook, d) == []
    modifies mgr`allMsgs, mgr`nextMsgNum, mgr`filters, mgr`out, mgr`reported, mgr.frame, sock`pending, sock`timerActive
    ensures Heard(mgr.allMsgs) == Heard(old(mgr.allMsgs)) + Ancestry(Messages(Written(msgs)), mgr.hook, d)
    ensures mgr.Ready() && Idle(c, mgr.EchoNow())
  {
    ghost var n := SentHears(mgr.frame.frame, mgr.hook, c, mgr.View(), msgs, d);
    ghost var end := HandOvers(mgr.FrameNow(), mgr.hook, true, true, Sending(mgr.LinkNow(), msgs), n);
    SendAndFire(mgr, sock, msgs, n, end);
  }
}
