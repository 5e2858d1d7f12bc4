/** The control phase of `disconnect`: one FIN per connection, each on a randomly picked initiator, and
 * then polls until every peer's FIN has been counted.
 */
module ControlPhase {

  import opened WorkRequests
  import opened ReadEngine

  /** The random number drawn for a send, and whether the adapter takes the request. */
  datatype SendReply = SendReply(pick: nat, accepted: bool)

  /** send_control */
  function SendControl(cfg: Config, s: State, conn: nat, reply: SendReply): (r: Step)
    requires s.Shape()
    ensures r.state.Shape()
  {
    match cfg.transport
    case RC =>
      if reply.accepted then Next(s.(inflight := s.inflight + [Send(conn, 0)])) else Stop(ErrorReturn, s)
    case DC =>
      var d := reply.pick % NUM_DCI;
      if s.dciOut[d] >= cfg.txQueueLen then Stop(TxQueueFull(d), s)
      else if !reply.accepted then Stop(ErrorReturn, s)
      else Next(s.(dciOut := s.dciOut[d := s.dciOut[d] + 1], inflight := s.inflight + [Send(conn, d)]))
  }

  /** The send loop: one FIN for each of the connections conn, conn + 1, ... */
  function SendFins(cfg: Config, s: State, conn: nat, replies: seq<SendReply>): (r: Step)
    requires s.Shape()
    ensures r.state.Shape()
    decreases |replies|
  {
    if replies == [] then Next(s) else
    match SendControl(cfg, s, conn, replies[0])
    case Next(s') => SendFins(cfg, s', conn + 1, replies[1..])
    case Stop(f, s') => Stop(f, s')
  }

  /** The wait loop: polls until as many FINs as connections have been counted. */
  function AwaitFins(cfg: Config, s: State, conns: nat, polls: seq<PollReply>): Outcome
    requires s.Shape()
    decreases |polls|
  {
    if s.finRecvd >= conns then Finished(s)
    else if polls == [] then Pending(s)
    else
      match Poll(cfg, s, polls[0])
      case Next(s') => AwaitFins(cfg, s', conns, polls[1..])
      case Stop(f, s') => Halted(f, s')
  }

  /** disconnect, up to the end of the FIN wait. */
  function Disconnect(cfg: Config, s: State, sends: seq<SendReply>, polls: seq<PollReply>): Outcome
    requires s.Shape()
  {
    match SendFins(cfg, s, 0, sends)
    case Next(s') => AwaitFins(cfg, s', |sends|, polls)
    case Stop(f, s') => Halted(f, s')
  }

  /** After the reads: nothing but control sends in flight, at most `sent` of them. */
  ghost predicate Controlling(cfg: Config, s: State, sent: nat) {
    && Accounts(cfg, s)
    && s.queue == []
    && |s.inflight| <= sent
    && (forall i :: 0 <= i < |s.inflight| ==> s.inflight[i].Send?)
  }

  lemma SendKeeps(cfg: Config, s: State, conn: nat, reply: SendReply, sent: nat)
    requires Controlling(cfg, s, sent) && sent < cfg.txQueueLen
    ensures var r := SendControl(cfg, s, conn, reply);
            && (r.Stop? <==> !reply.accepted)
            && (r.Stop? ==> r.fault.ErrorReturn? && r.state == s)
            && (r.Next? ==> Controlling(cfg, r.state, sent + 1))
            && r.state.log == s.log && r.state.offsets == s.offsets && r.state.finRecvd == s.finRecvd
  {
    var w := Send(conn, if cfg.transport.DC? then reply.pick % NUM_DCI else 0);
    CountAppend(IsRead, s.inflight, w);
    if cfg.transport.DC? {
      TermAtMostSum(s.dciOut, w.wrId);
      ClaimKeepsAccounts(s.dciOut, s.freeDci, s.inflight, w);
    }
  }

  /** The request of a control send: on DC on the picked one of the eight initiators. */
  function FinSend(cfg: Config, conn: nat, reply: SendReply): Wr {
    Send(conn, if cfg.transport.DC? then reply.pick % 8 else 0)
  }

  /** The sends of the connections conn, conn + 1, ... in order. */
  function FinSends(cfg: Config, conn: nat, replies: seq<SendReply>): seq<Wr> {
    seq(|replies|, i requires 0 <= i < |replies| => FinSend(cfg, conn + i, replies[i]))
  }

  /** A control send that returns has handed exactly one request to the adapter, for its connection. */
  lemma SendPosts(cfg: Config, s: State, conn: nat, reply: SendReply)
    requires s.Shape() && SendControl(cfg, s, conn, reply).Next?
    ensures SendControl(cfg, s, conn, reply).state.inflight == s.inflight + [FinSend(cfg, conn, reply)]
  {
  }

  /** How many of the first sends are accepted. */
  function AcceptedPrefix(replies: seq<SendReply>): (k: nat)
    ensures k <= |replies|
    ensures forall i :: 0 <= i < k ==> replies[i].accepted
    ensures k < |replies| ==> !replies[k].accepted
  {
    if replies == [] || !replies[0].accepted then 0 else 1 + AcceptedPrefix(replies[1..])
  }

  /** The send loop stops exactly at the first send that is not accepted; up to there it has handed one send per
   * connection to the adapter, in order.
   */
  lemma {:induction false} SendFinsPosts(cfg: Config, s: State, conn: nat, replies: seq<SendReply>, sent: nat)
    requires Controlling(cfg, s, sent) && sent + |replies| <= cfg.txQueueLen
    ensures var r, k := SendFins(cfg, s, conn, replies), AcceptedPrefix(replies);
            && (r.Stop? <==> k < |replies|)
            && r.state.inflight == s.inflight + FinSends(cfg, conn, replies[..k])
    decreases |replies|
  {
    if replies != [] {
      SendKeeps(cfg, s, conn, replies[0], sent);
      var r, k := SendControl(cfg, s, conn, replies[0]), AcceptedPrefix(replies);
      if r.Next? {
        SendPosts(cfg, s, conn, replies[0]);
        SendFinsPosts(cfg, r.state, conn + 1, replies[1..], sent + 1);
        FinSendsCons(cfg, conn, replies, k);
      }
    }
  }

  lemma FinSendsCons(cfg: Config, conn: nat, replies: seq<SendReply>, k: nat)
    requires 0 < k <= |replies|
    ensures FinSends(cfg, conn, replies[..k])
         == [FinSend(cfg, conn, replies[0])] + FinSends(cfg, conn + 1, replies[1..][..k - 1])
  {
  }

  /** The FINs among the replies of the polls. */
  function FinsIn(polls: seq<PollReply>): nat {
    if polls == [] then 0 else (if polls[0] == Packet(true) then 1 else 0) + FinsIn(polls[1..])
  }

  predicate ErrorFree(polls: seq<PollReply>) { forall i :: 0 <= i < |polls| ==> !polls[i].BadStatus? }

  /** The first k polls report no error and bring the count up to conns. */
  predicate Enough(s: State, conns: nat, polls: seq<PollReply>, k: nat) {
    k <= |polls| && ErrorFree(polls[..k]) && s.finRecvd + FinsIn(polls[..k]) >= conns
  }

  /** The FIN wait ends well exactly when enough FINs come before an error, whatever else completes; it fails
   * exactly when an error comes first; and otherwise it goes on.
   */
  lemma {:induction false} AwaitFinsIff(cfg: Config, s: State, conns: nat, polls: seq<PollReply>, sent: nat)
    requires Controlling(cfg, s, sent)
    ensures var o := AwaitFins(cfg, s, conns, polls);
            && (o.Finished? <==> exists k :: Enough(s, conns, polls, k))
            && (o.Halted? <==> !o.Finished? && !ErrorFree(polls))
    decreases |polls|
  {
    if s.finRecvd >= conns {
      assert Enough(s, conns, polls, 0);
    } else if polls != [] {
      PollKeepsAccounts(cfg, s, polls[0]);
      ControlPollKeeps(cfg, s, polls[0], sent);
      assert !Enough(s, conns, polls, 0);
      var r := Poll(cfg, s, polls[0]);
      forall k: nat | 0 < k <= |polls| ensures polls[..k][0] == polls[0] && polls[..k][1..] == polls[1..][..k - 1] { }
      if r.Next? {
        AwaitFinsIff(cfg, r.state, conns, polls[1..], sent);
        EnoughNext(s, r.state, conns, polls);
      }
    }
  }

  lemma EnoughNext(s: State, s': State, conns: nat, polls: seq<PollReply>)
    requires polls != [] && !polls[0].BadStatus? && s.finRecvd < conns
    requires s'.finRecvd == s.finRecvd + if polls[0] == Packet(true) then 1 else 0
    ensures (exists k :: Enough(s, conns, polls, k)) <==> exists k :: Enough(s', conns, polls[1..], k)
    ensures ErrorFree(polls) <==> ErrorFree(polls[1..])
  {
    forall k: nat ensures Enough(s', conns, polls[1..], k) <==> Enough(s, conns, polls, k + 1) {
      if k + 1 <= |polls| {
        assert polls[..k + 1] == [polls[0]] + polls[1..][..k];
      }
    }
    assert !Enough(s, conns, polls, 0);
    if k: nat :| Enough(s, conns, polls, k) { assert Enough(s', conns, polls[1..], k - 1); }
    if k: nat :| Enough(s', conns, polls[1..], k) { assert Enough(s, conns, polls, k + 1); }
    assert forall i :: 0 < i < |polls| ==> polls[i] == polls[1..][i - 1];
  }

  /** disconnect ends well exactly when every FIN is accepted and enough FINs come in before an error. */
  lemma DisconnectIff(cfg: Config, s: State, sends: seq<SendReply>, polls: seq<PollReply>)
    requires Idle(cfg, s) && |sends| <= cfg.txQueueLen
    ensures var o := Disconnect(cfg, s, sends, polls);
            && (o.Finished? <==> AcceptedPrefix(sends) == |sends| && exists k :: Enough(s, |sends|, polls, k))
            && (o.Halted? <==> AcceptedPrefix(sends) < |sends| || (!o.Finished? && !ErrorFree(polls)))
            && (AcceptedPrefix(sends) < |sends| ==>
                  o.state.inflight == FinSends(cfg, 0, sends[..AcceptedPrefix(sends)]))
            && (polls == [] && AcceptedPrefix(sends) == |sends| ==> o.state.inflight == FinSends(cfg, 0, sends))
  {
    IdleIsControlling(cfg, s);
    SendFinsKeeps(cfg, s, 0, sends, 0);
    SendFinsPosts(cfg, s, 0, sends, 0);
    assert sends[..|sends|] == sends;
    var r := SendFins(cfg, s, 0, sends);
    if r.Next? {
      AwaitFinsIff(cfg, r.state, |sends|, polls, |sends|);
      assert forall k :: Enough(r.state, |sends|, polls, k) <==> Enough(s, |sends|, polls, k);
    }
  }

  lemma ControlPollKeeps(cfg: Config, s: State, reply: PollReply, sent: nat)
    requires Controlling(cfg, s, sent)
    ensures Controlling(cfg, Poll(cfg, s, reply).state, sent)
    ensures Poll(cfg, s, reply).Stop? ==> reply.BadStatus? && Poll(cfg, s, reply).fault.ErrorReturn?
    ensures Poll(cfg, s, reply).state.log == s.log && Poll(cfg, s, reply).state.offsets == s.offsets
  {
    PollKeepsAccounts(cfg, s, reply);
  }

  /** For every sequence of picks the counter of the picked initiator is below the queue length. */
  lemma {:induction false} SendFinsKeeps(cfg: Config, s: State, conn: nat, replies: seq<SendReply>, sent: nat)
    requires Controlling(cfg, s, sent) && sent + |replies| <= cfg.txQueueLen
    ensures var r := SendFins(cfg, s, conn, replies);
            && (r.Stop? ==> r.fault.ErrorReturn?)
            && (r.Next? ==> Controlling(cfg, r.state, sent + |replies|))
            && r.state.log == s.log && r.state.offsets == s.offsets && r.state.finRecvd == s.finRecvd
    decreases |replies|
  {
    if replies != [] {
      SendKeeps(cfg, s, conn, replies[0], sent);
      if SendControl(cfg, s, conn, replies[0]).Next? {
        SendFinsKeeps(cfg, SendControl(cfg, s, conn, replies[0]).state, conn + 1, replies[1..], sent + 1);
      }
    }
  }

  lemma {:induction false} AwaitFinsKeeps(cfg: Config, s: State, conns: nat, polls: seq<PollReply>, sent: nat)
    requires Controlling(cfg, s, sent)
    ensures var o := AwaitFins(cfg, s, conns, polls);
            && (o.Halted? ==> o.fault.ErrorReturn?)
            && Controlling(cfg, o.state, sent)
            && (o.Finished? ==> o.state.finRecvd >= conns)
            && o.state.log == s.log && o.state.offsets == s.offsets
    decreases |polls|
  {
    if s.finRecvd < conns && polls != [] {
      ControlPollKeeps(cfg, s, polls[0], sent);
      if Poll(cfg, s, polls[0]).Next? {
        AwaitFinsKeeps(cfg, Poll(cfg, s, polls[0]).state, conns, polls[1..], sent);
      }
    }
  }

  lemma IdleIsControlling(cfg: Config, s: State)
    requires Idle(cfg, s)
    ensures Controlling(cfg, s, 0)
  {
    if cfg.transport.DC? { SumZero(s.dciOut); }
  }

  /** After the reads, with room for one send per connection, disconnect can only stop on a negative
   * return, whatever the picks; when it returns, every FIN has been counted and the counters still add up.
   */
  lemma DisconnectCorrect(cfg: Config, s: State, sends: seq<SendReply>, polls: seq<PollReply>)
    requires Idle(cfg, s) && |sends| <= cfg.txQueueLen
    ensures var o := Disconnect(cfg, s, sends, polls);
            && (o.Halted? ==> o.fault.ErrorReturn?)
            && (o.Finished? ==> o.state.finRecvd >= |sends| && Controlling(cfg, o.state, |sends|))
            && o.state.log == s.log
  {
    IdleIsControlling(cfg, s);
    SendFinsKeeps(cfg, s, 0, sends, 0);
    var r := SendFins(cfg, s, 0, sends);
    if r.Next? { AwaitFinsKeeps(cfg, r.state, |sends|, polls, |sends|); }
  }

  // ---------------------------------------------------------------------------------------------
  // Exactly when the assert of send_control holds
  // ---------------------------------------------------------------------------------------------

  function SamePick(n: nat): seq<SendReply> { if n == 0 then [] else [SendReply(0, true)] + SamePick(n - 1) }

  lemma {:induction false} SamePickOverflows(cfg: Config, s: State, conn: nat, n: nat)
    requires cfg.transport.DC? && s.Shape() && s.dciOut[0] <= cfg.txQueueLen < s.dciOut[0] + n
    ensures |SamePick(n)| == n
    ensures StopsWith(SendFins(cfg, s, conn, SamePick(n)), TxQueueFull(0))
    decreases n
  {
    var replies := SamePick(n);
    assert replies[0] == SendReply(0, true) && replies[1..] == SamePick(n - 1);
    if s.dciOut[0] < cfg.txQueueLen {
      SamePickOverflows(cfg, SendControl(cfg, s, conn, replies[0]).state, conn + 1, n - 1);
    } else {
      SamePickLength(n - 1);
    }
  }

  lemma {:induction false} SamePickLength(n: nat)
    ensures |SamePick(n)| == n
  {
    if n > 0 { SamePickLength(n - 1); }
  }

  /** The assert of send_control holds for every sequence of picks exactly when the transmit queue has room
   * for one control message per connection.
   */
  lemma SendAssertIff(cfg: Config, s: State, conns: nat)
    requires cfg.transport.DC? && Idle(cfg, s)
    ensures (forall replies: seq<SendReply>, d :: |replies| == conns ==>
               !StopsWith(SendFins(cfg, s, 0, replies), TxQueueFull(d)))
       <==> conns <= cfg.txQueueLen
  {
    IdleIsControlling(cfg, s);
    if conns <= cfg.txQueueLen {
      forall replies: seq<SendReply>, d | |replies| == conns
        ensures !StopsWith(SendFins(cfg, s, 0, replies), TxQueueFull(d))
      {
        SendFinsKeeps(cfg, s, 0, replies, 0);
      }
    } else {
      SamePickOverflows(cfg, s, 0, conns);
      var replies := SamePick(conns);
      assert StopsWith(SendFins(cfg, s, 0, replies), TxQueueFull(0));
    }
  }

  /** The queue lengths run_server settles on. */
  function ServerTxQueueLen(txQueueLen: nat, numConnections: nat): (r: nat)
    ensures r >= txQueueLen && r >= numConnections && (r == txQueueLen || r == numConnections)
  {
    if txQueueLen > numConnections then txQueueLen else numConnections
  }

  function ServerRxQueueLen(rxQueueLen: nat, numConnections: nat): (r: nat)
    ensures r >= rxQueueLen && r >= 2 * numConnections && (r == rxQueueLen || r == 2 * numConnections)
  {
    if rxQueueLen > numConnections * 2 then rxQueueLen else numConnections * 2
  }

  /** The options run_server goes on with. */
  function ServerConfig(cfg: Config, numConnections: nat): Config {
    cfg.(txQueueLen := ServerTxQueueLen(cfg.txQueueLen, numConnections))
  }

  /** With the lengths of run_server no pick makes disconnect stop but on a negative return, whatever the
   * options say.
   */
  lemma ServerDisconnects(cfg: Config, s: State, sends: seq<SendReply>, polls: seq<PollReply>)
    requires Idle(cfg, s)
    ensures var server := ServerConfig(cfg, |sends|);
            var o := Disconnect(server, s, sends, polls);
            && (o.Halted? ==> o.fault.ErrorReturn?)
            && (o.Finished? ==> o.state.finRecvd >= |sends| && Controlling(server, o.state, |sends|))
            && o.state.log == s.log
  {
    DisconnectCorrect(ServerConfig(cfg, |sends|), s, sends, polls);
  }
}
