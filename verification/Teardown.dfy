/** The whole test as a distributed system: one server and n clients with one connection each.
 *
 * The server's steps are those of ReadEngine and ControlPhase, one post, poll or send at a time; between
 * any two of them a client may connect, send its FIN, see the server's FIN or free its memory. Clients
 * send their FIN at once, so FINs reach the server while it is still reading. A client is numbered by the
 * slot of its connection on the server. A step that is not enabled leaves the system as it is, so a
 * sequence of steps is an arbitrary interleaving.
 */
module Teardown {

  import opened RoundRobin
  import opened WorkRequests
  import opened ReadEngine
  import opened ReadTheorems
  import opened ControlPhase

  datatype ServerPc =
    | Connecting          // waiting for all connections to be established
    | LoopHead            // do_rdma_reads, at the head of its loops
    | PollPoint           // do_rdma_reads, about to poll
    | SendingFins(next: nat)
    | AwaitingFins
    | PastFins            // past the FIN wait
    | Failed(fault: Fault)
  {
    predicate BeforeFins() { Connecting? || LoopHead? || PollPoint? }
  }

  /** A client; its registered buffer is freed in `Freed` only. */
  datatype ClientPc = Unconnected | Ready | Waiting | Past | Freed {
    predicate SentFin() { Waiting? || Past? || Freed? }
    predicate Gone() { Past? || Freed? }
  }

  /** `toServer` and `toClient` are the FINs on their way, `seen` those the server has polled. */
  datatype Sys = Sys(
    server: ServerPc,
    eng: State,
    requested: nat,
    established: nat,
    clients: seq<ClientPc>,
    toServer: set<nat>,
    toClient: set<nat>,
    seen: set<nat>)

  datatype Label =
    | Request
    | ServerEstablished
    | ClientEstablished(c: nat)
    | ClientSendsFin(c: nat)
    | ClientGetsFin(c: nat)
    | ClientFrees(c: nat)
    | ServerAdvances
    | ServerPosts(post: PostReply)
    | ServerPolls(poll: PollReply)
    | ServerPollsFin(c: nat)
    | ServerSends(send: SendReply)

  predicate Polling(s: Sys) {
    s.server.PollPoint? || (s.server.AwaitingFins? && s.eng.finRecvd < |s.clients|)
  }

  function AfterPoll(pc: ServerPc): ServerPc { if pc.PollPoint? then LoopHead else pc }

  function ServerStep(cfg: Config, s: Sys, l: Label): (r: Sys)
    requires s.eng.Shape()
    ensures r.eng.Shape()
  {
    match l
    case ServerAdvances =>
      (match s.server
       case Connecting => if s.established >= |s.clients| then s.(server := LoopHead) else s
       case LoopHead =>
         if s.eng.log != [] && s.eng.Busy() then s
         else if |s.eng.log| < cfg.numIterations then s.(eng := StartIteration(s.eng))
         else if OffsetsFull(cfg, s.eng) then s.(server := SendingFins(0))
         else s.(server := Failed(NotAllRead))
       case SendingFins(i) => if i >= |s.clients| then s.(server := AwaitingFins) else s
       case AwaitingFins => if s.eng.finRecvd >= |s.clients| then s.(server := PastFins) else s
       case _ => s)
    case ServerPosts(reply) =>
      if s.server.LoopHead? && s.eng.log != [] && s.eng.Busy() then
        match PostTurn(cfg, s.eng, reply)
        case Next(e) => s.(server := PollPoint, eng := e)
        case Stop(f, e) => s.(server := Failed(f), eng := e)
      else s
    case ServerPolls(reply) =>
      if Polling(s) && !reply.Packet? then
        match Poll(cfg, s.eng, reply)
        case Next(e) => s.(server := AfterPoll(s.server), eng := e)
        case Stop(f, e) => s.(server := Failed(f), eng := e)
      else s
    case ServerPollsFin(c) =>
      if Polling(s) && c in s.toServer then
        s.(server := AfterPoll(s.server), eng := Poll(cfg, s.eng, Packet(true)).state,
           toServer := s.toServer - {c}, seen := s.seen + {c})
      else s
    case ServerSends(reply) =>
      if s.server.SendingFins? && s.server.next < |s.clients| then
        match SendControl(cfg, s.eng, s.server.next, reply)
        case Next(e) =>
          s.(server := SendingFins(s.server.next + 1), eng := e, toClient := s.toClient + NewSends(s.eng, e))
        case Stop(f, e) => s.(server := Failed(f), eng := e)
      else s
    case _ => s
  }

  /** The connections of the control sends that have been handed to the adapter since e. */
  function NewSends(e: State, e': State): set<nat> {
    set i | |e.inflight| <= i < |e'.inflight| && e'.inflight[i].Send? :: e'.inflight[i].conn
  }

  predicate IsClientIn(s: Sys, c: nat, pc: ClientPc) { c < |s.clients| && s.clients[c] == pc }

  function ClientStep(s: Sys, l: Label): Sys {
    match l
    case ClientEstablished(c) =>
      if IsClientIn(s, c, Unconnected) && c < s.requested then s.(clients := s.clients[c := Ready]) else s
    case ClientSendsFin(c) =>
      if IsClientIn(s, c, Ready) then s.(clients := s.clients[c := Waiting], toServer := s.toServer + {c}) else s
    case ClientGetsFin(c) =>
      if IsClientIn(s, c, Waiting) && c in s.toClient then
        s.(clients := s.clients[c := Past], toClient := s.toClient - {c})
      else s
    case ClientFrees(c) =>
      if IsClientIn(s, c, Past) then s.(clients := s.clients[c := Freed]) else s
    case _ => s
  }

  /** One step of the system. */
  function DoStep(cfg: Config, s: Sys, l: Label): (r: Sys)
    requires s.eng.Shape()
    ensures r.eng.Shape()
  {
    match l
    case Request =>
      // a connection of a DC server is ready after its request
      if s.server.Connecting? && s.requested < |s.clients| then
        s.(requested := s.requested + 1, established := s.established + if cfg.transport.DC? then 1 else 0)
      else s
    case ServerEstablished =>
      if s.server.Connecting? && cfg.transport.RC? && s.established < s.requested then
        s.(established := s.established + 1)
      else s
    case ClientEstablished(_) => ClientStep(s, l)
    case ClientSendsFin(_) => ClientStep(s, l)
    case ClientGetsFin(_) => ClientStep(s, l)
    case ClientFrees(_) => ClientStep(s, l)
    case _ => ServerStep(cfg, s, l)
  }

  // ---------------------------------------------------------------------------------------------
  // The invariant
  // ---------------------------------------------------------------------------------------------

  ghost predicate Initial(cfg: Config, s: Sys) {
    && s.server == Connecting
    && Idle(cfg, s.eng) && s.eng.log == [] && s.eng.finRecvd == 0
    && |s.eng.offsets| == |s.clients|
    && s.requested == 0 && s.established == 0
    && (forall c :: 0 <= c < |s.clients| ==> s.clients[c] == Unconnected)
    && s.toServer == {} && s.toClient == {} && s.seen == {}
  }

  /** Every read of every connection in every iteration has been posted and completed. */
  ghost predicate ReadsDone(cfg: Config, e: State) {
    && cfg.Valid()
    && |e.log| == cfg.numIterations
    && (forall i :: 0 <= i < |e.log| ==> IterationComplete(cfg, |e.offsets|, e.log[i]))
    && (forall i :: 0 <= i < |e.inflight| ==> e.inflight[i].Send?)
  }

  /** The options under which the server is started; num_connections is the number of clients. */
  predicate Supported(cfg: Config, n: nat) {
    cfg.Valid() && cfg.numIterations > 0 && WindowFits(cfg, n) && n <= cfg.txQueueLen
  }

  ghost predicate ServerInv(cfg: Config, s: Sys) {
    match s.server
    case Connecting => Idle(cfg, s.eng) && s.eng.log == []
    case LoopHead => (Idle(cfg, s.eng) && s.eng.log == []) || ReadPhase(cfg, s.eng)
    case PollPoint => ReadPhase(cfg, s.eng)
    case SendingFins(i) => i <= |s.clients| && ReadsDone(cfg, s.eng) && Controlling(cfg, s.eng, i)
    case AwaitingFins => ReadsDone(cfg, s.eng) && Controlling(cfg, s.eng, |s.clients|)
    case PastFins => ReadsDone(cfg, s.eng) && Controlling(cfg, s.eng, |s.clients|) && s.eng.finRecvd >= |s.clients|
    case Failed(f) => f.ErrorReturn?
  }

  /** Each client's FIN is either on its way or counted, once it has been sent. */
  ghost predicate FinInv(s: Sys) {
    && s.toServer !! s.seen
    && (forall c :: c in s.toServer || c in s.seen <==> 0 <= c < |s.clients| && s.clients[c].SentFin())
    && s.eng.finRecvd == |s.seen|
  }

  /** Some FIN of the server has been sent. */
  ghost predicate Released(s: Sys) {
    s.toClient != {} || exists c :: 0 <= c < |s.clients| && s.clients[c].Gone()
  }

  /** The server's FINs: sent to the connections below FinsSent, and not yet seen by those still waiting. */
  ghost predicate ReleaseInv(s: Sys) {
    !s.server.Failed? ==>
      && (forall c :: c in s.toClient <==> 0 <= c < FinsSent(s) && c < |s.clients| && !s.clients[c].Gone())
      && (forall c :: 0 <= c < |s.clients| && s.clients[c].Gone() ==> c < FinsSent(s))
  }

  function FinsSent(s: Sys): nat {
    if s.server.BeforeFins() then 0 else if s.server.SendingFins? then s.server.next else |s.clients|
  }

  ghost predicate Inv(cfg: Config, s: Sys) {
    && Supported(cfg, |s.clients|)
    && s.eng.Shape()
    && |s.eng.offsets| == |s.clients|
    && s.established <= s.requested <= |s.clients|
    && (!s.server.Connecting? ==> s.requested == s.established == |s.clients|)
    && (cfg.transport.DC? ==> s.established == s.requested)
    && ServerInv(cfg, s)
    && FinInv(s)
    && ReleaseInv(s)
    && (Released(s) ==> !s.server.BeforeFins() && ReadsDone(cfg, s.eng))
  }

  lemma InitialInv(cfg: Config, s: Sys)
    requires Initial(cfg, s) && Supported(cfg, |s.clients|)
    ensures Inv(cfg, s)
  {
  }

  lemma ClientKeepsFins(s: Sys, l: Label)
    requires FinInv(s)
    ensures FinInv(ClientStep(s, l))
  {
  }

  lemma ClientKeepsReleases(s: Sys, l: Label)
    requires ReleaseInv(s)
    ensures ReleaseInv(ClientStep(s, l)) && (Released(ClientStep(s, l)) ==> Released(s))
  {
  }

  lemma ClientStepKeeps(cfg: Config, s: Sys, l: Label)
    requires Inv(cfg, s)
    ensures Inv(cfg, ClientStep(s, l))
  {
    ClientKeepsFins(s, l);
    ClientKeepsReleases(s, l);
    var r := ClientStep(s, l);
    assert r.eng == s.eng && r.server == s.server && |r.clients| == |s.clients|;
  }

  lemma AdvanceKeeps(cfg: Config, s: Sys)
    requires Inv(cfg, s)
    ensures Inv(cfg, ServerStep(cfg, s, ServerAdvances))
  {
    var r := ServerStep(cfg, s, ServerAdvances);
    AdvanceKeepsFins(cfg, s);
    AdvanceKeepsServer(cfg, s);
    assert r == s.(server := r.server, eng := r.eng) && |r.eng.offsets| == |s.eng.offsets|;
  }

  lemma AdvanceKeepsFins(cfg: Config, s: Sys)
    requires s.eng.Shape() && FinInv(s) && ReleaseInv(s)
    ensures var r := ServerStep(cfg, s, ServerAdvances);
            FinInv(r) && ReleaseInv(r) && (Released(r) ==> Released(s))
  {
  }

  lemma AdvanceKeepsServer(cfg: Config, s: Sys)
    requires s.eng.Shape() && Supported(cfg, |s.clients|) && |s.eng.offsets| == |s.clients| && ServerInv(cfg, s)
    ensures ServerInv(cfg, ServerStep(cfg, s, ServerAdvances))
  {
    if s.server.LoopHead? && !(s.eng.log != [] && s.eng.Busy()) { LoopEnds(cfg, s.eng); }
  }

  /** Where the inner loop is left, the next iteration begins in the read phase, or the reads are done. */
  lemma LoopEnds(cfg: Config, e: State)
    requires cfg.Valid() && cfg.numIterations > 0 && !(e.log != [] && e.Busy())
    requires (Idle(cfg, e) && e.log == []) || ReadPhase(cfg, e)
    ensures |e.log| < cfg.numIterations ==> ReadPhase(cfg, StartIteration(e))
    ensures |e.log| >= cfg.numIterations ==>
              OffsetsFull(cfg, e) && ReadsDone(cfg, e) && Controlling(cfg, e, 0)
  {
    if e.log != [] { IterationEnd(cfg, e); }
    if |e.log| < cfg.numIterations {
      StartKeeps(cfg, e);
    } else {
      IdleIsControlling(cfg, e);
    }
  }

  lemma PostKeeps(cfg: Config, s: Sys, reply: PostReply)
    requires Inv(cfg, s)
    ensures Inv(cfg, ServerStep(cfg, s, ServerPosts(reply)))
  {
    if s.server.LoopHead? && s.eng.log != [] && s.eng.Busy() {
      PostTurnKeeps(cfg, s.eng, reply);
      var r := PostTurn(cfg, s.eng, reply);
      if r.Next? && s.eng.MayPost(cfg) && reply.Accepted? { AcceptedPostKeeps(cfg, s.eng); }
    }
  }

  /** Any poll at a poll point, seen from the server alone. */
  lemma PollKeepsServer(cfg: Config, s: Sys, reply: PollReply)
    requires Inv(cfg, s) && Polling(s)
    ensures var r := Poll(cfg, s.eng, reply);
            && (r.Stop? ==> r.fault.ErrorReturn? && r.state == s.eng)
            && (r.Next? ==> ServerInv(cfg, s.(server := AfterPoll(s.server), eng := r.state)))
            && (ReadsDone(cfg, s.eng) ==> ReadsDone(cfg, r.state))
            && |r.state.offsets| == |s.eng.offsets|
            && r.state.finRecvd == s.eng.finRecvd + (if reply == Packet(true) then 1 else 0)
            && (r.Stop? <==> reply.BadStatus?)
  {
    PollKeepsAccounts(cfg, s.eng, reply);
    if s.server.PollPoint? {
      PollKeeps(cfg, s.eng, reply);
    } else {
      ControlPollKeeps(cfg, s.eng, reply, |s.clients|);
    }
  }

  lemma PollStepKeeps(cfg: Config, s: Sys, reply: PollReply)
    requires Inv(cfg, s)
    ensures Inv(cfg, ServerStep(cfg, s, ServerPolls(reply)))
  {
    if Polling(s) && !reply.Packet? {
      PollKeepsServer(cfg, s, reply);
      assert Released(ServerStep(cfg, s, ServerPolls(reply))) ==> Released(s);
    }
  }

  lemma PollFinKeeps(cfg: Config, s: Sys, c: nat)
    requires Inv(cfg, s)
    ensures Inv(cfg, ServerStep(cfg, s, ServerPollsFin(c)))
  {
    if Polling(s) && c in s.toServer {
      PollKeepsServer(cfg, s, Packet(true));
      assert |s.seen + {c}| == |s.seen| + 1;
      assert Released(ServerStep(cfg, s, ServerPollsFin(c))) ==> Released(s);
    }
  }

  lemma SendStepKeeps(cfg: Config, s: Sys, reply: SendReply)
    requires Inv(cfg, s)
    ensures Inv(cfg, ServerStep(cfg, s, ServerSends(reply)))
  {
    if s.server.SendingFins? && s.server.next < |s.clients| {
      SendKeeps(cfg, s.eng, s.server.next, reply, s.server.next);
      OneSend(cfg, s.eng, s.server.next, reply);
    }
  }

  lemma OneSend(cfg: Config, e: State, conn: nat, reply: SendReply)
    requires e.Shape()
    ensures var r := SendControl(cfg, e, conn, reply); r.Next? ==> NewSends(e, r.state) == {conn}
  {
    var r := SendControl(cfg, e, conn, reply);
    if r.Next? {
      SendPosts(cfg, e, conn, reply);
      assert r.state.inflight[|e.inflight|] == FinSend(cfg, conn, reply);
    }
  }

  lemma ConnectKeeps(cfg: Config, s: Sys, l: Label)
    requires Inv(cfg, s) && (l.Request? || l.ServerEstablished?)
    ensures Inv(cfg, DoStep(cfg, s, l))
  {
    var r := DoStep(cfg, s, l);
    assert r == s.(requested := r.requested, established := r.established);
    assert Released(r) ==> Released(s);
  }

  lemma StepKeeps(cfg: Config, s: Sys, l: Label)
    requires Inv(cfg, s)
    ensures Inv(cfg, DoStep(cfg, s, l))
  {
    match l {
      case Request => ConnectKeeps(cfg, s, l);
      case ServerEstablished => ConnectKeeps(cfg, s, l);
      case ClientEstablished(_) => ClientStepKeeps(cfg, s, l);
      case ClientSendsFin(_) => ClientStepKeeps(cfg, s, l);
      case ClientGetsFin(_) => ClientStepKeeps(cfg, s, l);
      case ClientFrees(_) => ClientStepKeeps(cfg, s, l);
      case ServerAdvances => AdvanceKeeps(cfg, s);
      case ServerPosts(reply) => PostKeeps(cfg, s, reply);
      case ServerPolls(reply) => PollStepKeeps(cfg, s, reply);
      case ServerPollsFin(c) => PollFinKeeps(cfg, s, c);
      case ServerSends(reply) => SendStepKeeps(cfg, s, reply);
    }
  }

  /** The server fails in these steps and no others: a post that the adapter takes with a negative code, a poll
   * with an error status, a send that is not accepted.
   */
  lemma FailsIff(cfg: Config, s: Sys, l: Label)
    requires Inv(cfg, s) && !s.server.Failed?
    ensures DoStep(cfg, s, l).server.Failed?
       <==> || (l.ServerPosts? && l.post.Rejected? && s.server.LoopHead? && s.eng.log != [] && s.eng.MayPost(cfg))
            || (l.ServerPolls? && l.poll.BadStatus? && Polling(s))
            || (l.ServerSends? && !l.send.accepted && s.server.SendingFins? && s.server.next < |s.clients|)
  {
    match l {
      case ServerAdvances => AdvanceKeepsServer(cfg, s); AdvanceNeverFails(cfg, s);
      case ServerPosts(reply) =>
        if s.server.LoopHead? && s.eng.log != [] && s.eng.Busy() { PostTurnKeeps(cfg, s.eng, reply); }
      case ServerPolls(reply) => if Polling(s) { PollKeepsAccounts(cfg, s.eng, reply); }
      case ServerSends(reply) =>
        if s.server.SendingFins? && s.server.next < |s.clients| {
          SendKeeps(cfg, s.eng, s.server.next, reply, s.server.next);
        }
      case _ =>
    }
  }

  lemma AdvanceNeverFails(cfg: Config, s: Sys)
    requires s.eng.Shape() && Supported(cfg, |s.clients|) && ServerInv(cfg, s) && !s.server.Failed?
    ensures !ServerStep(cfg, s, ServerAdvances).server.Failed?
  {
    if s.server.LoopHead? && !(s.eng.log != [] && s.eng.Busy()) { LoopEnds(cfg, s.eng); }
  }

  /** Requests and, on RC, establishments come in any order as long as each connection asks first; the server
   * waits exactly as long as one is missing.
   */
  lemma ConnectionsCome(cfg: Config, s: Sys)
    requires s.eng.Shape() && s.server == Connecting
    ensures s.requested < |s.clients| ==>
              var r := DoStep(cfg, s, Request);
              && r.requested == s.requested + 1
              && r.established == s.established + (if cfg.transport == DC then 1 else 0)
              && r == s.(requested := r.requested, established := r.established)
    ensures cfg.transport == RC && s.established < s.requested ==>
              DoStep(cfg, s, ServerEstablished) == s.(established := s.established + 1)
    ensures DoStep(cfg, s, ServerAdvances)
         == s.(server := if s.established < |s.clients| then Connecting else LoopHead)
  {
  }

  /** A client goes on by itself, wherever the server is: only its FIN wait needs a FIN on its way to it. */
  lemma ClientsGoOn(cfg: Config, s: Sys, c: nat)
    requires s.eng.Shape() && c < |s.clients|
    ensures s.clients[c] == Unconnected && c < s.requested ==>
              DoStep(cfg, s, ClientEstablished(c)) == s.(clients := s.clients[c := Ready])
    ensures s.clients[c] == Ready ==>
              DoStep(cfg, s, ClientSendsFin(c)) == s.(clients := s.clients[c := Waiting], toServer := s.toServer + {c})
    ensures s.clients[c] == Waiting && c in s.toClient ==>
              DoStep(cfg, s, ClientGetsFin(c)) == s.(clients := s.clients[c := Past], toClient := s.toClient - {c})
    ensures s.clients[c] == Past ==> DoStep(cfg, s, ClientFrees(c)) == s.(clients := s.clients[c := Freed])
  {
  }

  /** A FIN on its way may be counted at any poll, while the server still reads or while it waits; it is then
   * seen, and changes nothing of the reads.
   */
  lemma FinMayCome(cfg: Config, s: Sys, c: nat)
    requires s.eng.Shape() && c in s.toServer
    requires s.server.PollPoint? || (s.server.AwaitingFins? && s.eng.finRecvd < |s.clients|)
    ensures var r := DoStep(cfg, s, ServerPollsFin(c));
            && r.seen == s.seen + {c} && r.toServer == s.toServer - {c}
            && r.eng == s.eng.(finRecvd := s.eng.finRecvd + 1)
            && r.server == if s.server.PollPoint? then LoopHead else AwaitingFins
  {
  }

  // ---------------------------------------------------------------------------------------------
  // Whole runs
  // ---------------------------------------------------------------------------------------------

  function Exec(cfg: Config, s: Sys, labels: seq<Label>): (r: Sys)
    requires s.eng.Shape()
    ensures r.eng.Shape()
    decreases |labels|
  {
    if labels == [] then s else Exec(cfg, DoStep(cfg, s, labels[0]), labels[1..])
  }

  lemma {:induction false} ExecKeeps(cfg: Config, s: Sys, labels: seq<Label>)
    requires Inv(cfg, s)
    ensures Inv(cfg, Exec(cfg, s, labels))
    decreases |labels|
  {
    if labels != [] {
      StepKeeps(cfg, s, labels[0]);
      ExecKeeps(cfg, DoStep(cfg, s, labels[0]), labels[1..]);
    }
  }

  /** In every interleaving: no client is past its FIN wait before every read of every connection has
   * completed, so no read is in flight while a client frees its memory; the server is past its FIN wait
   * only when every client has sent its FIN; the server stops early only on a negative return; and it reads,
   * or does anything after, only once all connections are established.
   */
  lemma TeardownBarrier(cfg: Config, init: Sys, labels: seq<Label>)
    requires Initial(cfg, init) && Supported(cfg, |init.clients|)
    ensures var s := Exec(cfg, init, labels);
            && (forall c :: 0 <= c < |s.clients| && s.clients[c].Gone() ==> ReadsDone(cfg, s.eng))
            && (forall w, c :: w in s.eng.inflight && w.Read? && 0 <= c < |s.clients| ==> !s.clients[c].Gone())
            && (s.server.PastFins? ==> forall c :: 0 <= c < |s.clients| ==> s.clients[c].SentFin())
            && (s.server.Failed? ==> s.server.fault.ErrorReturn?)
            && (!s.server.Connecting? ==> s.established == |s.clients|)
            && (s.established < |s.clients| ==> s.eng.log == [] && s.eng.inflight == [])
  {
    InitialInv(cfg, init);
    ExecKeeps(cfg, init, labels);
    ExecSize(cfg, init, labels);
    var s := Exec(cfg, init, labels);
    if s.server.PastFins? {
      CountedAll(s.seen, |s.clients|);
      forall c | 0 <= c < |s.clients| ensures s.clients[c].SentFin() {
        assert c in s.seen;
      }
    }
  }

  function Below(n: nat): (r: set<nat>)
    ensures forall c: nat :: c in r <==> c < n
    ensures |r| == n
  {
    if n == 0 then {} else
    var r: set<nat> := Below(n - 1);
    assert (n - 1) as nat !in r;
    r + {n - 1}
  }

  lemma SubsetSize(a: set<nat>, b: set<nat>)
    requires a <= b
    ensures |a| <= |b|
    ensures |a| == |b| ==> a == b
  {
    if a != b {
      var x :| x in b && x !in a;
      SubsetSize(a, b - {x});
    }
  }

  /** FINs are only counted; n of them from n clients are one from each. */
  lemma CountedAll(seen: set<nat>, n: nat)
    requires forall c :: c in seen ==> c < n
    requires |seen| >= n
    ensures forall c :: 0 <= c < n ==> c in seen
  {
    SubsetSize(seen, Below(n));
    assert seen == Below(n);
  }

  /** Over whole runs the receives posted once cover every FIN. */
  lemma ReceivesHold(cfg: Config, init: Sys, labels: seq<Label>, rxQueueLen: nat)
    requires Initial(cfg, init) && Supported(cfg, |init.clients|) && |init.clients| <= rxQueueLen
    ensures var s := Exec(cfg, init, labels); |s.toServer| + |s.seen| <= rxQueueLen
  {
    InitialInv(cfg, init);
    ExecKeeps(cfg, init, labels);
    ExecSize(cfg, init, labels);
    var s := Exec(cfg, init, labels);
    assert |s.toServer + s.seen| == |s.toServer| + |s.seen|;
    SubsetSize(s.toServer + s.seen, Below(|s.clients|));
  }

  /** Queue capacities over whole runs: the receives posted once cover every FIN, and unpolled completions
   * fit the completion queue.
   */
  lemma QueuesHold(cfg: Config, init: Sys, labels: seq<Label>, rxQueueLen: nat)
    requires Initial(cfg, init) && Supported(cfg, |init.clients|)
    requires cfg.maxOutstanding <= cfg.txQueueLen && |init.clients| <= rxQueueLen
    ensures var s := Exec(cfg, init, labels);
            !s.server.Failed? ==>
              && |s.toServer| + |s.seen| <= rxQueueLen
              && |s.eng.inflight| + |s.toServer| <= cfg.txQueueLen + rxQueueLen
  {
    InitialInv(cfg, init);
    ExecKeeps(cfg, init, labels);
    ReceivesHold(cfg, init, labels, rxQueueLen);
    var s := Exec(cfg, init, labels);
    if !s.server.Failed? && s.server.BeforeFins() && s.eng.log != [] {
      CountAll(IsRead, s.eng.inflight);
    }
  }

  /** With the lengths of run_server only the window is left to the options: when it is at most the length
   * of the transmit queue, barrier and queue capacities hold in every run of n clients.
   */
  lemma ServerRuns(cfg: Config, init: Sys, labels: seq<Label>, rxQueueLen: nat)
    requires Initial(cfg, init) && cfg.Valid() && cfg.numIterations > 0 && WindowFits(cfg, |init.clients|)
    ensures var n := |init.clients|;
            var s := Exec(ServerConfig(cfg, n), init, labels);
            && (s.server.Failed? ==> s.server.fault.ErrorReturn?)
            && (forall c :: 0 <= c < |s.clients| && s.clients[c].Gone() ==> ReadsDone(ServerConfig(cfg, n), s.eng))
            && (!s.server.Failed? ==>
                  && |s.toServer| + |s.seen| <= ServerRxQueueLen(rxQueueLen, n)
                  && (cfg.maxOutstanding <= cfg.txQueueLen ==>
                        |s.eng.inflight| + |s.toServer|
                        <= ServerTxQueueLen(cfg.txQueueLen, n) + ServerRxQueueLen(rxQueueLen, n)))
  {
    var server := ServerConfig(cfg, |init.clients|);
    TeardownBarrier(server, init, labels);
    ReceivesHold(server, init, labels, ServerRxQueueLen(rxQueueLen, |init.clients|));
    if cfg.maxOutstanding <= cfg.txQueueLen {
      QueuesHold(server, init, labels, ServerRxQueueLen(rxQueueLen, |init.clients|));
    }
  }

  lemma {:induction false} ExecSize(cfg: Config, s: Sys, labels: seq<Label>)
    requires s.eng.Shape()
    ensures |Exec(cfg, s, labels).clients| == |s.clients|
    decreases |labels|
  {
    if labels != [] {
      ExecSize(cfg, DoStep(cfg, s, labels[0]), labels[1..]);
    }
  }

  // ---------------------------------------------------------------------------------------------
  // No deadlock: from every state without an error the whole test can be finished
  // ---------------------------------------------------------------------------------------------

  ghost predicate Terminal(s: Sys) {
    s.server.PastFins? && forall c :: 0 <= c < |s.clients| ==> s.clients[c].Freed?
  }

  function ClientLeft(c: ClientPc): nat {
    match c case Unconnected => 4 case Ready => 3 case Waiting => 2 case Past => 1 case Freed => 0
  }

  function ClientsLeft(cs: seq<ClientPc>): nat {
    if cs == [] then 0 else ClientsLeft(cs[..|cs| - 1]) + ClientLeft(cs[|cs| - 1])
  }

  lemma {:induction false} ClientsLeftUpdate(cs: seq<ClientPc>, c: nat, pc: ClientPc)
    requires c < |cs|
    ensures ClientsLeft(cs[c := pc]) == ClientsLeft(cs) - ClientLeft(cs[c]) + ClientLeft(pc)
  {
    var last := |cs| - 1;
    if c == last {
      assert cs[c := pc][..last] == cs[..last];
    } else {
      assert cs[c := pc][..last] == cs[..last][c := pc];
      ClientsLeftUpdate(cs[..last], c, pc);
    }
  }

  /** A step of a client changes the clients and the FINs on their way alone, and is one of its few. */
  lemma ClientMoves(s: Sys, l: Label)
    ensures var r := ClientStep(s, l);
            && r == s.(clients := r.clients, toServer := r.toServer, toClient := r.toClient)
            && |r.clients| == |s.clients|
            && (r == s || ClientsLeft(r.clients) == ClientsLeft(s.clients) - 1)
  {
    match l {
      case ClientEstablished(c) => if c < |s.clients| { ClientsLeftUpdate(s.clients, c, Ready); }
      case ClientSendsFin(c) => if c < |s.clients| { ClientsLeftUpdate(s.clients, c, Waiting); }
      case ClientGetsFin(c) => if c < |s.clients| { ClientsLeftUpdate(s.clients, c, Past); }
      case ClientFrees(c) => if c < |s.clients| { ClientsLeftUpdate(s.clients, c, Freed); }
      case _ =>
    }
  }

  function ReadsLeft(cfg: Config, e: State): int
    requires cfg.Valid()
  {
    3 * WorkLeft(cfg, e) + (cfg.numIterations - |e.log|)
  }

  function ServerLeft(cfg: Config, s: Sys): int
    requires cfg.Valid()
  {
    match s.server
    case Connecting => ReadsLeft(cfg, s.eng) + |s.clients| + 8
    case LoopHead => ReadsLeft(cfg, s.eng) + |s.clients| + 5
    case PollPoint => ReadsLeft(cfg, s.eng) + |s.clients| + (if s.eng.inflight == [] then 6 else 4)
    case SendingFins(i) => |s.clients| - i + 3
    case AwaitingFins => 2
    case PastFins => 0
    case Failed(_) => 0
  }

  function Left(cfg: Config, s: Sys): int
    requires cfg.Valid()
  {
    ServerLeft(cfg, s) + ClientsLeft(s.clients)
    + (|s.clients| - s.requested) + (|s.clients| - s.established) + (|s.clients| - |s.seen|)
  }

  lemma WorkNonNegative(cfg: Config, e: State)
    requires cfg.Valid() && |e.log| <= cfg.numIterations
    requires e.log != [] ==> |Current(e)| <= Total(cfg.PlanFor(|e.offsets|))
    ensures WorkLeft(cfg, e) >= 0
  {
    Product(2 * Total(cfg.PlanFor(|e.offsets|)), cfg.numIterations - |e.log|);
  }

  lemma LeftNonNegative(cfg: Config, s: Sys)
    requires Inv(cfg, s)
    ensures Left(cfg, s) >= 0
  {
    if s.server.BeforeFins() { WorkNonNegative(cfg, s.eng); }
    SubsetSize(s.seen, Below(|s.clients|));
  }

  lemma CompletionProgress(cfg: Config, e: State)
    requires ReadPhase(cfg, e) && e.inflight != []
    ensures Poll(cfg, e, Completed(0)).Next?
    ensures ReadsLeft(cfg, Poll(cfg, e, Completed(0)).state) == ReadsLeft(cfg, e) - 3
  {
    PollKeepsAccounts(cfg, e, Completed(0));
    PollWork(cfg, e, Completed(0));
  }

  lemma PostProgress(cfg: Config, e: State)
    requires ReadPhase(cfg, e) && WindowFits(cfg, |e.offsets|) && e.Busy()
    ensures var r := PostTurn(cfg, e, Accepted);
            && r.Next? && r.state.inflight != []
            && ReadsLeft(cfg, r.state) <= ReadsLeft(cfg, e)
  {
    NeverStuck(cfg, e);
    PostTurnKeeps(cfg, e, Accepted);
    PostWork(cfg, e, Accepted);
    if e.MayPost(cfg) {
      AcceptedPostKeeps(cfg, e);
      var r := PostTurn(cfg, e, Accepted).state;
      assert r.inflight == [] ==> Count(IsRead, r.inflight) == 0;
    }
  }

  lemma IterationProgress(cfg: Config, e: State)
    requires ReadPhase(cfg, e) || (cfg.Valid() && Idle(cfg, e) && e.log == [])
    requires e.log != [] ==> !e.Busy()
    ensures |e.log| < cfg.numIterations ==> ReadsLeft(cfg, StartIteration(e)) == ReadsLeft(cfg, e) - 1
    ensures e.log != [] && |e.log| >= cfg.numIterations ==> OffsetsFull(cfg, e) && ReadsLeft(cfg, e) >= 0
  {
    if e.log != [] {
      IterationEnd(cfg, e);
      NestedLength(cfg.PlanFor(|e.offsets|), Rounds(cfg.PlanFor(|e.offsets|)));
      WorkNonNegative(cfg, e);
    }
    if |e.log| < cfg.numIterations { IterationWork(cfg, e); }
  }

  lemma PollProgress(cfg: Config, s: Sys) returns (l: Label)
    requires s.server.PollPoint? && s.eng.Shape() && ReadPhase(cfg, s.eng)
    ensures var r := DoStep(cfg, s, l); !r.server.Failed? && Left(cfg, r) < Left(cfg, s)
  {
    if s.eng.inflight == [] {
      l := ServerPolls(Empty);
    } else {
      l := ServerPolls(Completed(0));
      CompletionProgress(cfg, s.eng);
    }
  }

  /** The step that brings the end closer, while the server reads. */
  lemma ReadingProgress(cfg: Config, s: Sys) returns (l: Label)
    requires s.server.LoopHead? || s.server.PollPoint?
    requires s.eng.Shape() && |s.eng.offsets| == |s.clients|
    requires Supported(cfg, |s.clients|) && ServerInv(cfg, s)
    ensures var r := DoStep(cfg, s, l); !r.server.Failed? && Left(cfg, r) < Left(cfg, s)
  {
    var e := s.eng;
    if s.server.PollPoint? {
      l := PollProgress(cfg, s);
    } else if e.log != [] && e.Busy() {
      l := ServerPosts(Accepted);
      PostProgress(cfg, e);
    } else {
      l := ServerAdvances;
      IterationProgress(cfg, e);
    }
  }

  /** A client that has not freed its memory can take a step once the server has sent all FINs. */
  lemma ClientProgress(cfg: Config, s: Sys, c: nat) returns (l: Label)
    requires cfg.Valid() && s.eng.Shape()
    requires c < |s.clients| && s.requested == |s.clients| && !s.server.Failed?
    requires !s.clients[c].Freed? && (s.clients[c].Waiting? ==> c in s.toClient)
    ensures var r := DoStep(cfg, s, l); !r.server.Failed? && Left(cfg, r) < Left(cfg, s)
  {
    match s.clients[c] {
      case Unconnected => l := ClientEstablished(c);
      case Ready => l := ClientSendsFin(c);
      case Waiting => l := ClientGetsFin(c);
      case Past => l := ClientFrees(c);
    }
    ClientMoves(s, l);
    assert DoStep(cfg, s, l) == ClientStep(s, l) != s;
  }

  /** A FIN on its way, or a client that still has to send one. */
  lemma MissingFin(s: Sys) returns (c: nat)
    requires FinInv(s) && s.eng.finRecvd < |s.clients| && s.toServer == {}
    ensures c < |s.clients| && !s.clients[c].SentFin()
  {
    SubsetSize(s.seen, Below(|s.clients|));
    assert s.seen != Below(|s.clients|);
    c :| c in Below(|s.clients|) && c !in s.seen;
  }

  lemma AwaitProgress(cfg: Config, s: Sys) returns (l: Label)
    requires s.server.AwaitingFins? && cfg.Valid() && s.eng.Shape()
    requires s.requested == |s.clients| && FinInv(s)
    ensures var r := DoStep(cfg, s, l); !r.server.Failed? && Left(cfg, r) < Left(cfg, s)
  {
    if s.eng.finRecvd >= |s.clients| {
      l := ServerAdvances;
    } else if s.toServer != {} {
      var c :| c in s.toServer;
      l := ServerPollsFin(c);
      assert |s.seen + {c}| == |s.seen| + 1;
    } else {
      var c := MissingFin(s);
      l := ClientProgress(cfg, s, c);
    }
  }

  lemma SendProgress(cfg: Config, s: Sys) returns (l: Label)
    requires s.server.SendingFins? && cfg.Valid() && s.eng.Shape() && |s.clients| <= cfg.txQueueLen
    requires s.server.next <= |s.clients| && Controlling(cfg, s.eng, s.server.next)
    ensures var r := DoStep(cfg, s, l); !r.server.Failed? && Left(cfg, r) < Left(cfg, s)
  {
    if s.server.next < |s.clients| {
      l := ServerSends(SendReply(0, true));
      SendKeeps(cfg, s.eng, s.server.next, SendReply(0, true), s.server.next);
    } else {
      l := ServerAdvances;
    }
  }

  lemma ConnectProgress(cfg: Config, s: Sys) returns (l: Label)
    requires s.server.Connecting? && cfg.Valid() && s.eng.Shape()
    requires s.established <= s.requested <= |s.clients|
    requires cfg.transport.DC? ==> s.established == s.requested
    ensures var r := DoStep(cfg, s, l); !r.server.Failed? && Left(cfg, r) < Left(cfg, s)
  {
    l := if s.requested < |s.clients| then Request
         else if s.established < |s.clients| then ServerEstablished
         else ServerAdvances;
  }

  lemma Progress(cfg: Config, s: Sys) returns (l: Label)
    requires Inv(cfg, s) && !s.server.Failed? && !Terminal(s)
    ensures var r := DoStep(cfg, s, l); !r.server.Failed? && Left(cfg, r) < Left(cfg, s)
  {
    match s.server {
      case Connecting => l := ConnectProgress(cfg, s);
      case LoopHead => l := ReadingProgress(cfg, s);
      case PollPoint => l := ReadingProgress(cfg, s);
      case SendingFins(_) => l := SendProgress(cfg, s);
      case AwaitingFins => l := AwaitProgress(cfg, s);
      case PastFins =>
        var c :| 0 <= c < |s.clients| && !s.clients[c].Freed?;
        l := ClientProgress(cfg, s, c);
    }
  }

  /** From every state of every interleaving without an error return, the test can run to its end: the
   * server past its FIN wait and every client's memory freed.
   */
  lemma {:induction false} CanFinish(cfg: Config, s: Sys) returns (labels: seq<Label>)
    requires Inv(cfg, s) && !s.server.Failed?
    ensures Terminal(Exec(cfg, s, labels))
    decreases Left(cfg, s)
  {
    LeftNonNegative(cfg, s);
    if Terminal(s) {
      labels := [];
    } else {
      var l := Progress(cfg, s);
      var r := DoStep(cfg, s, l);
      StepKeeps(cfg, s, l);
      LeftNonNegative(cfg, r);
      var rest := CanFinish(cfg, r);
      labels := [l] + rest;
      assert labels[0] == l && labels[1..] == rest;
    }
  }

  lemma NeverDeadlocks(cfg: Config, init: Sys, labels: seq<Label>)
    requires Initial(cfg, init) && Supported(cfg, |init.clients|)
    requires !Exec(cfg, init, labels).server.Failed?
    ensures exists rest :: Terminal(Exec(cfg, Exec(cfg, init, labels), rest))
  {
    InitialInv(cfg, init);
    ExecKeeps(cfg, init, labels);
    var rest := CanFinish(cfg, Exec(cfg, init, labels));
  }
}
