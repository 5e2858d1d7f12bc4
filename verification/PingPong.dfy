/** The ping-pong exchange of `apm.c`: one client and one server with queues of depth one, every interleaving
 * of their calls with the delivery of messages, and failures at any call.
 */
module PingPong {

  /** The verbs calls of one side, those of the exchange in the order of `send_msg` and `recv_msg`. */
  datatype Op = PostRecv | PostSend | GetSend | GetRecv

  /** One pass of the loop of main. */
  function Round(server: bool): seq<Op> {
    if server then [GetRecv, PostRecv, PostSend, GetSend] else [PostSend, GetSend, GetRecv, PostRecv]
  }

  function Rounds(server: bool, n: nat): seq<Op> {
    if n == 0 then [] else Rounds(server, n - 1) + Round(server)
  }

  /** All the calls of a side that exchanges n messages, with the first receive of establish_connection. */
  function Script(server: bool, n: nat): seq<Op> { [PostRecv] + Rounds(server, n) }

  lemma {:induction false} RoundsPrefix(server: bool, m: nat, n: nat)
    requires m < n
    ensures Rounds(server, m) + Round(server) <= Rounds(server, n)
    decreases n
  {
    if m < n - 1 { RoundsPrefix(server, m, n - 1); }
  }

  /** Where a side is: the call it makes next, once it is connected. */
  datatype Pc = Unposted | Connecting | Receiving | Reposting | Sending | Completing | Finished

  /** `posted` receives wait for a message; `recvDone` and `sendDone` completions wait to be taken; `calls`
   * are those that have returned without an error. A side that is not alive has met an error.
   */
  datatype Peer = Peer(
    server: bool, count: nat, pc: Pc, i: nat, sends: nat, recvs: nat,
    posted: nat, recvDone: nat, sendDone: nat, calls: seq<Op>, alive: bool)
  {
    predicate Connected() { !pc.Unposted? && !pc.Connecting? }

    /** Messages handed to the adapter, and completions of receives taken. */
    function Given(): nat { sends + if pc.Completing? then 1 else 0 }
    function Taken(): nat { recvs + if pc.Reposting? then 1 else 0 }
  }

  /** `toServer` and `toClient` count the messages in flight. */
  datatype Sys = Sys(client: Peer, server: Peer, toServer: nat, toClient: nat)

  datatype Label = Acts(server: bool) | Delivers(toServer: bool) | Fails(server: bool)

  /** The head of the loop of main, with i passes done. */
  function LoopHead(p: Peer, i: nat): Peer {
    p.(i := i, pc := if i >= p.count then Finished else if p.server then Receiving else Sending)
  }

  /** One call of a side returns; whether a call can return is up to the state of the other side as well. */
  function Act(p: Peer): Peer {
    match p.pc
    case Unposted => p.(pc := Connecting, posted := p.posted + 1, calls := p.calls + [PostRecv])
    case Connecting => LoopHead(p, 0)
    case Receiving =>
      p.(pc := Reposting, recvDone := if p.recvDone == 0 then 0 else p.recvDone - 1, calls := p.calls + [GetRecv])
    case Reposting =>
      var q := p.(posted := p.posted + 1, recvs := p.recvs + 1, calls := p.calls + [PostRecv]);
      if p.server then q.(pc := Sending) else LoopHead(q, p.i + 1)
    case Sending => p.(pc := Completing, calls := p.calls + [PostSend])
    case Completing =>
      var q := p.(sendDone := if p.sendDone == 0 then 0 else p.sendDone - 1, sends := p.sends + 1,
                  calls := p.calls + [GetSend]);
      if p.server then LoopHead(q, p.i + 1) else q.(pc := Receiving)
    case Finished => p
  }

  /** The server posts its first receive after the request of the client, and the client is connected after
   * the server has accepted; a receive or a send completes before its completion is taken.
   */
  predicate MayAct(s: Sys, server: bool) {
    var p, q := if server then s.server else s.client, if server then s.client else s.server;
    && p.alive
    && match p.pc
       case Unposted => server ==> !q.pc.Unposted?
       case Connecting => !server ==> q.Connected()
       case Receiving => p.recvDone > 0
       case Completing => p.sendDone > 0
       case Finished => false
       case _ => true
  }

  /** A message takes a posted receive; without one it stays in flight. */
  predicate Enabled(s: Sys, l: Label) {
    match l
    case Acts(server) => MayAct(s, server)
    case Delivers(toServer) =>
      if toServer then s.toServer > 0 && s.server.posted > 0 else s.toClient > 0 && s.client.posted > 0
    case Fails(server) => if server then s.server.alive else s.client.alive
  }

  function Received(p: Peer): Peer
    requires p.posted > 0
  {
    p.(posted := p.posted - 1, recvDone := p.recvDone + 1)
  }

  function DoStep(s: Sys, l: Label): Sys
    requires Enabled(s, l)
  {
    match l
    case Acts(true) => s.(server := Act(s.server), toClient := s.toClient + if s.server.pc.Sending? then 1 else 0)
    case Acts(false) => s.(client := Act(s.client), toServer := s.toServer + if s.client.pc.Sending? then 1 else 0)
    case Delivers(true) =>
      s.(toServer := s.toServer - 1, server := Received(s.server),
         client := s.client.(sendDone := s.client.sendDone + 1))
    case Delivers(false) =>
      s.(toClient := s.toClient - 1, client := Received(s.client),
         server := s.server.(sendDone := s.server.sendDone + 1))
    case Fails(true) => s.(server := s.server.(alive := false))
    case Fails(false) => s.(client := s.client.(alive := false))
  }

  function NewPeer(server: bool, count: nat): Peer {
    Peer(server, count, Unposted, 0, 0, 0, 0, 0, 0, [], true)
  }

  function Init(clientCount: nat, serverCount: nat): Sys {
    Sys(NewPeer(false, clientCount), NewPeer(true, serverCount), 0, 0)
  }

  // ---------------------------------------------------------------------------------------------
  // Invariant
  // ---------------------------------------------------------------------------------------------

  /** The counters at each call of the loop. */
  predicate Counts(p: Peer) {
    match p.pc
    case Unposted => p.i == p.sends == p.recvs == 0
    case Connecting => p.i == p.sends == p.recvs == 0
    case Receiving => p.i < p.count && p.recvs == p.i && p.sends == p.i + if p.server then 0 else 1
    case Reposting => p.i < p.count && p.recvs == p.i && p.sends == p.i + if p.server then 0 else 1
    case Sending => p.i < p.count && p.sends == p.i && p.recvs == p.i + if p.server then 1 else 0
    case Completing => p.i < p.count && p.sends == p.i && p.recvs == p.i + if p.server then 1 else 0
    case Finished => p.i == p.sends == p.recvs == p.count
  }

  /** The calls of the pass under way. */
  function Partial(p: Peer): seq<Op> {
    match p.pc
    case Receiving => if p.server then [] else [PostSend, GetSend]
    case Reposting => if p.server then [GetRecv] else [PostSend, GetSend, GetRecv]
    case Sending => if p.server then [GetRecv, PostRecv] else []
    case Completing => if p.server then [GetRecv, PostRecv, PostSend] else [PostSend]
    case _ => []
  }

  /** All the calls a side has made when it is where it is. */
  function CallsOf(p: Peer): seq<Op> {
    if p.pc.Unposted? then [] else [PostRecv] + Rounds(p.server, p.i) + Partial(p)
  }

  predicate PeerInv(p: Peer) {
    Counts(p) && p.posted + p.recvDone + (if p.pc.Reposting? || p.pc.Unposted? then 1 else 0) == 1
  }

  ghost predicate CallsInv(s: Sys) { s.client.calls == CallsOf(s.client) && s.server.calls == CallsOf(s.server) }

  ghost predicate Inv(s: Sys) {
    && PeerInv(s.client) && PeerInv(s.server) && !s.client.server && s.server.server
    && s.client.sendDone + s.toServer == (if s.client.pc.Completing? then 1 else 0)
    && s.server.sendDone + s.toClient == (if s.server.pc.Completing? then 1 else 0)
    && s.client.Given() == s.toServer + s.server.recvDone + s.server.Taken()
    && s.server.Given() == s.toClient + s.client.recvDone + s.client.Taken()
    && (s.client.Connected() ==> s.server.Connected())
    && (!s.server.pc.Unposted? ==> !s.client.pc.Unposted?)
  }

  /** The call a side makes next. */
  function NextCall(p: Peer): seq<Op> {
    match p.pc
    case Unposted => [PostRecv]
    case Receiving => [GetRecv]
    case Reposting => [PostRecv]
    case Sending => [PostSend]
    case Completing => [GetSend]
    case _ => []
  }

  lemma PassGrows(p: Peer)
    requires p.Connected()
    ensures var p' := Act(p);
            if p'.i != p.i then Partial(p) + NextCall(p) == Round(p.server) && Partial(p') == [] && p'.i == p.i + 1
            else Partial(p') == Partial(p) + NextCall(p)
  {
  }

  lemma CallsGrow(p: Peer)
    requires p.Connected()
    ensures CallsOf(Act(p)) == CallsOf(p) + NextCall(p)
  {
    var start := [PostRecv] + Rounds(p.server, p.i);
    PassGrows(p);
    assert (start + Partial(p)) + NextCall(p) == start + (Partial(p) + NextCall(p));
    assert start + Round(p.server) == [PostRecv] + (Rounds(p.server, p.i) + Round(p.server));
  }

  lemma ActFollows(p: Peer)
    requires p.calls == CallsOf(p) && (!p.Connected() ==> p.i == 0)
    ensures Act(p).calls == CallsOf(Act(p))
  {
    assert Act(p).calls == p.calls + NextCall(p);
    if p.Connected() { CallsGrow(p); }
  }

  lemma ActCounts(p: Peer)
    ensures var p' := Act(p);
            && p'.count == p.count && p'.alive == p.alive && p'.server == p.server
            && p'.Given() == p.Given() + (if p.pc.Sending? then 1 else 0)
            && (!p.pc.Finished? ==> p'.Connected() == (p.Connected() || p.pc.Connecting?))
            && (!p.pc.Finished? ==> |p'.calls| == |p.calls| + if p.pc.Connecting? then 0 else 1)
  {
  }

  lemma ActKeepsPeer(p: Peer)
    requires PeerInv(p) && (p.pc.Receiving? ==> p.recvDone > 0)
    ensures PeerInv(Act(p))
  {
  }

  lemma ServerActs(s: Sys)
    requires Inv(s) && Enabled(s, Acts(true))
    ensures Inv(DoStep(s, Acts(true)))
  {
    ActKeepsPeer(s.server);
    ActCounts(s.server);
  }

  lemma ClientActs(s: Sys)
    requires Inv(s) && Enabled(s, Acts(false))
    ensures Inv(DoStep(s, Acts(false)))
  {
    ActKeepsPeer(s.client);
    ActCounts(s.client);
  }

  lemma DeliveryKeeps(s: Sys, toServer: bool)
    requires Inv(s) && Enabled(s, Delivers(toServer))
    ensures Inv(DoStep(s, Delivers(toServer)))
  {
  }

  lemma FailureKeeps(s: Sys, server: bool)
    requires Inv(s) && Enabled(s, Fails(server))
    ensures Inv(DoStep(s, Fails(server)))
  {
  }

  lemma OthersFollow(s: Sys, l: Label)
    requires CallsInv(s) && Enabled(s, l) && !l.Acts?
    ensures CallsInv(DoStep(s, l))
  {
    var t := DoStep(s, l);
    assert CallsOf(t.client) == CallsOf(s.client) && CallsOf(t.server) == CallsOf(s.server);
  }

  lemma StepKeeps(s: Sys, l: Label)
    requires Inv(s) && CallsInv(s) && Enabled(s, l)
    ensures Inv(DoStep(s, l)) && CallsInv(DoStep(s, l))
  {
    match l {
      case Acts(true) => ServerActs(s); ActFollows(s.server);
      case Acts(false) => ClientActs(s); ActFollows(s.client);
      case Delivers(toServer) => DeliveryKeeps(s, toServer); OthersFollow(s, l);
      case Fails(server) => FailureKeeps(s, server); OthersFollow(s, l);
    }
  }

  predicate IsRun(s: Sys, labels: seq<Label>)
    decreases |labels|
  {
    labels == [] || (Enabled(s, labels[0]) && IsRun(DoStep(s, labels[0]), labels[1..]))
  }

  function RunTo(s: Sys, labels: seq<Label>): Sys
    requires IsRun(s, labels)
    decreases |labels|
  {
    if labels == [] then s else RunTo(DoStep(s, labels[0]), labels[1..])
  }

  /** The calls and deliveries so far. */
  function Steps(s: Sys): int {
    |s.client.calls| + |s.server.calls|
    + (if s.client.Connected() then 1 else 0) + (if s.server.Connected() then 1 else 0)
    + s.client.Given() - s.toServer + s.server.Given() - s.toClient
  }

  function Failures(labels: seq<Label>): nat {
    if labels == [] then 0 else (if labels[0].Fails? then 1 else 0) + Failures(labels[1..])
  }

  lemma StepCounts(s: Sys, l: Label)
    requires Enabled(s, l)
    ensures var t := DoStep(s, l);
            && t.client.count == s.client.count && t.server.count == s.server.count
            && Steps(t) == Steps(s) + (if l.Fails? then 0 else 1)
            && (!l.Fails? ==> t.client.alive == s.client.alive && t.server.alive == s.server.alive)
  {
    match l {
      case Acts(true) => ActCounts(s.server);
      case Acts(false) => ActCounts(s.client);
      case _ =>
    }
  }

  lemma {:induction false} RunKeeps(s: Sys, labels: seq<Label>)
    requires Inv(s) && CallsInv(s) && IsRun(s, labels)
    ensures Inv(RunTo(s, labels)) && CallsInv(RunTo(s, labels))
    decreases |labels|
  {
    if labels != [] {
      StepKeeps(s, labels[0]);
      RunKeeps(DoStep(s, labels[0]), labels[1..]);
    }
  }

  lemma {:induction false} RunCounts(s: Sys, labels: seq<Label>)
    requires IsRun(s, labels)
    ensures var t := RunTo(s, labels);
            && t.client.count == s.client.count && t.server.count == s.server.count
            && Steps(t) == Steps(s) + |labels| - Failures(labels)
            && (Failures(labels) == 0 ==> t.client.alive == s.client.alive && t.server.alive == s.server.alive)
    decreases |labels|
  {
    if labels != [] {
      StepCounts(s, labels[0]);
      RunCounts(DoStep(s, labels[0]), labels[1..]);
    }
  }

  /** What is known after any run from the start. */
  lemma Reached(clientCount: nat, serverCount: nat, labels: seq<Label>) returns (s: Sys)
    requires IsRun(Init(clientCount, serverCount), labels)
    ensures s == RunTo(Init(clientCount, serverCount), labels) && Inv(s) && CallsInv(s)
    ensures s.client.count == clientCount && s.server.count == serverCount
    ensures Failures(labels) == 0 ==> s.client.alive && s.server.alive && Steps(s) == |labels|
  {
    s := RunTo(Init(clientCount, serverCount), labels);
    RunKeeps(Init(clientCount, serverCount), labels);
    RunCounts(Init(clientCount, serverCount), labels);
  }

  /** A side that has met an error makes no more calls. */
  lemma {:induction false} FailedSideStops(s: Sys, labels: seq<Label>)
    requires IsRun(s, labels)
    ensures !s.client.alive ==> !RunTo(s, labels).client.alive && RunTo(s, labels).client.calls == s.client.calls
    ensures !s.server.alive ==> !RunTo(s, labels).server.alive && RunTo(s, labels).server.calls == s.server.calls
    decreases |labels|
  {
    if labels != [] { FailedSideStops(DoStep(s, labels[0]), labels[1..]); }
  }

  /** An error may come at any point, and is that: the side has failed and nothing else has changed. */
  lemma MayFail(s: Sys)
    requires s.client.alive && s.server.alive
    ensures Enabled(s, Fails(true)) && DoStep(s, Fails(true)) == s.(server := s.server.(alive := false))
    ensures Enabled(s, Fails(false)) && DoStep(s, Fails(false)) == s.(client := s.client.(alive := false))
  {
  }

  // ---------------------------------------------------------------------------------------------
  // Safety
  // ---------------------------------------------------------------------------------------------

  /** Lockstep, after every run of any length with failures at any call: at most one message is in flight and
   * its receiver has exactly one receive posted; each side leads the other by at most one message; a send is
   * posted only with no send outstanding and a receive only with none posted, so depth one is enough.
   */
  lemma Lockstep(clientCount: nat, serverCount: nat, labels: seq<Label>)
    requires IsRun(Init(clientCount, serverCount), labels)
    ensures var s := RunTo(Init(clientCount, serverCount), labels);
            && s.toServer + s.toClient <= 1
            && (s.toServer > 0 ==> s.server.posted == 1) && (s.toClient > 0 ==> s.client.posted == 1)
            && s.server.posted <= 1 && s.client.posted <= 1
            && 0 <= s.client.Given() - s.server.Taken() <= 1
            && 0 <= s.server.Given() - s.client.Taken() <= 1
            && (s.client.pc.Sending? ==> s.toServer + s.client.sendDone == 0)
            && (s.server.pc.Sending? ==> s.toClient + s.server.sendDone == 0)
            && (s.client.pc.Reposting? ==> s.client.posted + s.client.recvDone == 0)
            && (s.server.pc.Reposting? ==> s.server.posted + s.server.recvDone == 0)
  {
    var s := Reached(clientCount, serverCount, labels);
  }

  /** Both sides make the calls of their scripts, in order, whatever the interleaving. */
  lemma FollowScript(clientCount: nat, serverCount: nat, labels: seq<Label>)
    requires IsRun(Init(clientCount, serverCount), labels)
    ensures var s := RunTo(Init(clientCount, serverCount), labels);
            && s.client.calls <= Script(false, clientCount)
            && s.server.calls <= Script(true, serverCount)
  {
    var s := Reached(clientCount, serverCount, labels);
    PeerFollows(s.client);
    PeerFollows(s.server);
  }

  lemma PeerFollows(p: Peer)
    requires PeerInv(p) && p.calls == CallsOf(p)
    ensures p.calls <= Script(p.server, p.count)
  {
    if p.i < p.count {
      RoundsPrefix(p.server, p.i, p.count);
      assert Partial(p) <= Round(p.server);
      assert Rounds(p.server, p.i) + Partial(p) <= Rounds(p.server, p.i) + Round(p.server);
    }
  }

  // ---------------------------------------------------------------------------------------------
  // Completion
  // ---------------------------------------------------------------------------------------------

  ghost predicate Stuck(s: Sys) { forall l :: Enabled(s, l) ==> l.Fails? }

  function Min(a: nat, b: nat): nat { if a < b then a else b }

  lemma StuckCounts(s: Sys)
    requires Inv(s) && s.client.alive && s.server.alive && Stuck(s)
    ensures var m := Min(s.client.count, s.server.count);
            && s.server.recvs == s.server.sends == s.client.recvs == m
            && s.client.sends == m + (if s.client.count > m then 1 else 0)
            && (s.client.pc.Finished? <==> s.client.count == m)
            && (s.server.pc.Finished? <==> s.server.count == m)
            && s.toServer == s.toClient == 0
  {
    assert !Enabled(s, Acts(true)) && !Enabled(s, Acts(false));
    assert !Enabled(s, Delivers(true)) && !Enabled(s, Delivers(false));
  }

  /** Without a failure a run comes to a halt after a fixed number of steps, and exactly when the two message
   * counts are equal both sides have then finished, each with all its messages sent and received. With
   * unequal counts the side with the larger count waits for ever: the client after one message more.
   */
  lemma FinishIff(clientCount: nat, serverCount: nat, labels: seq<Label>)
    requires IsRun(Init(clientCount, serverCount), labels) && Failures(labels) == 0
    requires Stuck(RunTo(Init(clientCount, serverCount), labels))
    ensures var s, m := RunTo(Init(clientCount, serverCount), labels), Min(clientCount, serverCount);
            && (s.client.pc.Finished? && s.server.pc.Finished? <==> clientCount == serverCount)
            && s.client.recvs == s.server.sends == s.server.recvs == m
            && s.client.sends == (if clientCount > serverCount then m + 1 else m)
            && |labels| == 4 + 10 * m + if clientCount > serverCount then 3 else 0
  {
    var s := Reached(clientCount, serverCount, labels);
    StuckCounts(s);
    RoundsLength(false, s.client.i);
    RoundsLength(true, s.server.i);
  }

  lemma {:induction false} RoundsLength(server: bool, n: nat)
    ensures |Rounds(server, n)| == 4 * n
  {
    if n > 0 { RoundsLength(server, n - 1); }
  }

  /** The calls a side has made, and its connecting, as a number. */
  lemma CallsLength(p: Peer)
    requires Counts(p)
    ensures |CallsOf(p)| + (if p.Connected() then 1 else 0)
         == (match p.pc case Unposted => 0 case Connecting => 1 case _ => 2 + p.sends + p.recvs + p.Given() + p.Taken())
  {
    RoundsLength(p.server, p.i);
  }

  /** The counters of a run lie in one chain. */
  predicate Chained(s: Sys) {
    && s.client.Taken() <= s.server.Given() <= s.server.Taken() <= s.client.Given() <= s.client.Taken() + 1
    && s.client.sends <= s.client.Given() <= s.client.count && s.client.recvs <= s.client.Taken()
    && s.server.sends <= s.server.Given() && s.server.recvs <= s.server.Taken() <= s.server.count
  }

  lemma Chain(s: Sys)
    requires Inv(s)
    ensures Chained(s)
  {
  }

  predicate BoundedCalls(p: Peer) {
    |p.calls| + (if p.Connected() then 1 else 0) <= 2 + p.sends + p.recvs + p.Given() + p.Taken()
  }

  lemma OwnCalls(p: Peer)
    requires Counts(p) && p.calls == CallsOf(p)
    ensures BoundedCalls(p)
  {
    CallsLength(p);
  }

  lemma StepsBound(s: Sys)
    requires Chained(s)
    requires BoundedCalls(s.client) && BoundedCalls(s.server)
    ensures Steps(s) <= 4 + 10 * Min(s.client.count, s.server.count)
                        + if s.client.count > s.server.count then 3 else 0
  {
  }

  /** No run without a failure is longer than that. */
  lemma RunsEnd(clientCount: nat, serverCount: nat, labels: seq<Label>)
    requires IsRun(Init(clientCount, serverCount), labels) && Failures(labels) == 0
    ensures |labels| <= 4 + 10 * Min(clientCount, serverCount) + if clientCount > serverCount then 3 else 0
  {
    var s := Reached(clientCount, serverCount, labels);
    Chain(s);
    OwnCalls(s.client);
    OwnCalls(s.server);
    StepsBound(s);
  }
}
