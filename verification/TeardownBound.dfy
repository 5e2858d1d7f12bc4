/** How long the whole test can take: in every interleaving the steps that change more than the place of the
 * server in its read loop are bounded by the work there is.
 */
module TeardownBound {

  import opened RoundRobin
  import opened ReadEngine
  import opened ReadTheorems
  import opened ControlPhase
  import opened Teardown

  predicate InReadLoop(pc: ServerPc) { pc.LoopHead? || pc.PollPoint? }

  /** A refused post or an empty poll of the read loop moves the server and changes nothing else; every other
   * step that is taken has an effect.
   */
  predicate Effective(cfg: Config, s: Sys, l: Label)
    requires s.eng.Shape()
  {
    var r := DoStep(cfg, s, l);
    r != s && !(InReadLoop(s.server) && InReadLoop(r.server) && r == s.(server := r.server))
  }

  /** Posts, completions and iterations still to come. */
  function EngineWork(cfg: Config, e: State): int
    requires cfg.Valid()
  {
    WorkLeft(cfg, e) + cfg.numIterations - |e.log|
  }

  function ServerBudget(cfg: Config, s: Sys): int
    requires cfg.Valid()
  {
    match s.server
    case Connecting => EngineWork(cfg, s.eng) + 2 * |s.clients| + 4
    case LoopHead => EngineWork(cfg, s.eng) + 2 * |s.clients| + 3
    case PollPoint => EngineWork(cfg, s.eng) + 2 * |s.clients| + 3
    case SendingFins(i) => 2 * (|s.clients| - i) + |s.eng.inflight| + 2
    case AwaitingFins => |s.eng.inflight| + 1
    case PastFins => 0
    case Failed(_) => 0
  }

  function Budget(cfg: Config, s: Sys): int
    requires cfg.Valid()
  {
    ServerBudget(cfg, s) + ClientsLeft(s.clients)
    + (|s.clients| - s.requested) + (|s.clients| - s.established) + (|s.clients| - |s.seen|)
  }

  lemma EngineWorkNonNegative(cfg: Config, e: State)
    requires ReadPhase(cfg, e) || (cfg.Valid() && Idle(cfg, e) && e.log == [])
    ensures EngineWork(cfg, e) >= 0
  {
    WorkNonNegative(cfg, e);
  }

  lemma BudgetNonNegative(cfg: Config, s: Sys)
    requires Inv(cfg, s)
    ensures Budget(cfg, s) >= 0
  {
    if s.server.BeforeFins() { EngineWorkNonNegative(cfg, s.eng); }
    SubsetSize(s.seen, Below(|s.clients|));
  }

  lemma ClientFalls(cfg: Config, s: Sys, l: Label)
    requires cfg.Valid()
    ensures ClientStep(s, l) == s || Budget(cfg, ClientStep(s, l)) == Budget(cfg, s) - 1
  {
    ClientMoves(s, l);
  }

  lemma AdvanceFalls(cfg: Config, s: Sys)
    requires cfg.Valid() && s.eng.Shape() && ServerInv(cfg, s)
    ensures var r := ServerStep(cfg, s, ServerAdvances); r == s || Budget(cfg, r) < Budget(cfg, s)
  {
    var e := s.eng;
    if s.server.LoopHead? && !(e.log != [] && e.Busy()) {
      EngineWorkNonNegative(cfg, e);
      if e.log != [] {
        IterationEnd(cfg, e);
        NestedLength(cfg.PlanFor(|e.offsets|), Rounds(cfg.PlanFor(|e.offsets|)));
      }
      if |e.log| < cfg.numIterations { IterationWork(cfg, e); }
    }
  }

  lemma PostFalls(cfg: Config, s: Sys, reply: PostReply)
    requires cfg.Valid() && s.eng.Shape() && ServerInv(cfg, s) && s.server.LoopHead? && s.eng.log != [] && s.eng.Busy()
    ensures var r := ServerStep(cfg, s, ServerPosts(reply));
            r == s.(server := PollPoint) || Budget(cfg, r) < Budget(cfg, s)
  {
    EngineWorkNonNegative(cfg, s.eng);
    PostTurnKeeps(cfg, s.eng, reply);
    if PostTurn(cfg, s.eng, reply).Next? && s.eng.MayPost(cfg) && reply.Accepted? { AcceptedPostWork(cfg, s.eng); }
  }

  /** A poll of the read loop without a packet: nothing, an error, or one completion less. */
  lemma ReadPollFalls(cfg: Config, e: State, reply: PollReply)
    requires ReadPhase(cfg, e) && !reply.Packet?
    ensures EngineWork(cfg, e) >= 0
    ensures var r := Poll(cfg, e, reply);
            r.Stop? || r.state == e || EngineWork(cfg, r.state) == EngineWork(cfg, e) - 1
  {
    EngineWorkNonNegative(cfg, e);
    PollWork(cfg, e, reply);
    PollKeepsAccounts(cfg, e, reply);
  }

  lemma WaitPollFalls(cfg: Config, e: State, reply: PollReply)
    requires Accounts(cfg, e) && !reply.Packet?
    ensures var r := Poll(cfg, e, reply);
            r.Stop? || r.state == e || |r.state.inflight| == |e.inflight| - 1
  {
    PollKeepsAccounts(cfg, e, reply);
  }

  lemma PollFalls(cfg: Config, s: Sys, reply: PollReply)
    requires cfg.Valid() && s.eng.Shape() && ServerInv(cfg, s) && Polling(s) && !reply.Packet?
    ensures var r := ServerStep(cfg, s, ServerPolls(reply));
            r == s.(server := AfterPoll(s.server)) || Budget(cfg, r) < Budget(cfg, s)
  {
    if s.server.PollPoint? { ReadPollFalls(cfg, s.eng, reply); } else { WaitPollFalls(cfg, s.eng, reply); }
  }

  lemma PollFinFalls(cfg: Config, s: Sys, c: nat)
    requires Inv(cfg, s) && Polling(s) && c in s.toServer
    ensures Budget(cfg, ServerStep(cfg, s, ServerPollsFin(c))) < Budget(cfg, s)
  {
    if s.server.PollPoint? { PollWork(cfg, s.eng, Packet(true)); }
    assert c !in s.seen;
  }

  lemma SendFalls(cfg: Config, s: Sys, reply: SendReply)
    requires Inv(cfg, s) && s.server.SendingFins? && s.server.next < |s.clients|
    ensures Budget(cfg, ServerStep(cfg, s, ServerSends(reply))) < Budget(cfg, s)
  {
    SendKeeps(cfg, s.eng, s.server.next, reply, s.server.next);
  }

  lemma ServerFalls(cfg: Config, s: Sys, l: Label)
    requires Inv(cfg, s)
    ensures var r := ServerStep(cfg, s, l);
            || Budget(cfg, r) < Budget(cfg, s)
            || r == s
            || (InReadLoop(s.server) && InReadLoop(r.server) && r == s.(server := r.server))
  {
    match l {
      case ServerAdvances => AdvanceFalls(cfg, s);
      case ServerPosts(reply) =>
        if s.server.LoopHead? && s.eng.log != [] && s.eng.Busy() { PostFalls(cfg, s, reply); }
      case ServerPolls(reply) => if Polling(s) && !reply.Packet? { PollFalls(cfg, s, reply); }
      case ServerPollsFin(c) => if Polling(s) && c in s.toServer { PollFinFalls(cfg, s, c); }
      case ServerSends(reply) =>
        if s.server.SendingFins? && s.server.next < |s.clients| { SendFalls(cfg, s, reply); }
      case _ =>
    }
  }

  /** Every step with an effect uses up some of the budget, and no step adds to it. */
  lemma StepFalls(cfg: Config, s: Sys, l: Label)
    requires Inv(cfg, s)
    ensures Budget(cfg, DoStep(cfg, s, l)) + (if Effective(cfg, s, l) then 1 else 0) <= Budget(cfg, s)
  {
    ClientFalls(cfg, s, l);
    ServerFalls(cfg, s, l);
  }

  /** The steps with an effect along a run. */
  function Effects(cfg: Config, s: Sys, labels: seq<Label>): nat
    requires s.eng.Shape()
    decreases |labels|
  {
    if labels == [] then 0 else
    (if Effective(cfg, s, labels[0]) then 1 else 0) + Effects(cfg, DoStep(cfg, s, labels[0]), labels[1..])
  }

  lemma {:induction false} EffectsWithinBudget(cfg: Config, s: Sys, labels: seq<Label>)
    requires Inv(cfg, s)
    ensures Effects(cfg, s, labels) + Budget(cfg, Exec(cfg, s, labels)) <= Budget(cfg, s)
    decreases |labels|
  {
    if labels != [] {
      StepFalls(cfg, s, labels[0]);
      StepKeeps(cfg, s, labels[0]);
      EffectsWithinBudget(cfg, DoStep(cfg, s, labels[0]), labels[1..]);
    }
  }

  lemma {:induction false} AllUnconnected(cs: seq<ClientPc>)
    requires forall c :: 0 <= c < |cs| ==> cs[c] == Unconnected
    ensures ClientsLeft(cs) == 4 * |cs|
  {
    if cs != [] { AllUnconnected(cs[..|cs| - 1]); }
  }

  /** In every interleaving: twice the segments of all iterations, the iterations, and nine steps per client
   * and four more bound the steps with an effect. So a run can only go on for ever with empty polls and
   * refused posts.
   */
  lemma EffectsBounded(cfg: Config, init: Sys, labels: seq<Label>)
    requires Initial(cfg, init) && Supported(cfg, |init.clients|)
    ensures Effects(cfg, init, labels)
         <= 2 * Total(cfg.PlanFor(|init.clients|)) * cfg.numIterations + cfg.numIterations + 9 * |init.clients| + 4
  {
    InitialInv(cfg, init);
    EffectsWithinBudget(cfg, init, labels);
    ExecKeeps(cfg, init, labels);
    BudgetNonNegative(cfg, Exec(cfg, init, labels));
    InitialBudget(cfg, init);
  }

  lemma InitialBudget(cfg: Config, s: Sys)
    requires Initial(cfg, s) && cfg.Valid()
    ensures Budget(cfg, s)
         == 2 * Total(cfg.PlanFor(|s.clients|)) * cfg.numIterations + cfg.numIterations + 9 * |s.clients| + 4
  {
    AllUnconnected(s.clients);
  }
}
