/** What `do_rdma_reads` guarantees over whole runs, for every sequence of adapter replies. */
module ReadTheorems {

  import opened RoundRobin
  import opened WorkRequests
  import opened ReadEngine

  /** The only ways for a run to stop before its end: an error return, or with a window that does not fit a
   * find-first-set beyond the initiators.
   */
  predicate Excusable(cfg: Config, conns: nat, f: Fault)
    requires cfg.Valid()
  {
    f.ErrorReturn? || (f.DciOutOfRange? && !WindowFits(cfg, conns))
  }

  /** A turn stops in these cases and no others: where it may post, no initiator in range or a negative code;
   * and an error status of the poll. A good completion, a packet or an empty poll lets the loop go on.
   */
  lemma TurnStopsIff(cfg: Config, s: State, e: TurnReplies)
    requires ReadPhase(cfg, s)
    ensures LoopTurn(cfg, s, e).Stop?
       <==> (s.MayPost(cfg) && (!InRange(cfg, s) || e.post.Rejected?)) || e.poll.BadStatus?
  {
    PostTurnKeeps(cfg, s, e.post);
    var posted := PostTurn(cfg, s, e.post);
    if posted.Next? { PollKeepsAccounts(cfg, posted.state, e.poll); }
  }

  lemma TurnKeeps(cfg: Config, s: State, e: TurnReplies)
    requires ReadPhase(cfg, s)
    ensures var r := LoopTurn(cfg, s, e);
            && (r.Next? ==> ReadPhase(cfg, r.state))
            && (r.Stop? ==> Excusable(cfg, |s.offsets|, r.fault))
  {
    PostTurnKeeps(cfg, s, e.post);
    var posted := PostTurn(cfg, s, e.post);
    if posted.Next? {
      PollKeepsAccounts(cfg, posted.state, e.poll);
      PollKeeps(cfg, posted.state, e.poll);
    }
  }

  /** No run trips an assert or underflows a counter, and none indexes a missing initiator when the window
   * fits; a run that is still going satisfies the invariant; a run that returns has read every region
   * completely in every iteration.
   */
  lemma {:induction false} ReadsCorrect(cfg: Config, s: State, script: seq<TurnReplies>)
    requires cfg.Valid()
    requires ReadPhase(cfg, s) || (s.log == [] && Idle(cfg, s))
    ensures var o := Reads(cfg, s, script);
            && |o.state.offsets| == |s.offsets|
            && (o.Halted? ==> Excusable(cfg, |s.offsets|, o.fault))
            && (o.Pending? ==> ReadPhase(cfg, o.state) && o.state.Busy())
            && (o.Finished? ==> AllRead(cfg, o.state))
    decreases cfg.numIterations - |s.log|, |script|
  {
    if s.log != [] && s.Busy() {
      if script != [] {
        TurnKeeps(cfg, s, script[0]);
        if LoopTurn(cfg, s, script[0]).Next? {
          ReadsCorrect(cfg, LoopTurn(cfg, s, script[0]).state, script[1..]);
        }
      }
    } else {
      if s.log != [] { IterationEnd(cfg, s); }
      if |s.log| < cfg.numIterations {
        StartKeeps(cfg, s);
        ReadsCorrect(cfg, StartIteration(s), script);
      }
    }
  }

  /** The adapter neither refuses a post with a negative code nor reports an error. */
  predicate Benign(script: seq<TurnReplies>) {
    forall i :: 0 <= i < |script| ==> !script[i].post.Rejected? && !script[i].poll.BadStatus?
  }

  /** With a benign adapter a run is never halted, unless the window does not fit and it runs out of initiators. */
  lemma {:induction false} BenignRuns(cfg: Config, s: State, script: seq<TurnReplies>)
    requires cfg.Valid() && Benign(script)
    requires ReadPhase(cfg, s) || (s.log == [] && Idle(cfg, s))
    ensures var o := Reads(cfg, s, script);
            o.Halted? ==> o.fault.DciOutOfRange? && !WindowFits(cfg, |s.offsets|)
    decreases cfg.numIterations - |s.log|, |script|
  {
    if s.log != [] && s.Busy() {
      if script != [] {
        TurnStopsIff(cfg, s, script[0]);
        TurnKeeps(cfg, s, script[0]);
        BenignTurn(cfg, s, script[0]);
        if LoopTurn(cfg, s, script[0]).Next? { BenignRuns(cfg, LoopTurn(cfg, s, script[0]).state, script[1..]); }
      }
    } else {
      if s.log != [] { IterationEnd(cfg, s); }
      if |s.log| < cfg.numIterations {
        StartKeeps(cfg, s);
        BenignRuns(cfg, StartIteration(s), script);
      }
    }
  }

  lemma BenignTurn(cfg: Config, s: State, e: TurnReplies)
    requires ReadPhase(cfg, s) && !e.post.Rejected? && !e.poll.BadStatus?
    ensures var r := LoopTurn(cfg, s, e); r.Stop? ==> r.fault.DciOutOfRange? && !WindowFits(cfg, |s.offsets|)
  {
    PostTurnKeeps(cfg, s, e.post);
    var posted := PostTurn(cfg, s, e.post);
    if posted.Next? { PollKeepsAccounts(cfg, posted.state, e.poll); }
  }

  // ---------------------------------------------------------------------------------------------
  // Progress and termination
  // ---------------------------------------------------------------------------------------------

  /** While the loop runs, a read can be posted or a completion is on its way. */
  lemma NeverStuck(cfg: Config, s: State)
    requires ReadPhase(cfg, s) && s.Busy()
    ensures s.MayPost(cfg) || s.inflight != []
  {
    CountAll(IsRead, s.inflight);
  }

  /** Posts and completions still to come, over all remaining iterations. */
  function WorkLeft(cfg: Config, s: State): int
    requires cfg.Valid()
  {
    var total := Total(cfg.PlanFor(|s.offsets|));
    2 * total * (cfg.numIterations - |s.log|)
    + (if s.log == [] then 0 else 2 * (total - |Current(s)|) + s.outstanding)
  }

  /** The useful events of one turn: an accepted post, a completion, a FIN. */
  function Gain(cfg: Config, s: State, e: TurnReplies): nat
    requires s.Shape()
  {
    (if s.MayPost(cfg) && e.post.Accepted? then 1 else 0) + PollGain(PostTurn(cfg, s, e.post).state, e.poll)
  }

  function PollGain(s: State, reply: PollReply): nat {
    match reply
    case Completed(k) => if k < |s.inflight| then 1 else 0
    case Packet(fin) => if fin then 1 else 0
    case _ => 0
  }

  /** The useful events of a whole run. */
  function Gains(cfg: Config, s: State, script: seq<TurnReplies>): nat
    requires s.Shape()
    decreases cfg.numIterations - |s.log|, |script|
  {
    if s.log != [] && s.Busy() then
      if script == [] then 0 else
      match LoopTurn(cfg, s, script[0])
      case Next(s') => Gain(cfg, s, script[0]) + Gains(cfg, s', script[1..])
      case Stop(f, s') => 0
    else if |s.log| < cfg.numIterations then Gains(cfg, StartIteration(s), script)
    else 0
  }

  lemma PollWork(cfg: Config, s: State, reply: PollReply)
    requires ReadPhase(cfg, s)
    ensures var r := Poll(cfg, s, reply).state;
            WorkLeft(cfg, s) - s.finRecvd == WorkLeft(cfg, r) - r.finRecvd + PollGain(s, reply)
  {
    PollKeepsAccounts(cfg, s, reply);
    if reply.Completed? && reply.k < |s.inflight| {
      assert s.inflight[reply.k] in s.inflight;
    }
  }

  lemma AcceptedPostWork(cfg: Config, s: State)
    requires ReadPhase(cfg, s) && s.MayPost(cfg) && InRange(cfg, s)
    ensures var r := PostTurn(cfg, s, Accepted).state;
            WorkLeft(cfg, s) == WorkLeft(cfg, r) + 1 && r.finRecvd == s.finRecvd
  {
    AcceptedPostKeeps(cfg, s);
    OneMorePosted(cfg, s, PostTurn(cfg, s, Accepted).state);
  }

  lemma OneMorePosted(cfg: Config, s: State, r: State)
    requires cfg.Valid() && s.log != [] && |r.log| == |s.log| && |r.offsets| == |s.offsets|
    requires |Current(r)| == |Current(s)| + 1 && r.outstanding == s.outstanding + 1
    ensures WorkLeft(cfg, s) == WorkLeft(cfg, r) + 1
  {
  }

  lemma PostWork(cfg: Config, s: State, reply: PostReply)
    requires ReadPhase(cfg, s) && PostTurn(cfg, s, reply).Next?
    ensures var r := PostTurn(cfg, s, reply).state;
            WorkLeft(cfg, s) - s.finRecvd
            == WorkLeft(cfg, r) - r.finRecvd + if s.MayPost(cfg) && reply.Accepted? then 1 else 0
  {
    PostTurnKeeps(cfg, s, reply);
    if s.MayPost(cfg) && reply.Accepted? { AcceptedPostWork(cfg, s); }
  }

  lemma TurnWork(cfg: Config, s: State, e: TurnReplies)
    requires ReadPhase(cfg, s) && LoopTurn(cfg, s, e).Next?
    ensures var r := LoopTurn(cfg, s, e).state;
            WorkLeft(cfg, s) - s.finRecvd == WorkLeft(cfg, r) - r.finRecvd + Gain(cfg, s, e)
  {
    PostTurnKeeps(cfg, s, e.post);
    PostWork(cfg, s, e.post);
    PollWork(cfg, PostTurn(cfg, s, e.post).state, e.poll);
  }

  lemma IterationWork(cfg: Config, s: State)
    requires cfg.Valid() && s.Shape() && !s.Busy() && |s.log| < cfg.numIterations
    requires s.log != [] ==> |Current(s)| == Total(cfg.PlanFor(|s.offsets|))
    ensures WorkLeft(cfg, StartIteration(s)) == WorkLeft(cfg, s)
  {
    var w, k := 2 * Total(cfg.PlanFor(|s.offsets|)), cfg.numIterations - |s.log|;
    assert w * k == w * (k - 1) + w;
  }

  /** Conservation: the useful events of a run are exactly the work it has removed plus the FINs it has
   * counted. So a run has at most twice as many posts and completions as there are segments, and a run
   * with that many useful events has returned.
   */
  lemma {:induction false} WorkIsConserved(cfg: Config, s: State, script: seq<TurnReplies>)
    requires cfg.Valid()
    requires ReadPhase(cfg, s) || (s.log == [] && Idle(cfg, s))
    requires !Reads(cfg, s, script).Halted?
    ensures var o := Reads(cfg, s, script);
            && Gains(cfg, s, script) == WorkLeft(cfg, s) - WorkLeft(cfg, o.state) + o.state.finRecvd - s.finRecvd
            && (o.Pending? ==> WorkLeft(cfg, o.state) > 0)
            && (o.Finished? ==> WorkLeft(cfg, o.state) == 0)
    decreases cfg.numIterations - |s.log|, |script|
  {
    var total := Total(cfg.PlanFor(|s.offsets|));
    if s.log != [] && s.Busy() {
      if script == [] {
        WorkPositive(cfg, s);
      } else {
        TurnKeeps(cfg, s, script[0]);
        TurnWork(cfg, s, script[0]);
        WorkIsConserved(cfg, LoopTurn(cfg, s, script[0]).state, script[1..]);
      }
    } else {
      if s.log != [] {
        IterationEnd(cfg, s);
        NestedLength(cfg.PlanFor(|s.offsets|), Rounds(cfg.PlanFor(|s.offsets|)));
        assert |Current(s)| == total;
      }
      if |s.log| < cfg.numIterations {
        StartKeeps(cfg, s);
        IterationWork(cfg, s);
        WorkIsConserved(cfg, StartIteration(s), script);
      }
    }
  }

  lemma WorkPositive(cfg: Config, s: State)
    requires ReadPhase(cfg, s) && s.Busy()
    ensures WorkLeft(cfg, s) > 0
  {
    var total, k := Total(cfg.PlanFor(|s.offsets|)), cfg.numIterations - |s.log|;
    Product(2 * total, k);
    if s.queue != [] {
      PostKeepsSchedule(cfg.PlanFor(|s.offsets|), s.offsets, s.queue, Current(s));
    }
  }

  /** Every turn of the run that does not stop it brings at least one useful event. */
  predicate Productive(cfg: Config, s: State, script: seq<TurnReplies>)
    requires s.Shape()
    decreases cfg.numIterations - |s.log|, |script|
  {
    if s.log != [] && s.Busy() then
      script == [] || (
        match LoopTurn(cfg, s, script[0])
        case Next(s') => Gain(cfg, s, script[0]) > 0 && Productive(cfg, s', script[1..])
        case Stop(f, s') => true)
    else if |s.log| < cfg.numIterations then Productive(cfg, StartIteration(s), script)
    else true
  }

  lemma {:induction false} ProductiveGains(cfg: Config, s: State, script: seq<TurnReplies>)
    requires s.Shape() && Productive(cfg, s, script) && Reads(cfg, s, script).Pending?
    ensures Gains(cfg, s, script) >= |script|
    decreases cfg.numIterations - |s.log|, |script|
  {
    if s.log != [] && s.Busy() {
      if script != [] {
        ProductiveGains(cfg, LoopTurn(cfg, s, script[0]).state, script[1..]);
      }
    } else if |s.log| < cfg.numIterations {
      ProductiveGains(cfg, StartIteration(s), script);
    }
  }

  /** Termination: with a benign adapter, a window that fits and no empty turns, do_rdma_reads returns within
   * twice the number of segments of all iterations plus the number of FINs that can arrive.
   */
  lemma ReadsTerminate(cfg: Config, s: State, script: seq<TurnReplies>, fins: nat)
    requires cfg.Valid() && s.log == [] && Idle(cfg, s)
    requires Productive(cfg, s, script) && Benign(script)
    requires Reads(cfg, s, script).state.finRecvd <= s.finRecvd + fins
    requires |script| >= 2 * Total(cfg.PlanFor(|s.offsets|)) * cfg.numIterations + fins
    ensures var o := Reads(cfg, s, script);
            o.Finished? || (o.Halted? && o.fault.DciOutOfRange? && !WindowFits(cfg, |s.offsets|))
  {
    BenignRuns(cfg, s, script);
    if Reads(cfg, s, script).Halted? { return; }
    WorkIsConserved(cfg, s, script);
    assert WorkLeft(cfg, s) == 2 * Total(cfg.PlanFor(|s.offsets|)) * cfg.numIterations;
    if Reads(cfg, s, script).Pending? { ProductiveGains(cfg, s, script); }
  }

  // ---------------------------------------------------------------------------------------------
  // Exactly when the choice of an initiator stays in range
  // ---------------------------------------------------------------------------------------------

  /** k reads are in flight on initiators 0..k-1 and none has completed. */
  ghost predicate Filled(cfg: Config, s: State, k: nat) {
    && ReadPhase(cfg, s)
    && |Current(s)| == k && s.outstanding == k
    && forall d :: 0 <= d < NUM_DCI ==> (s.freeDci[d] <==> d >= k)
  }

  const BurstTurn: TurnReplies := TurnReplies(Accepted, Empty)

  function Burst(n: nat): seq<TurnReplies> { if n == 0 then [] else [BurstTurn] + Burst(n - 1) }

  lemma FilledMayPost(cfg: Config, s: State, k: nat)
    requires Filled(cfg, s, k) && k < cfg.maxOutstanding && k < Total(cfg.PlanFor(|s.offsets|))
    ensures s.MayPost(cfg) && s.Busy()
  {
    assert Total(cfg.PlanFor(|s.offsets|)) == |s.offsets| * Rounds(cfg.PlanFor(|s.offsets|));
  }

  lemma BurstStep(cfg: Config, s: State, k: nat)
    requires cfg.transport.DC? && k < NUM_DCI && Filled(cfg, s, k) && s.MayPost(cfg)
    ensures LoopTurn(cfg, s, BurstTurn).Next? && Filled(cfg, LoopTurn(cfg, s, BurstTurn).state, k + 1)
    ensures |LoopTurn(cfg, s, BurstTurn).state.offsets| == |s.offsets|
  {
    AcceptKeepsSchedule(cfg, s, k);
    BurstAccepts(cfg, s, k);
    FilledNext(cfg, s, k);
  }

  lemma BurstAccepts(cfg: Config, s: State, k: nat)
    requires cfg.transport.DC? && k < NUM_DCI && Filled(cfg, s, k) && s.MayPost(cfg)
    requires s.offsets[s.queue[0]] < cfg.regionSize
    ensures LoopTurn(cfg, s, BurstTurn) == Next(Accept(cfg, s, k))
  {
    assert s.freeDci[k] && FindFirstSet(s.freeDci, 0) == k;
  }

  lemma FilledNext(cfg: Config, s: State, k: nat)
    requires cfg.transport.DC? && k < NUM_DCI && Filled(cfg, s, k) && s.MayPost(cfg)
    requires s.offsets[s.queue[0]] < cfg.regionSize
    ensures Filled(cfg, Accept(cfg, s, k), k + 1) && |Accept(cfg, s, k).offsets| == |s.offsets|
  {
    assert s.freeDci[k] && s.dciOut[k] == 0;
    AcceptKeepsSchedule(cfg, s, k);
    AcceptKeeps(cfg, s, k);
  }

  lemma BurstEnd(cfg: Config, s: State)
    requires cfg.transport.DC? && Filled(cfg, s, NUM_DCI) && s.MayPost(cfg)
    ensures LoopTurn(cfg, s, BurstTurn) == Stop(DciOutOfRange(NUM_DCI), s)
  {
    PostKeepsSchedule(cfg.PlanFor(|s.offsets|), s.offsets, s.queue, Current(s));
    assert s.freeDci[NUM_DCI];
    assert FindFirstSet(s.freeDci, 0) == NUM_DCI;
  }

  /** The run from a state, as a value: proofs that go along a run treat it as unknown. */
  type Runs = (State, seq<TurnReplies>) -> Outcome

  ghost predicate Describes(cfg: Config, runs: Runs) {
    forall s: State, script: seq<TurnReplies> {:trigger Reads(cfg, s, script)} ::
      s.Shape() ==> runs(s, script) == Reads(cfg, s, script)
  }

  function AllRuns(cfg: Config): (runs: Runs)
    ensures Describes(cfg, runs)
  {
    (s: State, script: seq<TurnReplies>) => if s.Shape() then Reads(cfg, s, script) else Pending(s)
  }

  /** With k reads in flight and n initiators left, n + 1 posts without a completion run out of initiators. */
  lemma {:induction false} BurstOverruns(cfg: Config, s: State, k: nat, n: nat, runs: Runs)
    requires Describes(cfg, runs)
    requires cfg.transport.DC? && k + n == NUM_DCI && Filled(cfg, s, k)
    requires NUM_DCI < cfg.maxOutstanding && NUM_DCI < Total(cfg.PlanFor(|s.offsets|))
    ensures HaltsWith(runs(s, Burst(n + 1)), DciOutOfRange(NUM_DCI))
    decreases n
  {
    if n > 0 {
      var s' := BurstGoesOn(cfg, s, k, n, runs);
      BurstOverruns(cfg, s', k + 1, n - 1, runs);
    } else {
      BurstStops(cfg, s, runs);
    }
  }

  lemma BurstStops(cfg: Config, s: State, runs: Runs)
    requires Describes(cfg, runs)
    requires cfg.transport.DC? && Filled(cfg, s, NUM_DCI)
    requires NUM_DCI < cfg.maxOutstanding && NUM_DCI < Total(cfg.PlanFor(|s.offsets|))
    ensures HaltsWith(runs(s, Burst(1)), DciOutOfRange(NUM_DCI))
  {
    FilledMayPost(cfg, s, NUM_DCI);
    BurstRuns(cfg, s, 0);
    BurstEnd(cfg, s);
  }

  lemma BurstGoesOn(cfg: Config, s: State, k: nat, n: nat, runs: Runs) returns (s': State)
    requires Describes(cfg, runs)
    requires cfg.transport.DC? && k < NUM_DCI && n > 0 && Filled(cfg, s, k)
    requires k < cfg.maxOutstanding && k < Total(cfg.PlanFor(|s.offsets|))
    ensures Filled(cfg, s', k + 1) && |s'.offsets| == |s.offsets|
    ensures runs(s, Burst(n + 1)) == runs(s', Burst(n))
  {
    FilledMayPost(cfg, s, k);
    BurstRuns(cfg, s, n);
    BurstStep(cfg, s, k);
    s' := LoopTurn(cfg, s, BurstTurn).state;
  }

  lemma BurstRuns(cfg: Config, s: State, n: nat)
    requires s.Shape() && s.log != [] && s.Busy()
    ensures var r := LoopTurn(cfg, s, BurstTurn);
            Reads(cfg, s, Burst(n + 1)) == if r.Next? then Reads(cfg, r.state, Burst(n)) else Halted(r.fault, r.state)
  {
    var script := Burst(n + 1);
    assert script[0] == BurstTurn && script[1..] == Burst(n);
  }

  /** The find-first-set over the 64-bit bitmap stays below NUM_DCI in every run exactly when the window
   * is at most NUM_DCI, or an iteration has at most NUM_DCI segments in all (or there is no iteration).
   */
  lemma DciInRangeIff(cfg: Config, s: State)
    requires cfg.Valid() && cfg.transport.DC? && s.log == [] && Idle(cfg, s)
    ensures DciNeverOut(cfg, s) <==> cfg.numIterations == 0 || WindowFits(cfg, |s.offsets|)
  {
    if cfg.numIterations == 0 || WindowFits(cfg, |s.offsets|) {
      DciHolds(cfg, s);
    } else {
      DciFails(cfg, s);
    }
  }

  /** No run ends with an initiator out of range. */
  ghost predicate DciNeverOut(cfg: Config, s: State)
    requires s.Shape()
  {
    forall script: seq<TurnReplies>, d: nat :: !HaltsWith(Reads(cfg, s, script), DciOutOfRange(d))
  }

  lemma DciHolds(cfg: Config, s: State)
    requires cfg.Valid() && s.log == [] && Idle(cfg, s)
    requires cfg.numIterations == 0 || WindowFits(cfg, |s.offsets|)
    ensures DciNeverOut(cfg, s)
  {
    forall script: seq<TurnReplies>, d: nat ensures !HaltsWith(Reads(cfg, s, script), DciOutOfRange(d)) {
      if cfg.numIterations > 0 { ReadsCorrect(cfg, s, script); }
    }
  }

  lemma DciFails(cfg: Config, s: State)
    requires cfg.Valid() && cfg.transport.DC? && s.log == [] && Idle(cfg, s)
    requires cfg.numIterations > 0 && !WindowFits(cfg, |s.offsets|)
    ensures !DciNeverOut(cfg, s)
  {
    StartKeeps(cfg, s);
    var s1, script := StartIteration(s), Burst(NUM_DCI + 1);
    assert Filled(cfg, s1, 0);
    BurstOverruns(cfg, s1, 0, NUM_DCI, AllRuns(cfg));
    assert Reads(cfg, s, script) == Reads(cfg, s1, script);
    assert HaltsWith(Reads(cfg, s, script), DciOutOfRange(NUM_DCI));
  }

  /** Nothing can ever be posted: no connection, or a window of zero. */
  predicate NeverPosts(cfg: Config, s: State) { cfg.maxOutstanding == 0 || (|s.offsets| == 0 && s.queue == []) }

  lemma {:induction false} NoPostNoSize(cfg: Config, s: State, script: seq<TurnReplies>)
    requires s.Shape() && NeverPosts(cfg, s)
    ensures !HaltsWith(Reads(cfg, s, script), SizeNotPositive)
    decreases cfg.numIterations - |s.log|, |script|
  {
    if s.log != [] && s.Busy() {
      if script != [] {
        assert PostTurn(cfg, s, script[0].post) == Next(s);
        if LoopTurn(cfg, s, script[0]).Next? {
          NoPostNoSize(cfg, LoopTurn(cfg, s, script[0]).state, script[1..]);
        }
      }
    } else if |s.log| < cfg.numIterations {
      NoPostNoSize(cfg, StartIteration(s), script);
    }
  }

  /** The assert on the segment size holds in every run exactly when neither size option is zero, or nothing
   * is ever posted: for want of a window, a connection or an iteration.
   */
  lemma SizeAssertIff(cfg: Config, s: State)
    requires s.log == [] && Idle(cfg, s)
    ensures SizeNeverFails(cfg, s)
       <==> (cfg.regionSize > 0 && cfg.maxReadSize > 0)
            || cfg.maxOutstanding == 0 || |s.offsets| == 0 || cfg.numIterations == 0
  {
    if cfg.maxOutstanding == 0 || |s.offsets| == 0 || cfg.numIterations == 0 || cfg.Valid() {
      SizeHolds(cfg, s);
    } else {
      SizeFails(cfg, s);
    }
  }

  /** The assert on the segment size holds in every run. */
  ghost predicate SizeNeverFails(cfg: Config, s: State)
    requires s.Shape()
  {
    forall script: seq<TurnReplies> :: !HaltsWith(Reads(cfg, s, script), SizeNotPositive)
  }

  lemma SizeHolds(cfg: Config, s: State)
    requires s.log == [] && Idle(cfg, s)
    requires cfg.maxOutstanding == 0 || |s.offsets| == 0 || cfg.numIterations == 0 || cfg.Valid()
    ensures SizeNeverFails(cfg, s)
  {
    forall script: seq<TurnReplies> ensures !HaltsWith(Reads(cfg, s, script), SizeNotPositive) {
      if NeverPosts(cfg, s) {
        NoPostNoSize(cfg, s, script);
      } else if cfg.Valid() {
        ReadsCorrect(cfg, s, script);
      }
    }
  }

  /** The first post of all finds nothing to read. */
  lemma SizeFails(cfg: Config, s: State)
    requires s.log == [] && Idle(cfg, s) && !cfg.Valid()
    requires cfg.maxOutstanding > 0 && |s.offsets| > 0 && cfg.numIterations > 0
    ensures !SizeNeverFails(cfg, s)
  {
    var s1 := StartIteration(s);
    assert Reads(cfg, s, Burst(1)) == Reads(cfg, s1, Burst(1));
    BurstRuns(cfg, s1, 0);
    assert LoopTurn(cfg, s1, BurstTurn) == Stop(SizeNotPositive, s1);
    assert HaltsWith(Reads(cfg, s, Burst(1)), SizeNotPositive);
  }

  /** The last assert of do_rdma_reads, from a context whose offsets start at zero, holds at the end of a
   * run exactly when there was an iteration or there is no connection.
   */
  lemma FinalAssertIff(cfg: Config, s: State, script: seq<TurnReplies>)
    requires cfg.Valid() && s.log == [] && Idle(cfg, s)
    requires forall c :: 0 <= c < |s.offsets| ==> s.offsets[c] == 0
    requires Reads(cfg, s, script).Finished?
    ensures DoReads(cfg, s, script).Finished? <==> cfg.numIterations > 0 || |s.offsets| == 0
  {
    ReadsCorrect(cfg, s, script);
    var o := Reads(cfg, s, script);
    if cfg.numIterations == 0 {
      assert o == Finished(s);
      if |s.offsets| > 0 { assert s.offsets[0] != cfg.regionSize; }
    }
  }

  // ---------------------------------------------------------------------------------------------
  // Work conservation
  // ---------------------------------------------------------------------------------------------

  function BytesPosted(log: seq<seq<Segment>>): nat {
    if log == [] then 0 else BytesPosted(log[..|log| - 1]) + SumLengths(log[|log| - 1])
  }

  /** The figure reported at the end: a 32-bit product times a 64-bit size. */
  function BytesReported(conns: nat, iterations: nat, regionSize: nat): nat {
    (((conns * iterations) % 0x1_0000_0000) * regionSize) % 0x1_0000_0000_0000_0000
  }

  lemma {:induction false} BytesOfIterations(cfg: Config, conns: nat, log: seq<seq<Segment>>)
    requires cfg.Valid()
    requires forall i :: 0 <= i < |log| ==> IterationComplete(cfg, conns, log[i])
    ensures BytesPosted(log) == |log| * (conns * cfg.regionSize)
  {
    if log != [] {
      var front := log[..|log| - 1];
      BytesOfIterations(cfg, conns, front);
      LastIterationBytes(cfg, conns, log);
      OneMore(|front|, conns * cfg.regionSize);
    }
  }

  lemma LastIterationBytes(cfg: Config, conns: nat, log: seq<seq<Segment>>)
    requires cfg.Valid() && log != [] && IterationComplete(cfg, conns, log[|log| - 1])
    ensures SumLengths(log[|log| - 1]) == conns * cfg.regionSize
  {
    IterationBytes(cfg.PlanFor(conns));
  }

  lemma OneMore(k: int, x: int)
    ensures (k + 1) * x == k * x + x
  {
  }

  lemma ReportedIff(conns: nat, iterations: nat, regionSize: nat)
    requires regionSize > 0
    ensures BytesReported(conns, iterations, regionSize) == conns * iterations * regionSize
       <==> conns * iterations < 0x1_0000_0000 && conns * iterations * regionSize < 0x1_0000_0000_0000_0000
  {
    var p := conns * iterations;
    var m := p % 0x1_0000_0000;
    assert m <= p;
    assert m * regionSize <= p * regionSize;
    if BytesReported(conns, iterations, regionSize) == p * regionSize {
      assert p * regionSize < 0x1_0000_0000_0000_0000;
      assert m * regionSize == p * regionSize;
      assert (p - m) * regionSize == 0;
      assert p == m;
    }
  }

  /** The bytes posted by a finished run equal the reported figure exactly when neither product wraps. */
  lemma ReportedBytesArePosted(cfg: Config, s: State)
    requires AllRead(cfg, s)
    ensures BytesPosted(s.log) == |s.offsets| * cfg.numIterations * cfg.regionSize
    ensures BytesReported(|s.offsets|, cfg.numIterations, cfg.regionSize) == BytesPosted(s.log)
       <==> |s.offsets| * cfg.numIterations < 0x1_0000_0000
            && |s.offsets| * cfg.numIterations * cfg.regionSize < 0x1_0000_0000_0000_0000
  {
    BytesOfIterations(cfg, |s.offsets|, s.log);
    ReportedIff(|s.offsets|, cfg.numIterations, cfg.regionSize);
    Regroup(|s.offsets|, cfg.numIterations, cfg.regionSize);
  }

  lemma Regroup(a: int, b: int, c: int)
    ensures b * (a * c) == a * b * c
  {
  }
}
