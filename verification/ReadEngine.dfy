/** The flow-controlled read engine: the steps of `post_rdma_read`, `poll_cq` and the loop of
 * `do_rdma_reads`, as functions on a snapshot of the test context.
 *
 * The adapter is the environment: it accepts or refuses a post, and a poll reports nothing, the
 * completion of any request in flight, a packet, or an error. Every `assert`, out-of-range index and
 * counter underflow of the program is an explicit `Fault`, so that its absence is a theorem.
 */
module ReadEngine {

  import opened RoundRobin
  import opened WorkRequests

  datatype Transport = RC | DC

  /** The options that steer the data path. */
  datatype Config = Config(
    transport: Transport,
    regionSize: nat,
    numIterations: nat,
    maxOutstanding: nat,
    maxReadSize: nat,
    txQueueLen: nat)
  {
    predicate Valid() { regionSize > 0 && maxReadSize > 0 && maxOutstanding > 0 }

    function PlanFor(conns: nat): Plan { Plan(conns, regionSize, maxReadSize) }
  }

  /** A snapshot of the test context, of the requests held by the adapter and of the posts made so far.
   * `log` holds one sequence of posted segments for every iteration begun.
   */
  datatype State = State(
    offsets: seq<nat>,
    queue: seq<nat>,
    outstanding: nat,
    dciOut: seq<nat>,
    freeDci: seq<bool>,
    finRecvd: nat,
    inflight: seq<Wr>,
    log: seq<seq<Segment>>)
  {
    predicate Shape() {
      && |dciOut| == NUM_DCI
      && |freeDci| == BITMAP_WIDTH
      && (forall i :: 0 <= i < |queue| ==> queue[i] < |offsets|)
      && (log == [] ==> queue == [])
    }

    predicate Busy() { outstanding > 0 || queue != [] }

    predicate MayPost(cfg: Config) { queue != [] && outstanding < cfg.maxOutstanding }
  }

  datatype Fault =
    | ErrorReturn
    | SizeNotPositive
    | DciOutOfRange(index: nat)
    | DciNotIdle(index: nat)
    | CounterUnderflow
    | TxQueueFull(index: nat)
    | NotAllRead

  datatype Step = Next(state: State) | Stop(fault: Fault, state: State)

  /** The adapter's answer to a post: zero, a positive error code, or a negative one. */
  datatype PostReply = Accepted | Refused | Rejected

  /** What one poll reports. `Completed(k)` is the completion of the k-th request in flight; with fewer
   * requests in flight there is nothing to report.
   */
  datatype PollReply = Empty | Completed(k: nat) | Packet(fin: bool) | BadStatus

  // ---------------------------------------------------------------------------------------------
  // Posting
  // ---------------------------------------------------------------------------------------------

  datatype PostResult = Posted(state: State) | NotPosted | PostError | PostFault(fault: Fault)

  function AppendToLast(log: seq<seq<Segment>>, s: Segment): seq<seq<Segment>>
    requires log != []
  {
    log[|log| - 1 := log[|log| - 1] + [s]]
  }

  function Book(s: State, c: nat, size: nat, wrId: nat): State
    requires c < |s.offsets| && s.log != []
  {
    var segment := Segment(c, s.offsets[c], size);
    s.(offsets := s.offsets[c := s.offsets[c] + size],
       outstanding := s.outstanding + 1,
       inflight := s.inflight + [Read(segment, wrId)],
       log := AppendToLast(s.log, segment))
  }

  /** The initiator d takes one more request and leaves the bitmap. */
  function Claim(s: State, d: nat): State
    requires s.Shape() && d < NUM_DCI
  {
    s.(dciOut := s.dciOut[d := s.dciOut[d] + 1], freeDci := s.freeDci[d := false])
  }

  /** post_rdma_read */
  function PostRead(cfg: Config, s: State, c: nat, size: nat, reply: PostReply): PostResult
    requires s.Shape() && c < |s.offsets| && s.log != []
  {
    match cfg.transport
    case RC =>
      (match reply
       case Accepted => Posted(Book(s, c, size, 0))
       case Refused => NotPosted
       case Rejected => PostError)
    case DC =>
      if NoneSet(s.freeDci) then NotPosted else
      var d := FindFirstSet(s.freeDci, 0);
      if d >= NUM_DCI then PostFault(DciOutOfRange(d))
      else if s.dciOut[d] != 0 then PostFault(DciNotIdle(d))
      else
        match reply
        case Accepted =>
          Posted(Book(Claim(s, d), c, size, d))
        case Refused => NotPosted
        case Rejected => PostError
  }

  /** A connection that is not done goes to the tail of the queue. */
  function Requeue(cfg: Config, s: State, c: nat): State
    requires c < |s.offsets|
  {
    if s.offsets[c] < cfg.regionSize then s.(queue := s.queue + [c]) else s
  }

  /** The guarded post of one turn of the loop, with the reinsertion into the schedule queue. */
  function PostTurn(cfg: Config, s: State, reply: PostReply): (r: Step)
    requires s.Shape()
    ensures r.state.Shape() && |r.state.log| == |s.log| && |r.state.offsets| == |s.offsets|
  {
    if !s.MayPost(cfg) then Next(s) else
    var c := s.queue[0];
    var size := Min(cfg.maxReadSize, cfg.regionSize - s.offsets[c]);
    if size <= 0 then Stop(SizeNotPositive, s) else
    match PostRead(cfg, s.(queue := s.queue[1..]), c, size, reply)
    case Posted(s') => Next(Requeue(cfg, s', c))
    case NotPosted => Next(s.(queue := [c] + s.queue[1..]))
    case PostError => Stop(ErrorReturn, s.(queue := s.queue[1..]))
    case PostFault(f) => Stop(f, s)
  }

  // ---------------------------------------------------------------------------------------------
  // Polling
  // ---------------------------------------------------------------------------------------------

  /** dc_send_completion */
  function ReleaseDci(s: State, d: nat): (r: Step)
    requires s.Shape()
    ensures r.state.Shape() && |r.state.log| == |s.log| && |r.state.offsets| == |s.offsets|
  {
    if d >= NUM_DCI then Stop(DciOutOfRange(d), s)
    else if s.dciOut[d] == 0 then Stop(CounterUnderflow, s)
    else
      Next(s.(dciOut := s.dciOut[d := s.dciOut[d] - 1],
              freeDci := if s.dciOut[d] == 1 then s.freeDci[d := true] else s.freeDci))
  }

  /** poll_cq */
  function Poll(cfg: Config, s: State, reply: PollReply): (r: Step)
    requires s.Shape()
    ensures r.state.Shape() && |r.state.log| == |s.log| && |r.state.offsets| == |s.offsets|
  {
    match reply
    case Empty => Next(s)
    case BadStatus => Stop(ErrorReturn, s)
    case Packet(fin) => Next(if fin then s.(finRecvd := s.finRecvd + 1) else s)
    case Completed(k) =>
      if k >= |s.inflight| then Next(s) else
      var w := s.inflight[k];
      var s1 := s.(inflight := Without(s.inflight, k));
      if w.Read? && s.outstanding == 0 then Stop(CounterUnderflow, s) else
      var s2 := if w.Read? then s1.(outstanding := s1.outstanding - 1) else s1;
      if cfg.transport.DC? then ReleaseDci(s2, w.wrId) else Next(s2)
  }

  // ---------------------------------------------------------------------------------------------
  // The loops of do_rdma_reads
  // ---------------------------------------------------------------------------------------------

  datatype TurnReplies = TurnReplies(post: PostReply, poll: PollReply)

  /** One turn of the inner loop: post if allowed, then poll. */
  function LoopTurn(cfg: Config, s: State, e: TurnReplies): (r: Step)
    requires s.Shape()
    ensures r.state.Shape() && |r.state.log| == |s.log| && |r.state.offsets| == |s.offsets|
  {
    match PostTurn(cfg, s, e.post)
    case Next(s') => Poll(cfg, s', e.poll)
    case Stop(f, s') => Stop(f, s')
  }

  function Iota(n: nat): seq<nat> { seq<nat>(n, i requires i >= 0 => i) }

  function Zeros(n: nat): seq<nat> { seq(n, i => 0) }

  /** All connections go to the queue with nothing read. */
  function StartIteration(s: State): (r: State)
    requires s.Shape()
    ensures r.Shape() && |r.log| == |s.log| + 1 && |r.offsets| == |s.offsets|
  {
    s.(offsets := Zeros(|s.offsets|), queue := s.queue + Iota(|s.offsets|), log := s.log + [[]])
  }

  /** `Pending`: the replies are used up and the loop is still running. */
  datatype Outcome = Finished(state: State) | Pending(state: State) | Halted(fault: Fault, state: State)

  /** do_rdma_reads against a given sequence of adapter replies. */
  function Reads(cfg: Config, s: State, script: seq<TurnReplies>): Outcome
    requires s.Shape()
    decreases cfg.numIterations - |s.log|, |script|
  {
    if s.log != [] && s.Busy() then
      if script == [] then Pending(s) else
      match LoopTurn(cfg, s, script[0])
      case Next(s') => Reads(cfg, s', script[1..])
      case Stop(f, s') => Halted(f, s')
    else if |s.log| < cfg.numIterations then Reads(cfg, StartIteration(s), script)
    else Finished(s)
  }

  predicate HaltsWith(o: Outcome, f: Fault) { o.Halted? && o.fault == f }

  predicate StopsWith(r: Step, f: Fault) { r.Stop? && r.fault == f }

  predicate OffsetsFull(cfg: Config, s: State) {
    forall c :: 0 <= c < |s.offsets| ==> s.offsets[c] == cfg.regionSize
  }

  /** do_rdma_reads with its last check, the asserted offsets of all connections. */
  function DoReads(cfg: Config, s: State, script: seq<TurnReplies>): Outcome
    requires s.Shape()
  {
    match Reads(cfg, s, script)
    case Finished(s') => if OffsetsFull(cfg, s') then Finished(s') else Halted(NotAllRead, s')
    case other => other
  }

  // ---------------------------------------------------------------------------------------------
  // Invariants
  // ---------------------------------------------------------------------------------------------

  /** The counters and the bitmap agree with what the adapter holds, in the read and the control phase. */
  ghost predicate Accounts(cfg: Config, s: State) {
    && s.Shape()
    && s.outstanding == Count(IsRead, s.inflight)
    && (cfg.transport.DC? ==> DciAccounts(s.dciOut, s.freeDci, s.inflight))
  }

  ghost predicate DciAccounts(dciOut: seq<nat>, freeDci: seq<bool>, inflight: seq<Wr>) {
    && |dciOut| == NUM_DCI && |freeDci| == BITMAP_WIDTH
    && Sum(dciOut) == |inflight|
    && (forall d :: 0 <= d < NUM_DCI ==> dciOut[d] == Count(OnDci(d), inflight))
    && (forall i :: 0 <= i < |inflight| ==> inflight[i].wrId < NUM_DCI)
    && (forall d :: 0 <= d < NUM_DCI && !freeDci[d] ==> dciOut[d] > 0)
    && (forall d :: NUM_DCI <= d < BITMAP_WIDTH ==> freeDci[d])
  }

  /** The window keeps the number of busy initiators at or below NUM_DCI, or there is too little to read to
   * fill them.
   */
  predicate WindowFits(cfg: Config, conns: nat)
    requires cfg.Valid()
  {
    cfg.transport.DC? ==> cfg.maxOutstanding <= NUM_DCI || Total(cfg.PlanFor(conns)) <= NUM_DCI
  }

  function Current(s: State): seq<Segment>
    requires s.log != []
  {
    s.log[|s.log| - 1]
  }

  ghost predicate ReadPhase(cfg: Config, s: State) {
    && cfg.Valid()
    && Accounts(cfg, s)
    && 0 < |s.log| <= cfg.numIterations
    && OnSchedule(cfg.PlanFor(|s.offsets|), s.offsets, s.queue, Current(s))
    && (forall i :: 0 <= i < |s.log| - 1 ==> IterationComplete(cfg, |s.offsets|, s.log[i]))
    && s.outstanding <= cfg.maxOutstanding
    && s.outstanding <= |Current(s)|
    && (forall w :: w in s.inflight ==> w.Read? && w.segment in Current(s))
    && (cfg.transport.DC? ==>
          forall d :: 0 <= d < NUM_DCI ==> s.dciOut[d] <= 1 && (!s.freeDci[d] <==> s.dciOut[d] == 1))
  }

  ghost predicate IterationComplete(cfg: Config, conns: nat, log: seq<Segment>)
    requires cfg.Valid()
  {
    log == NestedLoops(cfg.PlanFor(conns), Rounds(cfg.PlanFor(conns)))
  }

  /** The state in which do_rdma_reads is entered: nothing posted, all initiators free. */
  ghost predicate Idle(cfg: Config, s: State) {
    && s.Shape() && s.inflight == [] && s.outstanding == 0 && s.queue == []
    && (cfg.transport.DC? ==>
          && (forall d :: 0 <= d < NUM_DCI ==> s.dciOut[d] == 0)
          && (forall d :: 0 <= d < BITMAP_WIDTH ==> s.freeDci[d]))
  }

  /** Every iteration has read every region exactly once and nothing is left in the adapter. */
  ghost predicate AllRead(cfg: Config, s: State) {
    && cfg.Valid()
    && Idle(cfg, s)
    && |s.log| == cfg.numIterations
    && (forall i :: 0 <= i < |s.log| ==> IterationComplete(cfg, |s.offsets|, s.log[i]))
    && (cfg.numIterations > 0 ==> OffsetsFull(cfg, s))
  }

  // ---------------------------------------------------------------------------------------------
  // Posting keeps the invariant
  // ---------------------------------------------------------------------------------------------

  /** The find-first-set picks an existing initiator. */
  predicate InRange(cfg: Config, s: State)
    requires s.Shape()
  {
    cfg.transport.DC? ==> !NoneSet(s.freeDci) && FindFirstSet(s.freeDci, 0) < NUM_DCI
  }

  /** There is always a set bit. An initiator that exists and is picked is idle, the asserted condition of
   * post_rdma_read; and when the window fits, the one picked exists.
   */
  lemma DciChoice(cfg: Config, s: State)
    requires ReadPhase(cfg, s) && cfg.transport.DC? && s.MayPost(cfg)
    ensures !NoneSet(s.freeDci)
    ensures FindFirstSet(s.freeDci, 0) < NUM_DCI ==> s.dciOut[FindFirstSet(s.freeDci, 0)] == 0
    ensures WindowFits(cfg, |s.offsets|) ==> FindFirstSet(s.freeDci, 0) < NUM_DCI
  {
    assert s.freeDci[NUM_DCI];
    if WindowFits(cfg, |s.offsets|) {
      PostKeepsSchedule(cfg.PlanFor(|s.offsets|), s.offsets, s.queue, Current(s));
      CountAll(IsRead, s.inflight);
      assert Sum(s.dciOut) < NUM_DCI;
      var d := SomeIdle(s.dciOut);
      assert s.freeDci[d];
    }
  }

  lemma ClaimKeepsAccounts(dciOut: seq<nat>, freeDci: seq<bool>, ws: seq<Wr>, w: Wr)
    requires DciAccounts(dciOut, freeDci, ws) && w.wrId < NUM_DCI
    ensures DciAccounts(dciOut[w.wrId := dciOut[w.wrId] + 1], freeDci[w.wrId := false], ws + [w])
    ensures DciAccounts(dciOut[w.wrId := dciOut[w.wrId] + 1], freeDci, ws + [w])
  {
    SumUpdate(dciOut, w.wrId, dciOut[w.wrId] + 1);
    forall d | 0 <= d < NUM_DCI
      ensures dciOut[w.wrId := dciOut[w.wrId] + 1][d] == Count(OnDci(d), ws + [w])
    {
      CountAppend(OnDci(d), ws, w);
    }
  }

  lemma ReleaseKeepsAccounts(dciOut: seq<nat>, freeDci: seq<bool>, ws: seq<Wr>, k: nat)
    requires DciAccounts(dciOut, freeDci, ws) && k < |ws|
    ensures var d := ws[k].wrId;
            && d < NUM_DCI && dciOut[d] > 0
            && DciAccounts(dciOut[d := dciOut[d] - 1],
                           if dciOut[d] == 1 then freeDci[d := true] else freeDci,
                           Without(ws, k))
  {
    var d := ws[k].wrId;
    CountSome(OnDci(d), ws, k);
    SumUpdate(dciOut, d, dciOut[d] - 1);
    forall e | 0 <= e < NUM_DCI
      ensures dciOut[d := dciOut[d] - 1][e] == Count(OnDci(e), Without(ws, k))
    {
      CountWithout(OnDci(e), ws, k);
    }
  }

  /** Every post turn of the read phase keeps the invariant. It stops exactly when it may post and either no
   * initiator in range is free or the adapter returns a negative code; the former needs a window that does
   * not fit.
   */
  lemma PostTurnKeeps(cfg: Config, s: State, reply: PostReply)
    requires ReadPhase(cfg, s)
    ensures var r := PostTurn(cfg, s, reply);
            && (r.Stop? <==> s.MayPost(cfg) && (!InRange(cfg, s) || reply.Rejected?))
            && (r.Stop? && InRange(cfg, s) ==> r.fault.ErrorReturn? && r.state == s.(queue := s.queue[1..]))
            && (r.Stop? && !InRange(cfg, s) ==> r.fault.DciOutOfRange? && r.state == s)
            && (r.Next? ==> ReadPhase(cfg, r.state))
            && (r.Next? && !(s.MayPost(cfg) && reply.Accepted?) ==> r.state == s)
    ensures s.MayPost(cfg) && !InRange(cfg, s) ==> !WindowFits(cfg, |s.offsets|)
  {
    if s.MayPost(cfg) {
      PostKeepsSchedule(cfg.PlanFor(|s.offsets|), s.offsets, s.queue, Current(s));
      assert s.queue == [s.queue[0]] + s.queue[1..];
      if cfg.transport.DC? { DciChoice(cfg, s); }
      if reply.Accepted? && InRange(cfg, s) { AcceptedPostKeeps(cfg, s); }
    }
  }

  /** The state after initiator d has taken the next read of the queue. */
  function Accept(cfg: Config, s: State, d: nat): State
    requires s.Shape() && s.queue != [] && d < NUM_DCI && s.offsets[s.queue[0]] <= cfg.regionSize
  {
    var c := s.queue[0];
    var popped := s.(queue := s.queue[1..]);
    var size := Min(cfg.maxReadSize, cfg.regionSize - s.offsets[c]);
    Requeue(cfg, Book(if cfg.transport.DC? then Claim(popped, d) else popped, c, size, d), c)
  }

  lemma AcceptKeepsShape(cfg: Config, s: State, d: nat)
    requires s.Shape() && s.log != [] && s.queue != [] && d < NUM_DCI && s.offsets[s.queue[0]] <= cfg.regionSize
    ensures Accept(cfg, s, d).Shape()
  {
  }

  /** What an accepted post changes in the accounts. */
  lemma AcceptIs(cfg: Config, s: State, d: nat, w: Wr)
    requires s.Shape() && s.log != [] && s.queue != [] && d < NUM_DCI && s.offsets[s.queue[0]] <= cfg.regionSize
    requires var c := s.queue[0];
             w == Read(Segment(c, s.offsets[c], Min(cfg.maxReadSize, cfg.regionSize - s.offsets[c])), d)
    ensures var r := Accept(cfg, s, d);
            && r.inflight == s.inflight + [w] && r.outstanding == s.outstanding + 1
            && (cfg.transport.DC? ==>
                  r.dciOut == s.dciOut[d := s.dciOut[d] + 1] && r.freeDci == s.freeDci[d := false])
  {
  }

  lemma AcceptKeepsAccounts(cfg: Config, s: State, d: nat)
    requires Accounts(cfg, s) && s.queue != [] && d < NUM_DCI && s.offsets[s.queue[0]] <= cfg.regionSize
    ensures Accounts(cfg, Accept(cfg, s, d))
  {
    var c := s.queue[0];
    var w := Read(Segment(c, s.offsets[c], Min(cfg.maxReadSize, cfg.regionSize - s.offsets[c])), d);
    AcceptKeepsShape(cfg, s, d);
    AcceptIs(cfg, s, d, w);
    CountAppend(IsRead, s.inflight, w);
    if cfg.transport.DC? {
      ClaimKeepsAccounts(s.dciOut, s.freeDci, s.inflight, w);
    }
  }

  lemma AcceptKeepsSchedule(cfg: Config, s: State, d: nat)
    requires ReadPhase(cfg, s) && s.MayPost(cfg) && d < NUM_DCI
    ensures s.offsets[s.queue[0]] < cfg.regionSize
    ensures |Current(s)| < Total(cfg.PlanFor(|s.offsets|))
    ensures var r := Accept(cfg, s, d);
            var segment := SegmentAt(cfg.PlanFor(|s.offsets|), |Current(s)|);
            && OnSchedule(cfg.PlanFor(|s.offsets|), r.offsets, r.queue, Current(r))
            && Current(r) == Current(s) + [segment]
            && r.log == AppendToLast(s.log, segment)
            && r.inflight == s.inflight + [Read(segment, d)]
            && r.outstanding == s.outstanding + 1
            && r.finRecvd == s.finRecvd
            && (cfg.transport.DC? ==>
                  r.dciOut == s.dciOut[d := s.dciOut[d] + 1] && r.freeDci == s.freeDci[d := false])
  {
    PostKeepsSchedule(cfg.PlanFor(|s.offsets|), s.offsets, s.queue, Current(s));
  }

  lemma AcceptKeeps(cfg: Config, s: State, d: nat)
    requires ReadPhase(cfg, s) && s.MayPost(cfg) && d < NUM_DCI
    requires cfg.transport.DC? ==> s.dciOut[d] == 0
    ensures s.offsets[s.queue[0]] < cfg.regionSize
    ensures ReadPhase(cfg, Accept(cfg, s, d))
  {
    AcceptKeepsSchedule(cfg, s, d);
    AcceptKeepsAccounts(cfg, s, d);
    var r := Accept(cfg, s, d);
    assert forall w :: w in r.inflight ==> w.Read? && w.segment in Current(r);
  }

  /** An accepted post is exactly the next step of the nested loops, and keeps the invariant. */
  lemma AcceptedPostKeeps(cfg: Config, s: State)
    requires ReadPhase(cfg, s) && s.MayPost(cfg) && InRange(cfg, s)
    ensures PostTurn(cfg, s, Accepted).Next?
    ensures var r := PostTurn(cfg, s, Accepted).state;
            && ReadPhase(cfg, r)
            && r.outstanding == s.outstanding + 1
            && r.finRecvd == s.finRecvd
            && |Current(s)| < Total(cfg.PlanFor(|s.offsets|))
            && r.log == AppendToLast(s.log, SegmentAt(cfg.PlanFor(|s.offsets|), |Current(s)|))
  {
    var d := 0;
    if cfg.transport.DC? {
      DciChoice(cfg, s);
      d := FindFirstSet(s.freeDci, 0);
    }
    AcceptKeepsSchedule(cfg, s, d);
    AcceptKeeps(cfg, s, d);
    assert PostTurn(cfg, s, Accepted) == Next(Accept(cfg, s, d));
  }

  // ---------------------------------------------------------------------------------------------
  // Polling keeps the invariant
  // ---------------------------------------------------------------------------------------------

  lemma CompletionKeepsAccounts(cfg: Config, s: State, k: nat)
    requires Accounts(cfg, s) && k < |s.inflight|
    ensures var r := Poll(cfg, s, Completed(k));
            && r.Next? && Accounts(cfg, r.state)
            && r.state.offsets == s.offsets && r.state.queue == s.queue && r.state.log == s.log
            && r.state.inflight == Without(s.inflight, k)
            && s.outstanding == r.state.outstanding + (if s.inflight[k].Read? then 1 else 0)
            && r.state.finRecvd == s.finRecvd
  {
    CountWithout(IsRead, s.inflight, k);
    if cfg.transport.DC? { ReleaseKeepsAccounts(s.dciOut, s.freeDci, s.inflight, k); }
  }

  /** Both phases: a poll keeps the accounts and stops only on an error status. */
  lemma PollKeepsAccounts(cfg: Config, s: State, reply: PollReply)
    requires Accounts(cfg, s)
    ensures var r := Poll(cfg, s, reply);
            && (r.Stop? <==> reply.BadStatus?)
            && (r.Stop? ==> r.fault.ErrorReturn? && r.state == s)
            && Accounts(cfg, r.state)
            && r.state.offsets == s.offsets && r.state.queue == s.queue && r.state.log == s.log
            && (reply.Completed? && reply.k < |s.inflight| ==>
                  && r.state.inflight == Without(s.inflight, reply.k)
                  && s.outstanding == r.state.outstanding + (if s.inflight[reply.k].Read? then 1 else 0)
                  && r.state.finRecvd == s.finRecvd)
            && (!(reply.Completed? && reply.k < |s.inflight|) ==>
                  r.state == s.(finRecvd := s.finRecvd + if reply == Packet(true) then 1 else 0))
  {
    if reply.Completed? && reply.k < |s.inflight| { CompletionKeepsAccounts(cfg, s, reply.k); }
  }

  lemma PollKeeps(cfg: Config, s: State, reply: PollReply)
    requires ReadPhase(cfg, s)
    ensures ReadPhase(cfg, Poll(cfg, s, reply).state)
  {
    PollKeepsAccounts(cfg, s, reply);
    if reply.Completed? && reply.k < |s.inflight| {
      var r := Poll(cfg, s, reply).state;
      var d := s.inflight[reply.k].wrId;
      assert forall w :: w in r.inflight ==> w in s.inflight;
      if cfg.transport.DC? {
        assert s.inflight[reply.k] in s.inflight;
        forall e | 0 <= e < NUM_DCI ensures r.dciOut[e] <= 1 && (!r.freeDci[e] <==> r.dciOut[e] == 1) {
          if e == d { assert r.dciOut[e] == s.dciOut[e] - 1; } else { assert r.dciOut[e] == s.dciOut[e]; }
        }
      }
    }
  }

  // ---------------------------------------------------------------------------------------------
  // Iterations
  // ---------------------------------------------------------------------------------------------

  lemma StartKeeps(cfg: Config, s: State)
    requires cfg.Valid() && Idle(cfg, s) && |s.log| < cfg.numIterations
    requires forall i :: 0 <= i < |s.log| ==> IterationComplete(cfg, |s.offsets|, s.log[i])
    ensures ReadPhase(cfg, StartIteration(s))
  {
    var r := StartIteration(s);
    assert r.queue == Iota(|s.offsets|);
    StartOnSchedule(cfg.PlanFor(|s.offsets|), r.offsets, r.queue);
    if cfg.transport.DC? { SumZero(s.dciOut); }
  }

  /** When the inner loop is left, the iteration is complete and nothing is in flight. */
  lemma IterationEnd(cfg: Config, s: State)
    requires ReadPhase(cfg, s) && !s.Busy()
    ensures Idle(cfg, s)
    ensures forall i :: 0 <= i < |s.log| ==> IterationComplete(cfg, |s.offsets|, s.log[i])
    ensures OffsetsFull(cfg, s)
  {
    var p := cfg.PlanFor(|s.offsets|);
    ScheduleRefinesLoops(p, s.offsets, s.queue, Current(s));
    QueueHoldsUnfinished(p, s.offsets, s.queue, Current(s));
    CountAll(IsRead, s.inflight);
    if cfg.transport.DC? {
      forall d | 0 <= d < NUM_DCI ensures s.dciOut[d] == 0 && s.freeDci[d] {
        TermAtMostSum(s.dciOut, d);
      }
    }
    forall c | 0 <= c < |s.offsets| ensures s.offsets[c] == cfg.regionSize {
      assert c !in s.queue;
    }
  }
}
