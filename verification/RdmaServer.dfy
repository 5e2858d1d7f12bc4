/** The read engine in the form of the program: a mutable context whose counters, bitmap and offsets are
 * updated in place. Each method is tied to the function of ReadEngine that specifies it.
 */
module RdmaServer {

  import opened RoundRobin
  import opened WorkRequests
  import opened ReadEngine
  import opened ReadTheorems
  import opened ControlPhase

  /** How a call of do_rdma_reads stands when its adapter replies are used up. */
  datatype Status = Returned(ret: int) | StillRunning | AssertFailed

  predicate Matches(status: Status, o: Outcome) {
    match status
    case Returned(ret) => if ret == 0 then o.Finished? else ret < 0 && HaltsWith(o, ErrorReturn)
    case StillRunning => o.Pending?
    case AssertFailed => HaltsWith(o, NotAllRead)
  }

  /** Nothing but an error return stops the run. */
  predicate Clean(o: Outcome) { o.Halted? ==> o.fault.ErrorReturn? }

  /** So it is when the window fits. */
  lemma FittingIsClean(cfg: Config, s: State, script: seq<TurnReplies>)
    requires cfg.Valid() && WindowFits(cfg, |s.offsets|) && s.log == [] && Idle(cfg, s)
    ensures Clean(Reads(cfg, s, script))
  {
    ReadsCorrect(cfg, s, script);
  }

  class TestContext {
    const cfg: Config
    /** The read offsets of the connections. */
    const readOffset: array<nat>
    const dciOutstanding: array<nat>
    var freeDciBitmap: seq<bool>
    var numOutstandingReads: nat
    var numFinRecvd: nat
    /** The schedule list, threaded through the connections. */
    var sched: seq<nat>
    /** The requests the adapter holds. */
    var inflight: seq<Wr>
    ghost var log: seq<seq<Segment>>

    ghost function View(): State
      reads this, readOffset, dciOutstanding
    {
      State(readOffset[..], sched, numOutstandingReads, dciOutstanding[..], freeDciBitmap, numFinRecvd, inflight, log)
    }

    ghost predicate Valid()
      reads this, readOffset, dciOutstanding
    {
      readOffset != dciOutstanding && View().Shape()
    }

    /** The zeroed context, with the bitmap that init_dc_qps leaves. */
    constructor (cfg: Config, numConns: nat)
      ensures Valid() && this.cfg == cfg && readOffset.Length == numConns
      ensures fresh(readOffset) && fresh(dciOutstanding)
      ensures Idle(cfg, View()) && log == [] && numFinRecvd == 0
      ensures forall c :: 0 <= c < numConns ==> readOffset[c] == 0
    {
      this.cfg := cfg;
      readOffset := new nat[numConns](_ => 0);
      dciOutstanding := new nat[NUM_DCI](_ => 0);
      freeDciBitmap := seq(BITMAP_WIDTH, _ => true);
      numOutstandingReads, numFinRecvd := 0, 0;
      sched, inflight, log := [], [], [];
    }

    /** post_rdma_read: the caller's state must not lead to an initiator that is missing or busy. */
    method PostRdmaRead(conn: nat, offset: nat, length: nat, reply: PostReply) returns (ret: int, posted: bool)
      requires Valid() && log != [] && conn < readOffset.Length && offset == readOffset[conn]
      requires !PostRead(cfg, View(), conn, length, reply).PostFault?
      modifies this, readOffset, dciOutstanding
      ensures Valid()
      ensures match PostRead(cfg, old(View()), conn, length, reply)
              case Posted(s) => ret == 0 && posted && View() == s
              case NotPosted => ret >= 0 && !posted && View() == old(View())
              case PostError => ret < 0 && !posted && View() == old(View())
              case PostFault(f) => false
    {
      posted := false;
      var wrId: nat := 0;
      match cfg.transport {
        case RC =>
          ret := PostCode(reply);
          if ret != 0 { return; }
        case DC =>
          if NoneSet(freeDciBitmap) {
            return 0, false;
          }
          var dci := FindFirstSet(freeDciBitmap, 0);
          assert dciOutstanding[dci] == 0;
          ret := PostCode(reply);
          if ret != 0 { return; }
          dciOutstanding[dci] := dciOutstanding[dci] + 1;
          freeDciBitmap := freeDciBitmap[dci := false];
          wrId := dci;
      }
      posted := true;
      inflight := inflight + [Read(Segment(conn, offset, length), wrId)];
      numOutstandingReads := numOutstandingReads + 1;
      readOffset[conn] := readOffset[conn] + length;
      log := AppendToLast(log, Segment(conn, offset, length));
    }

    static function PostCode(reply: PostReply): (ret: int)
      ensures ret == 0 <==> reply.Accepted?
      ensures ret < 0 <==> reply.Rejected?
    {
      match reply case Accepted => 0 case Refused => 12 case Rejected => -1
    }

    /** dc_send_completion */
    method DcSendCompletion(dci: nat)
      requires Valid() && ReleaseDci(View(), dci).Next?
      modifies this`freeDciBitmap, dciOutstanding
      ensures Valid() && View() == ReleaseDci(old(View()), dci).state
    {
      dciOutstanding[dci] := dciOutstanding[dci] - 1;
      if dciOutstanding[dci] == 0 {
        freeDciBitmap := freeDciBitmap[dci := true];
      }
    }

    /** poll_cq */
    method PollCq(reply: PollReply) returns (ret: int)
      requires Valid()
      requires Poll(cfg, View(), reply).Stop? ==> reply.BadStatus?
      modifies this, dciOutstanding
      ensures Valid() && View() == Poll(cfg, old(View()), reply).state
      ensures ret == 0 <==> Poll(cfg, old(View()), reply).Next?
      ensures ret <= 0
    {
      ret := 0;
      match reply {
        case Empty =>
        case BadStatus => ret := -1;
        case Packet(fin) =>
          if fin { numFinRecvd := numFinRecvd + 1; }
        case Completed(k) =>
          if k < |inflight| {
            var wc := inflight[k];
            inflight := Without(inflight, k);
            if wc.Read? {
              numOutstandingReads := numOutstandingReads - 1;
            }
            if cfg.transport.DC? {
              DcSendCompletion(wc.wrId);
            }
          }
      }
    }

    /** The guarded post of one turn of the loop. */
    method PostNext(reply: PostReply) returns (ret: int)
      requires Valid()
      requires PostTurn(cfg, View(), reply).Stop? ==> PostTurn(cfg, View(), reply).fault.ErrorReturn?
      modifies this, readOffset, dciOutstanding
      ensures Valid() && View() == PostTurn(cfg, old(View()), reply).state
      ensures ret < 0 <==> PostTurn(cfg, old(View()), reply).Stop?
    {
      ret := 0;
      if sched != [] && numOutstandingReads < cfg.maxOutstanding {
        var conn := sched[0];
        sched := sched[1..];
        var size := Min(cfg.maxReadSize, cfg.regionSize - readOffset[conn]);
        assert size > 0;
        var posted;
        ret, posted := PostRdmaRead(conn, readOffset[conn], size, reply);
        if ret < 0 { return; }
        if posted {
          if readOffset[conn] < cfg.regionSize {
            sched := sched + [conn];
          }
        } else {
          sched := [conn] + sched;
        }
      }
    }

    /** One turn of the inner loop. */
    method Turn(replies: TurnReplies) returns (ret: int)
      requires Valid()
      requires LoopTurn(cfg, View(), replies).Stop? ==> LoopTurn(cfg, View(), replies).fault.ErrorReturn?
      modifies this, readOffset, dciOutstanding
      ensures Valid() && View() == LoopTurn(cfg, old(View()), replies).state
      ensures ret < 0 <==> LoopTurn(cfg, old(View()), replies).Stop?
    {
      ret := PostNext(replies.post);
      if ret >= 0 {
        ret := PollCq(replies.poll);
      }
    }

    /** One turn of the inner loop, as part of the run that a sequence of replies describes. */
    method ScriptedTurn(script: seq<TurnReplies>, used: nat, ghost runs: Runs) returns (ret: int)
      requires Valid() && log != [] && View().Busy() && used < |script|
      requires Describes(cfg, runs) && Clean(runs(View(), script[used..]))
      modifies this, readOffset, dciOutstanding
      ensures Valid() && |log| == old(|log|)
      ensures var run := runs(old(View()), script[used..]);
              if ret < 0 then run == Halted(ErrorReturn, View())
              else runs(View(), script[used + 1..]) == run
    {
      ghost var end := DrainTurn(cfg, View(), script, used, runs);
      ret := Turn(script[used]);
      assert View() == end;
    }

    /** The refill at the head of an iteration. */
    method Refill()
      requires Valid()
      modifies this`sched, this`log, readOffset
      ensures Valid() && View() == StartIteration(old(View()))
    {
      ghost var before := View();
      var i := 0;
      while i < readOffset.Length
        invariant i <= readOffset.Length
        invariant sched == before.queue + Iota(i)
        invariant forall c :: 0 <= c < i ==> readOffset[c] == 0
        invariant View() == before.(offsets := View().offsets, queue := View().queue)
      {
        readOffset[i] := 0;
        sched := sched + [i];
        i := i + 1;
        assert Iota(i) == Iota(i - 1) + [i - 1];
      }
      log := log + [[]];
      assert readOffset[..] == Zeros(readOffset.Length);
    }

    /** The inner loop: turns until nothing is outstanding and the queue is empty. */
    method Drain(script: seq<TurnReplies>, start: nat, ghost runs: Runs) returns (used: nat, status: Status)
      requires Valid() && log != [] && start <= |script|
      requires Describes(cfg, runs) && Clean(runs(View(), script[start..]))
      modifies this, readOffset, dciOutstanding
      ensures Valid() && start <= used <= |script|
      ensures status == Returned(0) ==>
                && !View().Busy() && |log| == old(|log|)
                && runs(old(View()), script[start..]) == runs(View(), script[used..])
      ensures status != Returned(0) ==>
                && runs(old(View()), script[start..]).state == View()
                && Matches(status, runs(old(View()), script[start..]))
    {
      used := start;
      var ret := 0;
      ghost var run := runs(View(), script[start..]);
      while ret >= 0 && used < |script| && (numOutstandingReads > 0 || sched != [])
        invariant Valid() && start <= used <= |script| && |log| == old(|log|)
        invariant if ret >= 0 then runs(View(), script[used..]) == run else run == Halted(ErrorReturn, View())
        decreases |script| - used
      {
        ret := ScriptedTurn(script, used, runs);
        used := used + 1;
      }
      if ret < 0 {
        status := Returned(ret);
      } else if numOutstandingReads > 0 || sched != [] {
        assert script[used..] == [];
        RunPending(cfg, View(), runs);
        status := StillRunning;
      } else {
        status := Returned(0);
      }
    }

    /** do_rdma_reads: for every sequence of adapter replies, the run that DoReads describes. */
    method DoRdmaReads(script: seq<TurnReplies>) returns (status: Status)
      requires Valid() && log == [] && sched == []
      requires Clean(Reads(cfg, View().(outstanding := 0), script))
      modifies this, readOffset, dciOutstanding
      ensures Valid()
      ensures var o := DoReads(cfg, old(View().(outstanding := 0)), script);
              Matches(status, o) && View() == o.state
    {
      numOutstandingReads := 0;
      ghost var runs := AllRuns(cfg);
      ghost var run := runs(View(), script);
      var used := 0;
      assert script[0..] == script;
      for iter := 0 to cfg.numIterations
        invariant Valid() && used <= |script| && |log| == iter && !View().Busy()
        invariant Describes(cfg, runs) && runs(View(), script[used..]) == run
      {
        RunStarts(cfg, View(), script[used..], runs);
        Refill();
        used, status := Drain(script, used, runs);
        if status != Returned(0) {
          return;
        }
      }
      RunFinished(cfg, View(), script[used..], runs);
      status := CheckOffsets();
    }

    /** send_control: the picked initiator must have room. */
    method PostControl(conn: nat, reply: SendReply) returns (ret: int)
      requires Valid()
      requires SendControl(cfg, View(), conn, reply).Stop? ==> SendControl(cfg, View(), conn, reply).fault.ErrorReturn?
      modifies this`inflight, dciOutstanding
      ensures Valid() && View() == SendControl(cfg, old(View()), conn, reply).state
      ensures if SendControl(cfg, old(View()), conn, reply).Stop? then ret < 0 else ret == 0
    {
      var wrId: nat := 0;
      if cfg.transport.DC? {
        var dci := reply.pick % NUM_DCI;
        assert dciOutstanding[dci] < cfg.txQueueLen;
        if !reply.accepted { return -1; }
        dciOutstanding[dci] := dciOutstanding[dci] + 1;
        wrId := dci;
      } else {
        if !reply.accepted { return -1; }
      }
      inflight := inflight + [Send(conn, wrId)];
      ret := 0;
    }

    /** disconnect, up to the end of the FIN wait. */
    method DisconnectAll(sends: seq<SendReply>, polls: seq<PollReply>) returns (status: Status)
      requires Valid() && Idle(cfg, View()) && |sends| == readOffset.Length <= cfg.txQueueLen
      modifies this, dciOutstanding
      ensures Valid()
      ensures var o := Disconnect(cfg, old(View()), sends, polls);
              Matches(status, o) && View() == o.state
      ensures status == Returned(0) ==> numFinRecvd >= readOffset.Length
    {
      DisconnectCorrect(cfg, View(), sends, polls);
      IdleIsControlling(cfg, View());
      ghost var run := SendFins(cfg, View(), 0, sends);
      ghost var now := View();
      assert sends[0..] == sends;
      for i := 0 to readOffset.Length
        invariant Valid() && View() == now && Controlling(cfg, now, i)
        invariant SendFins(cfg, now, i, sends[i..]) == run
      {
        SendKeeps(cfg, now, i, sends[i], i);
        now := SendTurn(cfg, now, sends, i);
        var ret := PostControl(i, sends[i]);
        if ret != 0 {
          return Returned(ret);
        }
      }
      ghost var wait := AwaitFins(cfg, now, readOffset.Length, polls);
      var used := 0;
      assert polls[0..] == polls;
      while numFinRecvd < readOffset.Length
        invariant Valid() && used <= |polls|
        invariant View() == now && Controlling(cfg, now, readOffset.Length)
        invariant AwaitFins(cfg, now, readOffset.Length, polls[used..]) == wait
        decreases |polls| - used
      {
        if used == |polls| {
          return StillRunning;
        }
        ControlPollKeeps(cfg, now, polls[used], readOffset.Length);
        now := WaitTurn(cfg, now, readOffset.Length, polls, used);
        var ret := PollCq(polls[used]);
        used := used + 1;
        if ret != 0 {
          return Returned(ret);
        }
      }
      status := Returned(0);
    }

    /** The closing check of do_rdma_reads. */
    method CheckOffsets() returns (status: Status)
      ensures status == if OffsetsFull(cfg, View()) then Returned(0) else AssertFailed
    {
      var i := 0;
      while i < readOffset.Length
        invariant i <= readOffset.Length
        invariant forall c :: 0 <= c < i ==> readOffset[c] == cfg.regionSize
      {
        if readOffset[i] != cfg.regionSize {
          assert View().offsets[i] != cfg.regionSize;
          return AssertFailed;
        }
        i := i + 1;
      }
      status := Returned(0);
    }
  }

  lemma RunPending(cfg: Config, s: State, runs: Runs)
    requires Describes(cfg, runs) && s.Shape() && s.log != [] && s.Busy()
    ensures runs(s, []) == Pending(s)
  {
    assert Reads(cfg, s, []) == Pending(s);
  }

  lemma RunStarts(cfg: Config, s: State, script: seq<TurnReplies>, runs: Runs)
    requires Describes(cfg, runs) && s.Shape() && !s.Busy() && |s.log| < cfg.numIterations
    ensures runs(s, script) == runs(StartIteration(s), script)
  {
    assert Reads(cfg, s, script) == Reads(cfg, StartIteration(s), script);
  }

  lemma RunFinished(cfg: Config, s: State, script: seq<TurnReplies>, runs: Runs)
    requires Describes(cfg, runs) && s.Shape() && !s.Busy() && |s.log| >= cfg.numIterations
    ensures runs(s, script) == Finished(s)
  {
    assert Reads(cfg, s, script) == Finished(s);
  }

  lemma DrainTurn(cfg: Config, s: State, script: seq<TurnReplies>, used: nat, runs: Runs) returns (s': State)
    requires s.Shape() && s.log != [] && s.Busy() && used < |script|
    requires Describes(cfg, runs) && Clean(runs(s, script[used..]))
    ensures s' == LoopTurn(cfg, s, script[used]).state
    ensures var r := LoopTurn(cfg, s, script[used]);
            var run := runs(s, script[used..]);
            && (r.Next? ==> runs(s', script[used + 1..]) == run)
            && (r.Stop? ==> run == Halted(ErrorReturn, s') && r.fault.ErrorReturn?)
  {
    assert script[used..][0] == script[used] && script[used..][1..] == script[used + 1..];
    s' := LoopTurn(cfg, s, script[used]).state;
    assert runs(s, script[used..]) == Reads(cfg, s, script[used..]);
    assert runs(s', script[used + 1..]) == Reads(cfg, s', script[used + 1..]);
  }

  lemma SendTurn(cfg: Config, s: State, sends: seq<SendReply>, i: nat) returns (s': State)
    requires s.Shape() && i < |sends|
    ensures s' == SendControl(cfg, s, i, sends[i]).state
    ensures var r := SendControl(cfg, s, i, sends[i]);
            SendFins(cfg, s, i, sends[i..])
            == if r.Next? then SendFins(cfg, s', i + 1, sends[i + 1..]) else Stop(r.fault, s')
  {
    assert sends[i..][0] == sends[i] && sends[i..][1..] == sends[i + 1..];
    s' := SendControl(cfg, s, i, sends[i]).state;
  }

  lemma WaitTurn(cfg: Config, s: State, conns: nat, polls: seq<PollReply>, used: nat) returns (s': State)
    requires s.Shape() && used < |polls| && s.finRecvd < conns
    ensures s' == Poll(cfg, s, polls[used]).state
    ensures var r := Poll(cfg, s, polls[used]);
            AwaitFins(cfg, s, conns, polls[used..])
            == if r.Next? then AwaitFins(cfg, s', conns, polls[used + 1..]) else Halted(r.fault, s')
  {
    assert polls[used..][0] == polls[used] && polls[used..][1..] == polls[used + 1..];
    s' := Poll(cfg, s, polls[used]).state;
  }
}
