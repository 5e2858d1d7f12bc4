/** End-to-end correctness of the copy: how every run of one client against a fresh server ends. */
module CopyCorrectness {

  import opened Wire
  import opened BlockingReader
  import opened CopyServer
  import opened CopyFraming
  import opened CopyClient
  import opened CopyNetwork
  import Duplex

  // ---------------------------------------------------------------------------------------------
  // What the server answers to the three messages
  // ---------------------------------------------------------------------------------------------

  function OpenStatus(os: Oracle, job: Job, s: Srv): nat { StatusOf(os, s, Open(job.path, job.mode)) }

  function AfterOpen(os: Oracle, job: Job, s: Srv): Srv { HandleCommand(os, s, Open(job.path, job.mode), 0) }

  function WriteStatus(os: Oracle, job: Job, s: Srv): nat {
    StatusOf(os, AfterOpen(os, job, s), Write(job.file))
  }

  function AfterWrite(os: Oracle, job: Job, s: Srv): Srv {
    HandleCommand(os, AfterOpen(os, job, s), Write(job.file), 0)
  }

  function OpenResponse(status: nat): seq<byte> { EncodeHeader(Header(0, RespCommand(CMD_OPEN), HEADER, status, 0)) }

  function WriteResponse(status: nat): seq<byte> { EncodeHeader(Header(0, RespCommand(CMD_WRITE), HEADER, status, 0)) }

  function CloseResponse(): seq<byte> { EncodeHeader(Header(0, RespCommand(CMD_CLOSE), HEADER, 0, 0)) }

  lemma ServedOpen(os: Oracle, job: Job, s: Srv)
    requires Fresh(s) && job.WellFormed()
    ensures var r, status := Served(os, s, job.OpenBytes()), OpenStatus(os, job, s);
            && r.state == AfterOpen(os, job, s) && Ok(r.state)
            && r.state.out == OpenResponse(status) && status < 0x1_0000_0000
            && (if status == 0 then AtHead(r) && r.used == |job.OpenBytes()| else Halted(r))
  {
    FeedMessage(os, Reader(s, [], 0), Open(job.path, job.mode), 0);
    assert [] + OpenResponse(OpenStatus(os, job, s)) == OpenResponse(OpenStatus(os, job, s));
  }

  lemma ServedWrite(os: Oracle, job: Job, s: Srv)
    requires Fresh(s) && job.WellFormed() && OpenStatus(os, job, s) == 0
    ensures var r, status := Served(os, s, job.OpenBytes() + job.WriteBytes()), WriteStatus(os, job, s);
            && r.state == AfterWrite(os, job, s) && Ok(r.state)
            && r.state.out == OpenResponse(0) + WriteResponse(status) && status < 0x1_0000_0000
            && (if status == 0 then AtHead(r) && r.used == |job.OpenBytes() + job.WriteBytes()| else Halted(r))
  {
    ServedOpen(os, job, s);
    FeedConcat(ServerOf(os), Reader(s, [], 0), job.OpenBytes(), job.WriteBytes());
    FeedMessage(os, Served(os, s, job.OpenBytes()), Write(job.file), 0);
  }

  /** When both calls succeed, the file is in place and the server is closed again. */
  lemma ServedAll(os: Oracle, job: Job, s: Srv)
    requires Fresh(s) && job.WellFormed() && OpenStatus(os, job, s) == 0 && WriteStatus(os, job, s) == 0
    ensures var r := Served(os, s, job.AllBytes());
            && AtHead(r)
            && r.state.out == OpenResponse(0) + WriteResponse(0) + CloseResponse()
            && Copied(job, s.files, r.state.files)
  {
    ServedWrite(os, job, s);
    FeedConcat(ServerOf(os), Reader(s, [], 0), job.OpenBytes() + job.WriteBytes(), job.CloseBytes());
    FeedMessage(os, Served(os, s, job.OpenBytes() + job.WriteBytes()), Close, 0);
    CopiedAfter(os, job, s);
  }

  lemma CopiedAfter(os: Oracle, job: Job, s: Srv)
    requires Fresh(s) && job.WellFormed() && OpenStatus(os, job, s) == 0 && WriteStatus(os, job, s) == 0
    ensures Copied(job, s.files, HandleCommand(os, AfterWrite(os, job, s), Close, 0).files)
  {
    assert s.files.disk[job.path := []][job.path := job.file] == s.files.disk[job.path := job.file];
  }

  /** The destination holds the source, no other file has changed, and the server is closed. */
  predicate Copied(job: Job, before: Files, after: Files) {
    after.disk == before.disk[job.path := job.file] && after.Closed()
  }

  lemma ServedStops(os: Oracle, s: Srv, a: seq<byte>, b: seq<byte>)
    requires Fresh(s) && a <= b && Served(os, s, a).state.at.Stopped?
    ensures Served(os, s, b) == Served(os, s, a)
  {
    assert b == a + b[|a|..];
    FeedConcat(ServerOf(os), Reader(s, [], 0), a, b[|a|..]);
    FeedNothing(ServerOf(os), Served(os, s, a), b[|a|..]);
  }

  lemma ServedGrows(os: Oracle, s: Srv, a: seq<byte>, b: seq<byte>)
    requires Fresh(s) && a <= b
    ensures Served(os, s, a).state.out <= Served(os, s, b).state.out
  {
    assert b == a + b[|a|..];
    FeedConcat(ServerOf(os), Reader(s, [], 0), a, b[|a|..]);
    ServerKeeps(os, Reader(s, [], 0), a);
    ServerKeeps(os, Served(os, s, a), b[|a|..]);
  }

  /** A response as the client sees it. */
  lemma ResponseSeen(command: nat, status: nat)
    requires command < CMD_RESP && status < 0x1_0000_0000
    ensures GetResp(DecodeHeader(EncodeHeader(Header(0, RespCommand(command), HEADER, status, 0))), command)
         == ToInt(status)
  {
    HeaderRoundTrip(Header(0, RespCommand(command), HEADER, status, 0));
  }

  // ---------------------------------------------------------------------------------------------
  // States in which nothing can happen any more
  // ---------------------------------------------------------------------------------------------

  /** All the server can send in this session. */
  function FullReply(os: Oracle, job: Job, s: Srv): seq<byte>
    requires Fresh(s)
  {
    Served(os, s, job.AllBytes()).state.out
  }

  /** What the client has sent lies at a boundary between its messages. */
  lemma SentBoundary(job: Job, n: CopyNet)
    requires n.client.used <= |Replied(n)|
    requires ClientIs(job, n.client, n.clientEnded, Replied(n)[..n.client.used])
    ensures Sent(n) in {job.OpenBytes(), job.OpenBytes() + job.WriteBytes(), job.AllBytes()}
  {
    ClientAfter(job, Replied(n)[..n.client.used]);
  }

  /** A server that has read whole messages and goes on is at the head of its loop, and has answered each. */
  lemma ServedBoundary(os: Oracle, job: Job, s: Srv, sent: seq<byte>)
    requires Fresh(s) && job.WellFormed() && !Served(os, s, sent).state.at.Stopped?
    requires sent in {job.OpenBytes(), job.OpenBytes() + job.WriteBytes(), job.AllBytes()}
    ensures OpenStatus(os, job, s) == 0
    ensures sent != job.OpenBytes() ==> WriteStatus(os, job, s) == 0
    ensures AtHead(Served(os, s, sent))
    ensures sent == job.OpenBytes() ==> |Served(os, s, sent).state.out| == HEADER
    ensures sent == job.OpenBytes() + job.WriteBytes() ==> |Served(os, s, sent).state.out| == 2 * HEADER
    ensures sent == job.AllBytes() ==> |Served(os, s, sent).state.out| == 3 * HEADER
  {
    ServedOpen(os, job, s);
    if Halted(Served(os, s, job.OpenBytes())) {
      ServedStops(os, s, job.OpenBytes(), sent);
      assert false;
    }
    ServedWrite(os, job, s);
    if sent != job.OpenBytes() {
      if Halted(Served(os, s, job.OpenBytes() + job.WriteBytes())) {
        ServedStops(os, s, job.OpenBytes() + job.WriteBytes(), sent);
        assert false;
      }
      ServedAll(os, job, s);
    }
    Lengths(job);
  }

  lemma Lengths(job: Job)
    ensures |job.CloseBytes()| > 0 && |job.WriteBytes()| > 0
    ensures job.OpenBytes() != job.OpenBytes() + job.WriteBytes()
    ensures job.OpenBytes() != job.AllBytes() && job.OpenBytes() + job.WriteBytes() != job.AllBytes()
  {
    assert |job.OpenBytes()| < |job.OpenBytes() + job.WriteBytes()| < |job.AllBytes()|;
  }

  /** In a state without steps the client has finished: no deadlock. */
  lemma QuietClientDone(os: Oracle, job: Job, s: Srv, n: CopyNet)
    requires Reached(os, job, s, n) && job.WellFormed() && Quiet(n)
    ensures n.client.state.at.Done?
  {
    if !n.client.state.at.Done? {
      assert !n.clientEnded && !n.serverEnded;
      assert Replied(n)[..n.client.used] == Replied(n) && Sent(n)[..n.server.used] == Sent(n);
      SentBoundary(job, n);
      ServedBoundary(os, job, s, Sent(n));
      ClientAfter(job, Replied(n));
      Lengths(job);
      assert false;
    }
  }

  /** What the server has sent is part of its full reply; all of it, if the server stopped by itself. */
  lemma ReplyOf(os: Oracle, job: Job, s: Srv, n: CopyNet)
    requires Reached(os, job, s, n) && job.WellFormed()
    ensures Replied(n) <= FullReply(os, job, s)
    ensures n.server.state.at.Stopped? && !n.serverEnded ==> Replied(n) == FullReply(os, job, s)
    ensures n.server.state.at.Stopped? && !n.serverEnded ==> Served(os, s, job.AllBytes()).state.at.Stopped?
    ensures n.serverEnded ==> AtHead(Served(os, s, Sent(n)))
    ensures n.serverEnded ==> n.server.state == Served(os, s, Sent(n)).state.(at := Stopped)
  {
    var read := Sent(n)[..n.server.used];
    ServedGrows(os, s, read, job.AllBytes());
    if n.serverEnded {
      assert read == Sent(n);
      SentBoundary(job, n);
      ServedBoundary(os, job, s, read);
      FeedNothing(ServerOf(os), Served(os, s, read), []);
    } else if n.server.state.at.Stopped? {
      ServedStops(os, s, read, job.AllBytes());
    }
  }

  /** The result of the client, whatever happens on the server. */
  function Result(os: Oracle, job: Job, s: Srv): int {
    ToInt(if OpenStatus(os, job, s) != 0 then OpenStatus(os, job, s) else WriteStatus(os, job, s))
  }

  /** What the client has read is part of the full reply; all of it, if the client found the stream closed. */
  lemma HeardOf(os: Oracle, job: Job, s: Srv, n: CopyNet) returns (h: seq<byte>)
    requires Reached(os, job, s, n) && job.WellFormed()
    ensures h <= FullReply(os, job, s) && (n.clientEnded ==> h == FullReply(os, job, s))
    ensures ClientIs(job, n.client, n.clientEnded, h)
  {
    h := Replied(n)[..n.client.used];
    ReplyOf(os, job, s, n);
  }

  /** A client that reads a failed OPEN response, or part of it and then the end, and is done. */
  lemma ClientOnOpenError(job: Job, client: Reader<Cli>, ended: bool, h: seq<byte>, status: nat)
    requires ClientIs(job, client, ended, h) && client.state.at.Done?
    requires 0 < status < 0x1_0000_0000
    requires h <= OpenResponse(status) && (ended ==> h == OpenResponse(status))
    ensures client.state.at.ret == ToInt(status)
  {
    ResponseSeen(CMD_OPEN, status);
    ClientAfter(job, h);
    assert |h| >= HEADER ==> h[..HEADER] == OpenResponse(status);
  }

  /** A client that reads a good OPEN response and any WRITE response, and is done. */
  lemma ClientOnWrite(job: Job, client: Reader<Cli>, ended: bool, h: seq<byte>,
                      o: seq<byte>, w: seq<byte>, tail: seq<byte>)
    requires ClientIs(job, client, ended, h) && client.state.at.Done?
    requires |o| == |w| == HEADER && |tail| in {0, HEADER}
    requires GetResp(DecodeHeader(o), CMD_OPEN) == 0
    requires h <= o + w + tail && (ended ==> h == o + w + tail)
    ensures client.state.at.ret == GetResp(DecodeHeader(w), CMD_WRITE)
    ensures client.state.out == job.AllBytes() && (tail != [] ==> !ended)
  {
    ClientAfter(job, h);
    assert |h| >= HEADER ==> h[..HEADER] == o;
    assert |h| >= 2 * HEADER ==> h[HEADER..2 * HEADER] == w;
  }

  lemma ResultOfOpen(os: Oracle, job: Job, s: Srv, n: CopyNet)
    requires Reached(os, job, s, n) && job.WellFormed() && OpenStatus(os, job, s) != 0 && n.client.state.at.Done?
    ensures n.client.state.at.ret == Result(os, job, s)
  {
    ServedOpen(os, job, s);
    ServedStops(os, s, job.OpenBytes(), job.AllBytes());
    var h := HeardOf(os, job, s, n);
    ClientOnOpenError(job, n.client, n.clientEnded, h, OpenStatus(os, job, s));
  }

  lemma ResultOfWrite(os: Oracle, job: Job, s: Srv, n: CopyNet)
    requires Reached(os, job, s, n) && job.WellFormed() && n.client.state.at.Done?
    requires OpenStatus(os, job, s) == 0 && WriteStatus(os, job, s) != 0
    ensures n.client.state.at.ret == Result(os, job, s) && Sent(n) == job.AllBytes()
  {
    ServedWrite(os, job, s);
    ServedStops(os, s, job.OpenBytes() + job.WriteBytes(), job.AllBytes());
    var h := HeardOf(os, job, s, n);
    var status := WriteStatus(os, job, s);
    ResponseSeen(CMD_OPEN, 0);
    ResponseSeen(CMD_WRITE, status);
    assert OpenResponse(0) + WriteResponse(status) + [] == OpenResponse(0) + WriteResponse(status);
    ClientOnWrite(job, n.client, n.clientEnded, h, OpenResponse(0), WriteResponse(status), []);
  }

  lemma ResultOfCopy(os: Oracle, job: Job, s: Srv, n: CopyNet)
    requires Reached(os, job, s, n) && job.WellFormed() && n.client.state.at.Done?
    requires OpenStatus(os, job, s) == 0 && WriteStatus(os, job, s) == 0
    ensures n.client.state.at.ret == Result(os, job, s) == 0 && !n.clientEnded && Sent(n) == job.AllBytes()
  {
    ServedAll(os, job, s);
    var h := HeardOf(os, job, s, n);
    ResponseSeen(CMD_OPEN, 0);
    ResponseSeen(CMD_WRITE, 0);
    ClientOnWrite(job, n.client, n.clientEnded, h, OpenResponse(0), WriteResponse(0), CloseResponse());
  }

  /** Once both sides are done and the client has sent everything, the copy is in place. */
  lemma CopyInPlace(os: Oracle, job: Job, s: Srv, n: CopyNet)
    requires Reached(os, job, s, n) && job.WellFormed() && Result(os, job, s) == 0
    requires n.server.state.at.Stopped? && n.client.state.at.Done? && !n.clientEnded && Sent(n) == job.AllBytes()
    ensures Copied(job, s.files, n.server.state.files)
    ensures n.server.used == |Sent(n)| == |job.AllBytes()| && n.client.used == |Replied(n)|
  {
    ServedOpen(os, job, s);
    ServedWrite(os, job, s);
    ServedAll(os, job, s);
    ReplyOf(os, job, s, n);
    ClientAfter(job, Replied(n)[..n.client.used]);
  }

  /** How a run ends: the client has returned the first error of the server, or 0; and when it has returned
   * 0, the copy is in place and the server is closed and ready for another client.
   */
  lemma QuietOutcome(os: Oracle, job: Job, s: Srv, n: CopyNet)
    requires Reached(os, job, s, n) && job.WellFormed() && Quiet(n)
    ensures n.client.state.at == Done(Result(os, job, s))
    ensures n.server.state.at.Stopped?
    ensures Result(os, job, s) == 0 ==>
              && Copied(job, s.files, n.server.state.files)
              && n.server.used == |Sent(n)| == |job.AllBytes()| && n.client.used == |Replied(n)|
  {
    QuietClientDone(os, job, s, n);
    assert n.server.state.at.Stopped?;
    ServedOpen(os, job, s);
    if OpenStatus(os, job, s) != 0 {
      ResultOfOpen(os, job, s, n);
    } else {
      ServedWrite(os, job, s);
      if WriteStatus(os, job, s) != 0 {
        ResultOfWrite(os, job, s, n);
      } else {
        ResultOfCopy(os, job, s, n);
        CopyInPlace(os, job, s, n);
      }
    }
  }

  /** The two programs taken alone: at the end of a run each side is where its program ends on the stream of
   * bytes the other side has sent.
   */
  lemma QuietSessions(os: Oracle, job: Job, s: Srv, n: CopyNet)
    requires Reached(os, job, s, n) && job.WellFormed() && Quiet(n)
    ensures n.client == Session(ClientOf(job), Start(job), Replied(n))
    ensures n.server == Session(ServerOf(os), Reader(s, [], 0), Sent(n))
  {
    QuietOutcome(os, job, s, n);
    ClientSession(job, n);
    ServerSession(os, s, n);
  }

  lemma ClientSession(job: Job, n: CopyNet)
    requires n.client.used <= |Replied(n)| && n.client.state.at.Done?
    requires ClientIs(job, n.client, n.clientEnded, Replied(n)[..n.client.used])
    requires n.clientEnded ==> n.client.used == |Replied(n)|
    ensures n.client == Session(ClientOf(job), Start(job), Replied(n))
  {
    var a, b := Replied(n)[..n.client.used], Replied(n)[n.client.used..];
    assert a + b == Replied(n);
    FeedConcat(ClientOf(job), Start(job), a, b);
    FeedNothing(ClientOf(job), Heard(job, a), b);
  }

  lemma ServerSession(os: Oracle, s: Srv, n: CopyNet)
    requires Fresh(s) && n.server.used <= |Sent(n)| && n.server.state.at.Stopped?
    requires ServerIs(os, s, n.server, n.serverEnded, Sent(n)[..n.server.used])
    requires n.serverEnded ==> n.server.used == |Sent(n)|
    ensures n.server == Session(ServerOf(os), Reader(s, [], 0), Sent(n))
  {
    var a, b := Sent(n)[..n.server.used], Sent(n)[n.server.used..];
    assert a + b == Sent(n);
    FeedConcat(ServerOf(os), Reader(s, [], 0), a, b);
    FeedNothing(ServerOf(os), Served(os, s, a), b);
  }

  // ---------------------------------------------------------------------------------------------
  // The server afterwards
  // ---------------------------------------------------------------------------------------------

  /** The server of this session waiting for its next client. */
  function NextServer(n: CopyNet): Srv { Srv(n.server.state.files, InHeader, [], n.server.state.pass) }

  lemma ServerAfterOpenError(os: Oracle, job: Job, s: Srv, n: CopyNet)
    requires Reached(os, job, s, n) && job.WellFormed() && Quiet(n) && OpenStatus(os, job, s) != 0
    ensures n.server.state == AfterOpen(os, job, s)
  {
    QuietSessions(os, job, s, n);
    SentBoundary(job, n);
    ServedOpen(os, job, s);
    ServedStops(os, s, job.OpenBytes(), Sent(n));
  }

  lemma ServerAfterWriteError(os: Oracle, job: Job, s: Srv, n: CopyNet)
    requires Reached(os, job, s, n) && job.WellFormed() && Quiet(n)
    requires OpenStatus(os, job, s) == 0 && WriteStatus(os, job, s) != 0
    ensures n.server.state == AfterWrite(os, job, s)
  {
    QuietSessions(os, job, s, n);
    QuietClientDone(os, job, s, n);
    ResultOfWrite(os, job, s, n);
    ServedWrite(os, job, s);
    ServedStops(os, s, job.OpenBytes() + job.WriteBytes(), Sent(n));
  }

  /** After any copy the server can take another client exactly when the copy succeeded, or its OPEN failed,
   * or gave the descriptor 0; otherwise it refuses every later OPEN as busy.
   */
  lemma ServerReadyIff(os: Oracle, job: Job, s: Srv, n: CopyNet)
    requires Reached(os, job, s, n) && job.WellFormed() && Quiet(n)
    ensures Fresh(NextServer(n)) <==>
              Result(os, job, s) == 0 || OpenStatus(os, job, s) != 0 || os(s.pass).openFd == 0
    ensures !Fresh(NextServer(n)) ==> forall other :: OpenStatus(os, other, NextServer(n)) == EBUSY
  {
    QuietOutcome(os, job, s, n);
    if OpenStatus(os, job, s) != 0 {
      ServerAfterOpenError(os, job, s, n);
    } else if WriteStatus(os, job, s) != 0 {
      ServerAfterWriteError(os, job, s, n);
      ServedWrite(os, job, s);
    }
  }

  // ---------------------------------------------------------------------------------------------
  // Whole runs
  // ---------------------------------------------------------------------------------------------

  /** End to end: for every well-formed job, every behaviour of the operating system, every interleaving and
   * every fragmentation of the two streams, a run takes a bounded number of steps; and when no step is left,
   * the client has returned the first error the server met, and if there was none it has returned 0, all
   * bytes have been read, the destination holds exactly the source, and the server is closed again. The server
   * can then take another client unless the copy failed after its OPEN gave a positive descriptor.
   */
  lemma CopyCorrect(os: Oracle, job: Job, s: Srv, labels: seq<Duplex.Label>)
    requires Fresh(s) && job.WellFormed()
    requires var w := WorldOf(os, job, s); Duplex.IsRun(w, Duplex.Init(w), labels)
    ensures |labels| <= |job.AllBytes()| + 3 * HEADER + 2
    ensures var w := WorldOf(os, job, s);
            var n := Duplex.RunTo(w, Duplex.Init(w), labels);
            Duplex.Stuck(w, n) ==>
              && n.client.state.at == Done(Result(os, job, s))
              && n.server.state.at.Stopped?
              && (Result(os, job, s) == 0 ==>
                    && Copied(job, s.files, n.server.state.files)
                    && n.server.used == |Sent(n)| == |job.AllBytes()| && n.client.used == |Replied(n)|)
              && (Fresh(NextServer(n)) <==>
                    Result(os, job, s) == 0 || OpenStatus(os, job, s) != 0 || os(s.pass).openFd == 0)
  {
    var n := RunReaches(os, job, s, labels);
    ClientAfter(job, Replied(n)[..n.client.used]);
    if Quiet(n) {
      QuietOutcome(os, job, s, n);
      ServerReadyIff(os, job, s, n);
    }
  }

  /** The client returns 0 exactly when all the calls of the server succeed and open gives a positive
   * descriptor.
   */
  lemma ResultIff(os: Oracle, job: Job, s: Srv)
    requires Fresh(s) && job.WellFormed()
    ensures Result(os, job, s) == 0 <==>
              && os(s.pass).mallocOk && os(s.pass).openFd > 0
              && os(s.pass + 1).truncateOk && os(s.pass + 1).mmapOk
  {
    HandleCommandIs(os, s, Open(job.path, job.mode), 0);
    if OpenStatus(os, job, s) == 0 {
      HandleCommandIs(os, AfterOpen(os, job, s), Write(job.file), 0);
      assert AfterOpen(os, job, s).files.fd == os(s.pass).openFd;
    }
  }

  /** What the server's calls make of a copy: the result of the client, and the files of the server. */
  function Outcome(job: Job, f: Files, open: Os, write: Os): (int, Files) {
    var created := f.(fd := open.openFd, target := job.path, disk := f.disk[job.path := []]);
    var resized := created.(bytes := |job.file|, mapping := MapFailed, disk := f.disk[job.path := Zeros(|job.file|)]);
    var copied := created.(fd := 0, bytes := |job.file|, mapping := Unmapped, disk := f.disk[job.path := job.file]);
    var openError: int, writeError: int := open.error, write.error;
    if !open.mallocOk then (12, f)
    else if open.openFd < 0 then (openError, f.(fd := -1))
    else if open.openFd == 0 then (22, created)
    else if !write.truncateOk then (-1, created.(bytes := |job.file|))
    else if !write.mmapOk then (writeError, resized)
    else (0, copied)
  }

  /** Every copy, in full: the client returns the first error as the operating system gave it; the destination is
   * as it was until it has been opened, then empty, then of its full length, then the source; no other file
   * changes; and the descriptor and the mapping are left as the failing call found or made them.
   */
  lemma OutcomeIs(os: Oracle, job: Job, s: Srv, n: CopyNet)
    requires Reached(os, job, s, n) && job.WellFormed() && Quiet(n)
    ensures var (ret, files) := Outcome(job, s.files, os(s.pass), os(s.pass + 1));
            n.client.state.at == Done(ret) && n.server.state.files == files
  {
    QuietOutcome(os, job, s, n);
    HandleCommandIs(os, s, Open(job.path, job.mode), 0);
    if OpenStatus(os, job, s) != 0 {
      ServerAfterOpenError(os, job, s, n);
    } else if WriteStatus(os, job, s) != 0 {
      ServerAfterWriteError(os, job, s, n);
      FilesAfterWriteError(os, job, s);
    } else {
      ResultIff(os, job, s);
      ServerAfterCopy(os, job, s, n);
    }
  }

  lemma FilesAfterWriteError(os: Oracle, job: Job, s: Srv)
    requires Fresh(s) && job.WellFormed() && OpenStatus(os, job, s) == 0 && WriteStatus(os, job, s) != 0
    ensures var (ret, files) := Outcome(job, s.files, os(s.pass), os(s.pass + 1));
            Result(os, job, s) == ret && AfterWrite(os, job, s).files == files
  {
    var f := AfterOpen(os, job, s).files;
    assert f.disk == s.files.disk[job.path := []] && Contents(f) == [];
    assert Resize([], |job.file|) == Zeros(|job.file|);
    assert s.files.disk[job.path := []][job.path := Zeros(|job.file|)] == s.files.disk[job.path := Zeros(|job.file|)];
  }

  lemma ServerAfterCopy(os: Oracle, job: Job, s: Srv, n: CopyNet)
    requires Reached(os, job, s, n) && job.WellFormed() && Quiet(n) && Result(os, job, s) == 0
    ensures n.server.state.files == Outcome(job, s.files, os(s.pass), os(s.pass + 1)).1
  {
    QuietOutcome(os, job, s, n);
    QuietSessions(os, job, s, n);
    ResultIff(os, job, s);
    SentBoundary(job, n);
    Lengths(job);
    ServedCopy(os, job, s);
    FeedNothing(ServerOf(os), Served(os, s, job.AllBytes()), []);
  }

  lemma ServedCopy(os: Oracle, job: Job, s: Srv)
    requires Fresh(s) && job.WellFormed() && OpenStatus(os, job, s) == 0 && WriteStatus(os, job, s) == 0
    ensures var r := Served(os, s, job.AllBytes());
            AtHead(r) && r.state.files == Outcome(job, s.files, os(s.pass), os(s.pass + 1)).1
  {
    ServedWrite(os, job, s);
    FeedConcat(ServerOf(os), Reader(s, [], 0), job.OpenBytes() + job.WriteBytes(), job.CloseBytes());
    FeedMessage(os, Served(os, s, job.OpenBytes() + job.WriteBytes()), Close, 0);
    FilesAfterCopy(os, job, s);
  }

  lemma FilesAfterCopy(os: Oracle, job: Job, s: Srv)
    requires Fresh(s) && job.WellFormed() && OpenStatus(os, job, s) == 0 && WriteStatus(os, job, s) == 0
    ensures HandleCommand(os, AfterWrite(os, job, s), Close, 0).files
         == Outcome(job, s.files, os(s.pass), os(s.pass + 1)).1
  {
    HandleCommandIs(os, s, Open(job.path, job.mode), 0);
    assert s.files.disk[job.path := []][job.path := job.file] == s.files.disk[job.path := job.file];
  }
}
