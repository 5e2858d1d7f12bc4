/** Streams that end inside a message: what the server has answered and done, and exactly when the answer can
 * be trusted.
 */
module CopyCut {

  import opened Wire
  import opened BlockingReader
  import opened CopyServer
  import opened CopyFraming
  import opened CopyClient
  import opened CopyNetwork
  import opened CopyCorrectness

  /** The server at the end of a stream of k bytes of a message. */
  function CutEnd(os: Oracle, r: Reader<Srv>, c: Command, id: nat, k: nat): Srv
    requires AtHead(r) && k <= |MessageOf(c, id)|
  {
    Session(ServerOf(os), r, MessageOf(c, id)[..k]).state
  }

  /** The files with the first bytes of the payload over what the resized file held. */
  function PartFiles(f: Files, file: seq<byte>, n: nat): Files
    requires n <= |file|
  {
    f.(bytes := |file|, mapping := Mapped,
       disk := f.disk[f.target := file[..n] + Resize(Contents(f), |file|)[n..]])
  }

  predicate Maps(answer: Os) { answer.truncateOk && answer.mmapOk }

  /** The server has the header and is blocked on the rest when the stream ends: the path, the size, or the
   * payload of a file it has mapped.
   */
  predicate CutAccepted(os: Oracle, s: Srv, c: Command, k: nat) {
    && k >= HEADER
    && match c
       case Open(_, _) => PathRead(os, s)
       case Write(_) =>
         s.files.fd > 0 && (k < HEADER + SIZE_FIELD || Maps(os(s.pass)))
       case Close => false
  }

  /** The files after such an end: as they were, with a size of which only the low bytes have arrived, or with
   * the head of the payload over what the resized file held before.
   */
  function CutFiles(f: Files, c: Command, k: nat): Files
    requires HEADER <= k && (c.Write? ==> k < HEADER + SIZE_FIELD + |c.file|)
  {
    match c
    case Write(file) =>
      if k < HEADER + SIZE_FIELD then PatchBytes(f, LeBytes(SIZE_FIELD, |file|)[..k - HEADER])
      else PartFiles(f, file, k - HEADER - SIZE_FIELD)
    case _ => f
  }

  // ---------------------------------------------------------------------------------------------
  // What the server has done
  // ---------------------------------------------------------------------------------------------

  lemma CutHeader(os: Oracle, r: Reader<Srv>, s: seq<byte>)
    requires AtHead(r) && |s| < HEADER
    ensures Session(ServerOf(os), r, s).state == r.state.(at := Stopped)
  {
    assert [] + s == s;
  }

  lemma CutAfterHeader(os: Oracle, r: Reader<Srv>, h: Header, rest: seq<byte>)
    requires Ok(r.state) && AtHead(r) && h.Fits()
    ensures var r1 := Reader(OnHeader(os, r.state, h), [], r.used + HEADER);
            && Sound(ServerOf(os), r1)
            && Session(ServerOf(os), r, EncodeHeader(h) + rest) == Session(ServerOf(os), r1, rest)
  {
    FeedHeader(os, r, h, rest);
  }

  /** A server that has stopped stays as it is. */
  lemma StoppedEnd(os: Oracle, r: Reader<Srv>, s: seq<byte>)
    requires Halted(r)
    ensures Session(ServerOf(os), r, s).state == r.state
  {
    FeedNothing(ServerOf(os), r, s);
  }

  lemma CutOpen(os: Oracle, r: Reader<Srv>, c: Command, id: nat, k: nat)
    requires Ok(r.state) && AtHead(r) && c.Open? && c.WellFormed() && id < 0x1_0000_0000_0000_0000
    requires HEADER <= k < |MessageOf(c, id)|
    ensures CutEnd(os, r, c, id, k)
         == if CutAccepted(os, r.state, c, k) then Refuse(r.state, HeaderOf(c, id), 0)
            else HandleCommand(os, r.state, c, id)
  {
    MessageFits(c, id);
    var hdr, part := HeaderOf(c, id), PaddedPath(c.path)[..k - HEADER];
    assert MessageOf(c, id)[..k] == EncodeHeader(hdr) + part;
    CutAfterHeader(os, r, hdr, part);
    CutOpenBody(os, r, hdr, part);
    HandleOpen(os, r.state, c, id);
  }

  /** The path of an OPEN of which only a part arrives, if it is read at all. */
  lemma CutOpenBody(os: Oracle, r: Reader<Srv>, hdr: Header, part: seq<byte>)
    requires Ok(r.state) && AtHead(r)
    requires hdr.version == 0 && hdr.command == CMD_OPEN && |part| < hdr.len - HEADER
    ensures var r1 := Reader(OnHeader(os, r.state, hdr), [], r.used + HEADER);
            && Sound(ServerOf(os), r1)
            && (PathRead(os, r.state) ==> Session(ServerOf(os), r1, part).state == Refuse(r.state, hdr, 0))
            && (!PathRead(os, r.state) ==> Session(ServerOf(os), r1, part).state == r1.state && r1.state.at == Stopped)
  {
    if PathRead(os, r.state) {
      assert [] + part == part;
    } else {
      StoppedEnd(os, Reader(OnHeader(os, r.state, hdr), [], r.used + HEADER), part);
    }
  }

  lemma CutSize(os: Oracle, r: Reader<Srv>, hdr: Header, part: seq<byte>)
    requires r.state.at == InSize(hdr) && r.got == [] && |part| < SIZE_FIELD
    ensures Session(ServerOf(os), r, part).state
         == Refuse(r.state.(files := PatchBytes(r.state.files, part)), hdr, 0)
  {
    assert [] + part == part;
  }

  lemma CutPayload(os: Oracle, r: Reader<Srv>, hdr: Header, part: seq<byte>)
    requires r.state.at == InPayload(hdr) && r.got == [] && |part| < r.state.files.bytes
    ensures Session(ServerOf(os), r, part).state == Refuse(r.state.(files := Store(r.state.files, part)), hdr, 0)
  {
    assert [] + part == part;
  }

  /** An open server that has the header of a WRITE waits for the size. */
  lemma CutAfterWriteHeader(os: Oracle, r: Reader<Srv>, c: Command, id: nat, rest: seq<byte>)
    requires Ok(r.state) && AtHead(r) && c.Write? && id < 0x1_0000_0000_0000_0000 && r.state.files.fd > 0
    ensures var hdr := HeaderOf(c, id);
            var r1 := Reader(r.state.(at := InSize(hdr)), [], r.used + HEADER);
            && Sound(ServerOf(os), r1)
            && Session(ServerOf(os), r, EncodeHeader(hdr) + rest) == Session(ServerOf(os), r1, rest)
  {
    CutAfterHeader(os, r, HeaderOf(c, id), rest);
  }

  lemma CutWriteSize(os: Oracle, r: Reader<Srv>, c: Command, id: nat, k: nat)
    requires Ok(r.state) && AtHead(r) && c.Write? && c.WellFormed() && id < 0x1_0000_0000_0000_0000
    requires HEADER <= k < HEADER + SIZE_FIELD && r.state.files.fd > 0
    ensures CutEnd(os, r, c, id, k) == Refuse(r.state.(files := CutFiles(r.state.files, c, k)), HeaderOf(c, id), 0)
  {
    var hdr, part := HeaderOf(c, id), LeBytes(SIZE_FIELD, |c.file|)[..k - HEADER];
    assert MessageOf(c, id)[..k] == EncodeHeader(hdr) + part;
    CutAfterWriteHeader(os, r, c, id, part);
    CutSize(os, Reader(r.state.(at := InSize(hdr)), [], r.used + HEADER), hdr, part);
  }

  lemma MapThenStore(os: Oracle, s: Srv, hdr: Header, file: seq<byte>, n: nat)
    requires n < |file| && Maps(os(s.pass))
    ensures var m := MapFile(os, s.(files := s.files.(bytes := |file|)), hdr);
            && m.at == InPayload(hdr) && m.files.bytes == |file| && m.pass == s.pass
            && Refuse(m.(files := Store(m.files, file[..n])), hdr, 0)
               == Refuse(s.(files := PartFiles(s.files, file, n)), hdr, 0)
  {
    var m := MapFile(os, s.(files := s.files.(bytes := |file|)), hdr);
    assert Contents(m.files) == Resize(Contents(s.files), |file|);
    assert Store(m.files, file[..n]) == PartFiles(s.files, file, n);
  }

  lemma CutFile(os: Oracle, r: Reader<Srv>, hdr: Header, file: seq<byte>, n: nat)
    requires r.state.at == InSize(hdr) && r.got == [] && n < |file| < 0x1_0000_0000_0000_0000
    ensures Session(ServerOf(os), r, LeBytes(SIZE_FIELD, |file|) + file[..n]).state
         == if Maps(os(r.state.pass)) then Refuse(r.state.(files := PartFiles(r.state.files, file, n)), hdr, 0)
            else HandleFile(os, r.state, hdr, file)
  {
    FeedSize(os, r, hdr, |file|, file[..n]);
    var m := MapFile(os, r.state.(files := r.state.files.(bytes := |file|)), hdr);
    var r1 := Reader(m, [], r.used + SIZE_FIELD);
    if Maps(os(r.state.pass)) {
      MapThenStore(os, r.state, hdr, file, n);
      CutPayload(os, r1, hdr, file[..n]);
    } else {
      StoppedEnd(os, r1, file[..n]);
    }
  }

  function WriteHead(c: Command, id: nat, n: nat): seq<byte>
    requires c.Write? && n <= |c.file|
  {
    EncodeHeader(HeaderOf(c, id)) + (LeBytes(SIZE_FIELD, |c.file|) + c.file[..n])
  }

  lemma WritePrefix(c: Command, id: nat, k: nat) returns (head: seq<byte>)
    requires c.Write? && HEADER + SIZE_FIELD <= k <= |MessageOf(c, id)|
    ensures k <= HEADER + SIZE_FIELD + |c.file|
    ensures head == MessageOf(c, id)[..k] && head == WriteHead(c, id, k - HEADER - SIZE_FIELD)
  {
    head := WriteHead(c, id, k - HEADER - SIZE_FIELD);
    CutInLast(EncodeHeader(HeaderOf(c, id)), LeBytes(SIZE_FIELD, |c.file|), c.file, k - HEADER - SIZE_FIELD);
  }

  lemma CutInLast(a: seq<byte>, b: seq<byte>, c: seq<byte>, n: nat)
    requires n <= |c|
    ensures (a + b + c)[..|a| + |b| + n] == a + (b + c[..n])
  {
  }

  lemma RefusedAnyway(os: Oracle, s: Srv, hdr: Header, file: seq<byte>)
    requires !Maps(os(s.pass))
    ensures HandleFile(os, s.(at := InSize(hdr)), hdr, file) == HandleFile(os, s, hdr, file)
  {
  }

  lemma CutWrite(os: Oracle, r: Reader<Srv>, c: Command, id: nat, n: nat)
    requires Ok(r.state) && AtHead(r) && c.Write? && c.WellFormed() && id < 0x1_0000_0000_0000_0000
    requires n < |c.file| && r.state.files.fd > 0
    ensures Session(ServerOf(os), r, WriteHead(c, id, n)).state
            == if Maps(os(r.state.pass)) then
                 Refuse(r.state.(files := PartFiles(r.state.files, c.file, n)), HeaderOf(c, id), 0)
               else HandleFile(os, r.state, HeaderOf(c, id), c.file)
  {
    var hdr := HeaderOf(c, id);
    CutAfterWriteHeader(os, r, c, id, LeBytes(SIZE_FIELD, |c.file|) + c.file[..n]);
    CutFile(os, Reader(r.state.(at := InSize(hdr)), [], r.used + HEADER), hdr, c.file, n);
    if !Maps(os(r.state.pass)) { RefusedAnyway(os, r.state, hdr, c.file); }
  }

  lemma CutWritePayload(os: Oracle, r: Reader<Srv>, c: Command, id: nat, k: nat, head: seq<byte>)
    requires Ok(r.state) && AtHead(r) && c.Write? && c.WellFormed() && id < 0x1_0000_0000_0000_0000
    requires HEADER + SIZE_FIELD <= k < HEADER + SIZE_FIELD + |c.file| && r.state.files.fd > 0
    requires head == WriteHead(c, id, k - HEADER - SIZE_FIELD)
    ensures var end := Session(ServerOf(os), r, head).state;
            end == if Maps(os(r.state.pass)) then
                     Refuse(r.state.(files := CutFiles(r.state.files, c, k)), HeaderOf(c, id), 0)
                   else HandleCommand(os, r.state, c, id)
  {
    CutWrite(os, r, c, id, k - HEADER - SIZE_FIELD);
  }

  /** For every server at the head of its loop, every well-formed message and every place to cut it: before the
   * end of the header nothing is answered and nothing done; a message that the server would refuse anyway is
   * refused as if it were whole; and otherwise the server answers status 0, with the files of CutFiles.
   */
  lemma CutMessage(os: Oracle, r: Reader<Srv>, c: Command, id: nat, k: nat)
    requires Ok(r.state) && AtHead(r) && c.WellFormed() && id < 0x1_0000_0000_0000_0000 && k < |MessageOf(c, id)|
    ensures var end := CutEnd(os, r, c, id, k);
            && end.at == Stopped
            && (k < HEADER <==> end.out == r.state.out)
            && (k < HEADER ==> end == r.state.(at := Stopped))
            && (k >= HEADER && !CutAccepted(os, r.state, c, k) ==>
                  end == HandleCommand(os, r.state, c, id) && StatusOf(os, r.state, c) != 0)
            && (CutAccepted(os, r.state, c, k) ==>
                  && end.out == r.state.out + EncodeHeader(ResponseTo(c, id, 0))
                  && end.pass == r.state.pass + 1
                  && end.files == CutFiles(r.state.files, c, k))
  {
    if k < HEADER {
      CutHeader(os, r, MessageOf(c, id)[..k]);
    } else if c.Open? {
      CutOpen(os, r, c, id, k);
    } else if c.Write? && r.state.files.fd > 0 {
      if k < HEADER + SIZE_FIELD {
        CutWriteSize(os, r, c, id, k);
      } else {
        var head := WritePrefix(c, id, k);
        CutWritePayload(os, r, c, id, k, head);
      }
    } else if c.Write? {
      CutRefused(os, r, c, id, k);
    }
  }

  lemma CutRefused(os: Oracle, r: Reader<Srv>, c: Command, id: nat, k: nat)
    requires Ok(r.state) && AtHead(r) && c.Write? && c.WellFormed() && id < 0x1_0000_0000_0000_0000
    requires HEADER <= k < |MessageOf(c, id)| && r.state.files.fd <= 0
    ensures CutEnd(os, r, c, id, k) == HandleCommand(os, r.state, c, id)
  {
    var hdr := HeaderOf(c, id);
    var rest := MessageOf(c, id)[HEADER..k];
    assert MessageOf(c, id)[..k] == EncodeHeader(hdr) + rest;
    CutAfterHeader(os, r, hdr, rest);
    StoppedEnd(os, Reader(OnHeader(os, r.state, hdr), [], r.used + HEADER), rest);
  }

  // ---------------------------------------------------------------------------------------------
  // Exactly when status 0 can be trusted
  // ---------------------------------------------------------------------------------------------

  /** What a client takes status 0 to mean. */
  predicate TookEffect(c: Command, f: Files) {
    match c
    case Open(path, _) => f.fd > 0 && f.target == path
    case Write(file) => Contents(f) == file
    case Close => f.Closed()
  }

  /** The missing bytes make no difference: the file held the payload already, or the payload and what the
   * resized file held before agree from the cut on. A cut OPEN never opens anything.
   */
  predicate Harmless(f: Files, c: Command, k: nat) {
    match c
    case Write(file) =>
      if k < HEADER + SIZE_FIELD then Contents(f) == file
      else forall i :: k - HEADER - SIZE_FIELD <= i < |file| ==> file[i] == Resize(Contents(f), |file|)[i]
    case _ => false
  }

  /** Two responses to a message are equal only with equal status. */
  lemma StatusShown(c: Command, id: nat, a: nat, b: nat)
    requires c.WellFormed() && id < 0x1_0000_0000_0000_0000 && a < 0x1_0000_0000 && b < 0x1_0000_0000
    requires EncodeHeader(ResponseTo(c, id, a)) == EncodeHeader(ResponseTo(c, id, b))
    ensures a == b
  {
    HeaderRoundTrip(ResponseTo(c, id, a));
    HeaderRoundTrip(ResponseTo(c, id, b));
  }

  lemma HarmlessIff(f: Files, c: Command, k: nat)
    requires c.Write? && HEADER <= k < HEADER + SIZE_FIELD + |c.file|
    ensures TookEffect(c, CutFiles(f, c, k)) <==> Harmless(f, c, k)
  {
    if k >= HEADER + SIZE_FIELD {
      var n, before := k - HEADER - SIZE_FIELD, Resize(Contents(f), |c.file|);
      var stored := c.file[..n] + before[n..];
      assert Contents(CutFiles(f, c, k)) == stored;
      assert forall i :: n <= i < |c.file| ==> stored[i] == before[i];
      if Harmless(f, c, k) { assert stored == c.file; }
    }
  }

  /** For every cut the server answers status 0 exactly when it was blocked on the rest; and that answer means
   * that the message took effect exactly when the missing bytes make no difference.
   */
  lemma CutStatusIff(os: Oracle, r: Reader<Srv>, c: Command, id: nat, k: nat)
    requires Ok(r.state) && AtHead(r) && c.WellFormed() && id < 0x1_0000_0000_0000_0000 && k < |MessageOf(c, id)|
    ensures var end := CutEnd(os, r, c, id, k);
            var saysDone := end.out == r.state.out + EncodeHeader(ResponseTo(c, id, 0));
            && (saysDone <==> CutAccepted(os, r.state, c, k))
            && ((saysDone ==> TookEffect(c, end.files))
                <==> !CutAccepted(os, r.state, c, k) || Harmless(r.state.files, c, k))
  {
    CutMessage(os, r, c, id, k);
    var end, status := CutEnd(os, r, c, id, k), StatusOf(os, r.state, c);
    if CutAccepted(os, r.state, c, k) {
      if c.Write? { HarmlessIff(r.state.files, c, k); }
    } else if k >= HEADER && end.out == r.state.out + EncodeHeader(ResponseTo(c, id, 0)) {
      FeedMessage(os, r, c, id);
      assert end.out[|r.state.out|..] == EncodeHeader(ResponseTo(c, id, status));
      assert end.out[|r.state.out|..] == EncodeHeader(ResponseTo(c, id, 0));
      StatusShown(c, id, status, 0);
    }
  }

  // ---------------------------------------------------------------------------------------------
  // A copy that breaks off
  // ---------------------------------------------------------------------------------------------

  lemma Opened(os: Oracle, job: Job, s: Srv, k: nat) returns (r: Reader<Srv>)
    requires Fresh(s) && job.WellFormed() && OpenStatus(os, job, s) == 0 && k < |job.WriteBytes()|
    ensures AtHead(r) && Ok(r.state) && r.state.out == OpenResponse(0) && r.state.pass == s.pass + 1
    ensures var f := r.state.files;
            && f.fd == os(s.pass).openFd && f.mapping.Unmapped? && f.target == job.path
            && job.path in f.disk && f.disk[job.path] == []
    ensures Session(ServerOf(os), Reader(s, [], 0), job.OpenBytes() + job.WriteBytes()[..k]).state
         == CutEnd(os, r, Write(job.file), 0, k)
  {
    ServedOpen(os, job, s);
    r := Served(os, s, job.OpenBytes());
    FeedConcat(ServerOf(os), Reader(s, [], 0), job.OpenBytes(), job.WriteBytes()[..k]);
  }

  /** A copy whose stream ends after k bytes of its WRITE, on a server that has opened the destination: when
   * the server answers status 0, the destination is the source exactly when the payload has begun and all
   * its missing bytes are zero.
   */
  lemma CopyCutIff(os: Oracle, job: Job, s: Srv, k: nat)
    requires Fresh(s) && job.WellFormed() && OpenStatus(os, job, s) == 0 && os(s.pass).openFd > 0
    requires k < |job.WriteBytes()|
    ensures var end := Session(ServerOf(os), Reader(s, [], 0), job.OpenBytes() + job.WriteBytes()[..k]).state;
            var answer := os(s.pass + 1);
            && (end.out == OpenResponse(0) + WriteResponse(0)
                <==> k >= HEADER && (k < HEADER + SIZE_FIELD || Maps(answer)))
            && (end.out == OpenResponse(0) + WriteResponse(0) ==>
                  job.path in end.files.disk
                  && (end.files.disk[job.path] == job.file
                      <==> k >= HEADER + SIZE_FIELD
                           && forall i :: k - HEADER - SIZE_FIELD <= i < |job.file| ==> job.file[i] == 0))
  {
    var r := Opened(os, job, s, k);
    var c := Write(job.file);
    var answer := os(s.pass + 1);
    var accepted := k >= HEADER && (k < HEADER + SIZE_FIELD || Maps(answer));
    assert CutAccepted(os, r.state, c, k) == accepted;
    CutStatusIff(os, r, c, 0, k);
    assert EncodeHeader(ResponseTo(c, 0, 0)) == WriteResponse(0);
    if accepted {
      CutMessage(os, r, c, 0, k);
      assert Contents(CutFiles(r.state.files, c, k)) == CutFiles(r.state.files, c, k).disk[job.path];
    }
  }

  // ---------------------------------------------------------------------------------------------
  // The server after a copy that breaks off anywhere
  // ---------------------------------------------------------------------------------------------

  /** The server at the end of a stream of the first k bytes of a copy. */
  function BrokenOff(os: Oracle, job: Job, s: Srv, k: nat): Srv
    requires Fresh(s) && k <= |job.AllBytes()|
  {
    Session(ServerOf(os), Reader(s, [], 0), job.AllBytes()[..k]).state
  }

  /** The bytes up to k, from where an earlier message ends. */
  lemma SessionFrom(os: Oracle, job: Job, s: Srv, start: seq<byte>, k: nat)
    requires Fresh(s) && start <= job.AllBytes() && |start| <= k <= |job.AllBytes()|
    ensures BrokenOff(os, job, s, k)
         == Session(ServerOf(os), Served(os, s, start), job.AllBytes()[|start|..k]).state
  {
    assert job.AllBytes()[..k] == start + job.AllBytes()[|start|..k];
    FeedConcat(ServerOf(os), Reader(s, [], 0), start, job.AllBytes()[|start|..k]);
  }

  lemma BrokenInOpen(os: Oracle, job: Job, s: Srv, k: nat)
    requires Fresh(s) && job.WellFormed() && k < |job.OpenBytes()| <= |job.AllBytes()|
    ensures BrokenOff(os, job, s, k).files.Closed()
  {
    assert job.AllBytes()[..k] == job.OpenBytes()[..k];
    CutMessage(os, Reader(s, [], 0), Open(job.path, job.mode), 0, k);
  }

  lemma BrokenAfterOpenError(os: Oracle, job: Job, s: Srv, k: nat)
    requires Fresh(s) && job.WellFormed() && OpenStatus(os, job, s) != 0
    requires |job.OpenBytes()| <= k <= |job.AllBytes()|
    ensures BrokenOff(os, job, s, k).files.Closed()
  {
    ServedOpen(os, job, s);
    SessionFrom(os, job, s, job.OpenBytes(), k);
    StoppedEnd(os, Served(os, s, job.OpenBytes()), job.AllBytes()[|job.OpenBytes()|..k]);
  }

  lemma BrokenInWrite(os: Oracle, job: Job, s: Srv, n: nat)
    requires Fresh(s) && job.WellFormed() && OpenStatus(os, job, s) == 0 && n < |job.WriteBytes()|
    ensures |job.OpenBytes()| + n <= |job.AllBytes()|
    ensures var f := BrokenOff(os, job, s, |job.OpenBytes()| + n).files;
            f.fd == os(s.pass).openFd && (f.fd == 0 ==> f.Closed())
  {
    var r := Opened(os, job, s, n);
    BrokenInWriteAt(os, job, s, n);
    CutWriteKeepsOpen(os, r, Write(job.file), 0, n);
  }

  lemma BrokenInWriteAt(os: Oracle, job: Job, s: Srv, n: nat)
    requires Fresh(s) && n < |job.WriteBytes()|
    ensures |job.OpenBytes()| + n <= |job.AllBytes()|
    ensures BrokenOff(os, job, s, |job.OpenBytes()| + n)
         == Session(ServerOf(os), Reader(s, [], 0), job.OpenBytes() + job.WriteBytes()[..n]).state
  {
    CutInMiddle(job.OpenBytes(), job.WriteBytes(), job.CloseBytes(), n);
  }

  lemma CutInMiddle(a: seq<byte>, b: seq<byte>, c: seq<byte>, n: nat)
    requires n <= |b|
    ensures (a + b + c)[..|a| + n] == a + b[..n]
  {
  }

  /** A WRITE that is cut leaves the descriptor alone, and a closed server closed. */
  lemma CutWriteKeepsOpen(os: Oracle, r: Reader<Srv>, c: Command, id: nat, k: nat)
    requires Ok(r.state) && AtHead(r) && c.Write? && c.WellFormed() && id < 0x1_0000_0000_0000_0000
    requires k < |MessageOf(c, id)|
    ensures CutEnd(os, r, c, id, k).files.fd == r.state.files.fd
    ensures r.state.files.Closed() ==> CutEnd(os, r, c, id, k).files.Closed()
  {
    CutMessage(os, r, c, id, k);
  }

  lemma BrokenAfterWriteError(os: Oracle, job: Job, s: Srv, k: nat)
    requires Fresh(s) && job.WellFormed() && OpenStatus(os, job, s) == 0 && WriteStatus(os, job, s) != 0
    requires |job.OpenBytes() + job.WriteBytes()| <= k <= |job.AllBytes()|
    ensures BrokenOff(os, job, s, k).files.fd == os(s.pass).openFd
    ensures os(s.pass).openFd == 0 ==> BrokenOff(os, job, s, k).files.Closed()
  {
    var ow := job.OpenBytes() + job.WriteBytes();
    ServedWrite(os, job, s);
    SessionFrom(os, job, s, ow, k);
    StoppedEnd(os, Served(os, s, ow), job.AllBytes()[|ow|..k]);
  }

  lemma BrokenInClose(os: Oracle, job: Job, s: Srv, k: nat)
    requires Fresh(s) && job.WellFormed() && OpenStatus(os, job, s) == 0 && WriteStatus(os, job, s) == 0
    requires |job.OpenBytes() + job.WriteBytes()| <= k < |job.AllBytes()|
    ensures BrokenOff(os, job, s, k).files.fd == os(s.pass).openFd > 0
  {
    var ow := job.OpenBytes() + job.WriteBytes();
    ServedWrite(os, job, s);
    SessionFrom(os, job, s, ow, k);
    CutHeader(os, Served(os, s, ow), job.AllBytes()[|ow|..k]);
  }

  /** Wherever a copy breaks off, the server can take another client exactly when it was still in the OPEN, the
   * OPEN failed or gave the descriptor 0, or the copy had gone through to its last byte; otherwise it refuses
   * every later OPEN as busy.
   */
  lemma BrokenOffIff(os: Oracle, job: Job, s: Srv, k: nat)
    requires Fresh(s) && job.WellFormed() && k <= |job.AllBytes()|
    ensures var end := BrokenOff(os, job, s, k);
            var next := Srv(end.files, InHeader, [], end.pass);
            && (Fresh(next) <==>
                  || k < |job.OpenBytes()| || OpenStatus(os, job, s) != 0 || os(s.pass).openFd == 0
                  || (WriteStatus(os, job, s) == 0 && k == |job.AllBytes()|))
            && (!Fresh(next) ==> forall other :: OpenStatus(os, other, next) == EBUSY)
  {
    Lengths(job);
    assert |job.OpenBytes()| <= |job.OpenBytes() + job.WriteBytes()| <= |job.AllBytes()|;
    if k < |job.OpenBytes()| {
      BrokenInOpen(os, job, s, k);
    } else if OpenStatus(os, job, s) != 0 {
      BrokenAfterOpenError(os, job, s, k);
    } else if k < |job.OpenBytes() + job.WriteBytes()| {
      BrokenInWrite(os, job, s, k - |job.OpenBytes()|);
    } else if WriteStatus(os, job, s) != 0 {
      BrokenAfterWriteError(os, job, s, k);
    } else if k < |job.AllBytes()| {
      BrokenInClose(os, job, s, k);
    } else {
      NotBroken(os, job, s);
    }
  }

  lemma NotBroken(os: Oracle, job: Job, s: Srv)
    requires Fresh(s) && job.WellFormed() && OpenStatus(os, job, s) == 0 && WriteStatus(os, job, s) == 0
    ensures BrokenOff(os, job, s, |job.AllBytes()|).files.Closed()
  {
    ServedAll(os, job, s);
    assert job.AllBytes()[..|job.AllBytes()|] == job.AllBytes();
  }
}
