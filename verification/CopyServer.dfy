/** The server of the copy protocol as a blocking reader: `server_process` with `server_open`,
 * `server_write`, `server_close` and the whole reads they make.
 *
 * What the operating system answers is given by an oracle, one answer per message handled.
 */
module CopyServer {

  import opened Wire
  import opened BlockingReader

  const EBUSY: nat := 16
  const EINVAL: nat := 22
  const ENOMEM: nat := 12
  const MINUS_ONE: nat := 0xFFFF_FFFF

  type errno = e: nat | 0 < e < 0x8000_0000 witness 1

  /** The answers to malloc, open, ftruncate and mmap, and the error code of a failing call. */
  datatype Os = Os(mallocOk: bool, openFd: int, truncateOk: bool, mmapOk: bool, error: errno)

  type Oracle = nat -> Os

  datatype Mapping = Unmapped | MapFailed | Mapped

  /** The file state of the server and the files it has written. `mapping` is MapFailed for the non-null
   * pointer that a failed mmap leaves behind.
   */
  datatype Files = Files(fd: int, mapping: Mapping, bytes: nat, target: seq<byte>, disk: map<seq<byte>, seq<byte>>)
  {
    predicate Closed() { fd <= 0 && mapping.Unmapped? }
  }

  /** What the server is blocked reading. */
  datatype Reading = InHeader | InPath(hdr: Header) | InSize(hdr: Header) | InPayload(hdr: Header) | Stopped

  /** `out` holds the bytes sent, `pass` counts the messages answered. */
  datatype Srv = Srv(files: Files, at: Reading, out: seq<byte>, pass: nat)

  // ---------------------------------------------------------------------------------------------
  // Answering
  // ---------------------------------------------------------------------------------------------

  function Answer(s: Srv, hdr: Header, status: nat, next: Reading): Srv {
    s.(out := s.out + EncodeHeader(Response(hdr, status)), pass := s.pass + 1, at := next)
  }

  /** The message is answered with status 0 and the loop goes on. */
  function Succeed(s: Srv, hdr: Header): Srv { Answer(s, hdr, 0, InHeader) }

  /** The message is answered with an error and the loop is left. */
  function Refuse(s: Srv, hdr: Header, status: nat): Srv { Answer(s, hdr, status, Stopped) }

  function Resize(s: seq<byte>, n: nat): (r: seq<byte>)
    ensures |r| == n
    ensures forall i :: 0 <= i < n ==> r[i] == if i < |s| then s[i] else 0
  {
    if n <= |s| then s[..n] else s + Zeros(n - |s|)
  }

  function Contents(f: Files): seq<byte> { if f.target in f.disk then f.disk[f.target] else [] }

  /** The first bytes of the open file replaced by what was received into its mapping. */
  function Store(f: Files, got: seq<byte>): Files {
    var before := Contents(f);
    f.(disk := f.disk[f.target := got + if |got| <= |before| then before[|got|..] else []])
  }

  /** A complete header: msg_recv_hdr and the dispatch of server_process. */
  function OnHeader(os: Oracle, s: Srv, hdr: Header): Srv {
    if hdr.version != 0 || hdr.len < HEADER then s.(at := Stopped)
    else if hdr.command == CMD_OPEN then
      if !s.files.mapping.Unmapped? || s.files.fd > 0 then Refuse(s, hdr, EBUSY)
      else if !os(s.pass).mallocOk then Refuse(s, hdr, ENOMEM)
      else if hdr.len == HEADER then OnPath(os, s, hdr, [])
      else s.(at := InPath(hdr))
    else if hdr.command == CMD_CLOSE then
      Succeed(s.(files := CloseFiles(s.files)), hdr)
    else if hdr.command == CMD_WRITE then
      if s.files.fd <= 0 then Refuse(s, hdr, EINVAL)
      else if hdr.len != HEADER + SIZE_FIELD then Refuse(s, hdr, EINVAL)
      else s.(at := InSize(hdr))
    else Refuse(s, hdr, EINVAL)
  }

  function CloseFiles(f: Files): Files { f.(fd := if f.fd > 0 then 0 else f.fd, mapping := Unmapped) }

  /** A complete path: the file is created empty. */
  function OnPath(os: Oracle, s: Srv, hdr: Header, path: seq<byte>): Srv {
    var answer := os(s.pass);
    var f := s.files;
    if answer.openFd < 0 then Refuse(s.(files := f.(fd := -1)), hdr, answer.error)
    else
      var target := CString(path);
      Succeed(s.(files := f.(fd := answer.openFd, target := target, disk := f.disk[target := []])), hdr)
  }

  /** A complete size. */
  function OnSize(os: Oracle, s: Srv, hdr: Header, size: seq<byte>): Srv {
    MapFile(os, s.(files := s.files.(bytes := LeValue(size))), hdr)
  }

  /** The open file is resized and mapped. An empty mapping is refused. */
  function MapFile(os: Oracle, s: Srv, hdr: Header): Srv {
    var answer := os(s.pass);
    var f := s.files;
    if !answer.truncateOk then Refuse(s, hdr, MINUS_ONE)
    else
      var f' := f.(disk := f.disk[f.target := Resize(Contents(f), f.bytes)]);
      if !answer.mmapOk || f.bytes == 0 then Refuse(s.(files := f'.(mapping := MapFailed)), hdr, answer.error)
      else s.(files := f'.(mapping := Mapped), at := InPayload(hdr))
  }

  // ---------------------------------------------------------------------------------------------
  // The server as a reader of a stream
  // ---------------------------------------------------------------------------------------------

  function Want(s: Srv): nat {
    match s.at
    case InHeader => HEADER
    case InPath(hdr) => if hdr.len > HEADER then hdr.len - HEADER else 0
    case InSize(_) => SIZE_FIELD
    case InPayload(_) => s.files.bytes
    case Stopped => 0
  }

  /** The current read has received all it wanted. */
  function Finish(os: Oracle, s: Srv, got: seq<byte>): Srv {
    match s.at
    case InHeader => if |got| == HEADER then OnHeader(os, s, DecodeHeader(got)) else s
    case InPath(hdr) => OnPath(os, s, hdr, got)
    case InSize(hdr) => OnSize(os, s, hdr, got)
    case InPayload(hdr) => Succeed(s.(files := Store(s.files, got)), hdr)
    case Stopped => s
  }

  /** The stream ends while the server waits for more. Inside a message the read returns 0, which the
   * server takes for its own status: it answers 0, keeps what it has received, and finds the stream
   * ended at its next header.
   */
  function AtEnd(s: Srv, got: seq<byte>): Srv {
    match s.at
    case InHeader => s.(at := Stopped)
    case InPath(hdr) => Refuse(s, hdr, 0)
    case InSize(hdr) => Refuse(s.(files := PatchBytes(s.files, got)), hdr, 0)
    case InPayload(hdr) => Refuse(s.(files := Store(s.files, got)), hdr, 0)
    case Stopped => s
  }

  /** The low bytes of the size variable replaced by what was received for it. */
  function PatchBytes(f: Files, got: seq<byte>): Files {
    var before := LeBytes(SIZE_FIELD, f.bytes);
    f.(bytes := LeValue(got + if |got| <= SIZE_FIELD then before[|got|..] else []))
  }

  /** What PatchBytes does to the eight bytes of the variable in memory. */
  lemma PatchedBytes(f: Files, got: seq<byte>)
    requires |got| <= 8
    ensures LeBytes(8, PatchBytes(f, got).bytes) == got + LeBytes(8, f.bytes)[|got|..]
    ensures PatchBytes(f, got) == f.(bytes := PatchBytes(f, got).bytes)
  {
    LeInverse(got + LeBytes(8, f.bytes)[|got|..]);
  }

  /** server_process, as a blocking reader. */
  function ServerOf(os: Oracle): Machine<Srv> {
    Machine(Want, (s: Srv, got: seq<byte>) => Finish(os, s, got), AtEnd)
  }

  // ---------------------------------------------------------------------------------------------
  // What every stream keeps
  // ---------------------------------------------------------------------------------------------

  /** A non-null mapping means an open file; a server that has not stopped wants at least one byte; the
   * mapped file has the size that is to be received.
   */
  predicate Ok(s: Srv) {
    && (s.at.Stopped? <==> Want(s) == 0)
    && (!s.files.mapping.Unmapped? ==> s.files.fd > 0)
    && (s.at.InPath? ==> s.files.Closed())
    && (s.at.InSize? ==> s.files.fd > 0)
    && (s.at.InPayload? ==> |Contents(s.files)| == s.files.bytes && s.files.fd > 0 && s.files.mapping.Mapped?)
  }

  /** The output only grows, by one response per message answered. */
  predicate Grew(a: Srv, b: Srv) {
    a.out <= b.out && a.pass <= b.pass && |b.out| == |a.out| + HEADER * (b.pass - a.pass)
  }

  lemma HeaderOk(os: Oracle, s: Srv, hdr: Header)
    requires Ok(s) && s.at.InHeader?
    ensures Ok(OnHeader(os, s, hdr)) && Grew(s, OnHeader(os, s, hdr))
  {
  }

  lemma MapOk(os: Oracle, s: Srv, hdr: Header)
    requires s.files.fd > 0 && s.at.InSize?
    ensures Ok(MapFile(os, s, hdr)) && Grew(s, MapFile(os, s, hdr))
  {
  }

  lemma FinishOk(os: Oracle, s: Srv, got: seq<byte>)
    requires Ok(s) && |got| == Want(s) > 0
    ensures Ok(Finish(os, s, got)) && Grew(s, Finish(os, s, got))
  {
    match s.at {
      case InHeader => HeaderOk(os, s, DecodeHeader(got));
      case InSize(hdr) => MapOk(os, s.(files := s.files.(bytes := LeValue(got))), hdr);
      case _ =>
    }
  }

  /** Whatever the stream and its chunks: a non-null mapping means an open file, and the server has sent
   * exactly one response of 16 bytes for every message it has answered.
   */
  lemma ServerKeeps(os: Oracle, r: Reader<Srv>, stream: seq<byte>)
    requires Sound(ServerOf(os), r) && Ok(r.state)
    ensures Ok(Feed(ServerOf(os), r, stream).state)
    ensures Grew(r.state, Feed(ServerOf(os), r, stream).state)
  {
    var start := r.state;
    var inv := (s: Srv) => Ok(s) && Grew(start, s);
    forall a, got | inv(a) && |got| == ServerOf(os).want(a) > 0 ensures inv(ServerOf(os).finish(a, got)) {
      FinishOk(os, a, got);
      assert start.out <= a.out;
    }
    FeedKeeps(ServerOf(os), r, stream, inv);
  }
}
