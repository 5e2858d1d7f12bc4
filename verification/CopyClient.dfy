/** The client of the copy protocol as a blocking reader of responses: `client_run` with `client_open`,
 * `client_start_write`, `client_close` and `msg_get_resp`. What it sends next follows the read at once.
 */
module CopyClient {

  import opened Wire
  import opened BlockingReader

  /** The file to copy and the path and mode it is to get. */
  datatype Job = Job(path: seq<byte>, mode: nat, file: seq<byte>) {
    predicate WellFormed() { Open(path, mode).WellFormed() && Write(file).WellFormed() }

    function OpenBytes(): seq<byte> { MessageOf(Open(path, mode), 0) }
    function WriteBytes(): seq<byte> { MessageOf(Write(file), 0) }
    function CloseBytes(): seq<byte> { MessageOf(Close, 0) }
    function AllBytes(): seq<byte> { OpenBytes() + WriteBytes() + CloseBytes() }
  }

  /** The response the client is blocked reading; the result of the copy is known before CLOSE. */
  datatype Awaiting = AwaitOpen | AwaitWrite | AwaitClose(ret: int) | Done(ret: int)

  datatype Cli = Cli(at: Awaiting, out: seq<byte>)

  /** A 32-bit status returned as an int. */
  function ToInt(status: nat): int { if status < 0x8000_0000 then status else status - 0x1_0000_0000 }

  /** The int has 32 bits and is congruent to the status; a status below 2^31 is returned unchanged. */
  lemma ToIntIs(status: nat)
    requires status < 0x1_0000_0000
    ensures -0x8000_0000 <= ToInt(status) < 0x8000_0000 && (ToInt(status) - status) % 0x1_0000_0000 == 0
    ensures status < 0x8000_0000 ==> ToInt(status) == status
  {
  }

  /** msg_get_resp, on a complete header. */
  function GetResp(h: Header, command: nat): int {
    if h.version != 0 || h.len < HEADER then -1
    else if h.len != HEADER || h.command != RespCommand(command) then -1
    else ToInt(h.data)
  }

  /** The status of a response on the wire as a C int; -1 for anything that is not a response to the command. */
  function SignedFour(s: seq<byte>, at: nat): int
    requires at + 4 <= |s|
  {
    if Four(s, at) < 0x8000_0000 then Four(s, at) else Four(s, at) - 0x1_0000_0000
  }

  /** Exactly the responses to the command count: version 0, the command with the response bit, length 16. */
  lemma GetRespBytes(s: seq<byte>, command: nat)
    requires |s| == 16 && command < 0x80
    ensures GetResp(DecodeHeader(s), command)
         == if s[0] == 0 && s[1] == 0x80 + command && Two(s, 2) == 16 then SignedFour(s, 4) else -1
  {
    HeaderLayout(s);
  }

  /** After an OPEN that failed the client gives up; after the WRITE it closes in any case. */
  function OnResponse(job: Job, c: Cli, h: Header): Cli {
    match c.at
    case AwaitOpen =>
      var ret := GetResp(h, CMD_OPEN);
      if ret != 0 then c.(at := Done(ret)) else Cli(AwaitWrite, c.out + job.WriteBytes())
    case AwaitWrite => Cli(AwaitClose(GetResp(h, CMD_WRITE)), c.out + job.CloseBytes())
    case AwaitClose(ret) => c.(at := Done(ret))
    case Done(_) => c
  }

  /** The server has closed the connection before the response was complete. */
  function OnEnd(job: Job, c: Cli): Cli {
    match c.at
    case AwaitOpen => c.(at := Done(-1))
    case AwaitWrite => Cli(Done(-1), c.out + job.CloseBytes())
    case AwaitClose(ret) => c.(at := Done(ret))
    case Done(_) => c
  }

  function ClientOf(job: Job): Machine<Cli> {
    Machine((c: Cli) => if c.at.Done? then 0 else HEADER,
            (c: Cli, got: seq<byte>) => if |got| == HEADER then OnResponse(job, c, DecodeHeader(got)) else c,
            (c: Cli, got: seq<byte>) => OnEnd(job, c))
  }

  /** client_run once connected: OPEN is sent. */
  function Start(job: Job): Reader<Cli> { Reader(Cli(AwaitOpen, job.OpenBytes()), [], 0) }

  /** The client after reading the responses s, in closed form. */
  function After(job: Job, s: seq<byte>): Reader<Cli> {
    var o, w, c := job.OpenBytes(), job.WriteBytes(), job.CloseBytes();
    if |s| < HEADER then Reader(Cli(AwaitOpen, o), s, |s|) else
    var openRet := GetResp(DecodeHeader(s[..HEADER]), CMD_OPEN);
    if openRet != 0 then Reader(Cli(Done(openRet), o), [], HEADER)
    else if |s| < 2 * HEADER then Reader(Cli(AwaitWrite, o + w), s[HEADER..], |s|) else
    var ret := GetResp(DecodeHeader(s[HEADER..2 * HEADER]), CMD_WRITE);
    if |s| < 3 * HEADER then Reader(Cli(AwaitClose(ret), o + w + c), s[2 * HEADER..], |s|)
    else Reader(Cli(Done(ret), o + w + c), [], 3 * HEADER)
  }

  lemma FeedShort(job: Job, r: Reader<Cli>, s: seq<byte>)
    requires !r.state.at.Done? && r.got == [] && |s| < HEADER
    ensures Sound(ClientOf(job), r) && Feed(ClientOf(job), r, s) == Reader(r.state, s, r.used + |s|)
  {
    assert [] + s == s;
  }

  lemma FeedResponse(job: Job, r: Reader<Cli>, s: seq<byte>)
    requires !r.state.at.Done? && r.got == [] && |s| >= HEADER
    ensures var r1 := Reader(OnResponse(job, r.state, DecodeHeader(s[..HEADER])), [], r.used + HEADER);
            && Sound(ClientOf(job), r) && Sound(ClientOf(job), r1)
            && Feed(ClientOf(job), r, s) == Feed(ClientOf(job), r1, s[HEADER..])
  {
    assert s == s[..HEADER] + s[HEADER..];
    FeedBlock(ClientOf(job), r, s[..HEADER], s[HEADER..]);
  }

  /** Whatever the server answers, the client's state and all it has sent depend on the bytes read alone. */
  lemma ClientAfter(job: Job, s: seq<byte>)
    ensures Sound(ClientOf(job), Start(job))
    ensures Feed(ClientOf(job), Start(job), s) == After(job, s)
  {
    var r := Start(job);
    if |s| < HEADER {
      FeedShort(job, r, s);
    } else {
      FeedResponse(job, r, s);
      var openRet := GetResp(DecodeHeader(s[..HEADER]), CMD_OPEN);
      if openRet != 0 {
        FeedNothing(ClientOf(job), Reader(r.state.(at := Done(openRet)), [], HEADER), s[HEADER..]);
      } else {
        ClientAfterOpen(job, s);
      }
    }
  }

  lemma ClientAfterOpen(job: Job, s: seq<byte>)
    requires |s| >= HEADER && GetResp(DecodeHeader(s[..HEADER]), CMD_OPEN) == 0
    ensures var r := Reader(Cli(AwaitWrite, job.OpenBytes() + job.WriteBytes()), [], HEADER);
            Sound(ClientOf(job), r) && Feed(ClientOf(job), r, s[HEADER..]) == After(job, s)
  {
    var r, t := Reader(Cli(AwaitWrite, job.OpenBytes() + job.WriteBytes()), [], HEADER), s[HEADER..];
    if |t| < HEADER {
      FeedShort(job, r, t);
    } else {
      FeedResponse(job, r, t);
      assert t[..HEADER] == s[HEADER..2 * HEADER] && t[HEADER..] == s[2 * HEADER..];
      var ret := GetResp(DecodeHeader(t[..HEADER]), CMD_WRITE);
      var r2 := Reader(Cli(AwaitClose(ret), job.AllBytes()), [], 2 * HEADER);
      var u := s[2 * HEADER..];
      if |u| < HEADER {
        FeedShort(job, r2, u);
      } else {
        FeedResponse(job, r2, u);
        FeedNothing(ClientOf(job), Reader(Cli(Done(ret), job.AllBytes()), [], 3 * HEADER), u[HEADER..]);
      }
    }
  }
}
