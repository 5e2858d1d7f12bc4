/** The client program of `rcopy.c` in its own form: `client_run` and the calls it makes once connected, with
 * every way they can fail: the source file, sends that are refused or cut short, and any stream of responses.
 */
module RcopyClient {

  import opened Wire
  import opened BlockingReader
  import opened CopyClient
  import opened RcopyServer

  /** How the preparation of the source file ends: open and fstat give a negative code. */
  datatype Local = OpenFails(ret: int) | StatFails(ret: int) | MapFails(ret: int) | AllocFails | Prepared {
    predicate Plausible() {
      match this
      case OpenFails(ret) => ret < 0
      case StatFails(ret) => ret < 0
      case MapFails(ret) => ret > 0
      case _ => true
    }

    function Code(): int {
      match this
      case OpenFails(ret) => ret
      case StatFails(ret) => ret
      case MapFails(ret) => ret
      case AllocFails => -1
      case Prepared => 0
    }
  }

  /** How many bytes each send of the client takes at most. */
  datatype Limits = Limits(open: int, write: int, payload: int, close: int) {
    /** No send is cut short. */
    predicate Whole(job: Job) {
      && open >= |job.OpenBytes()| && write >= HEADER + SIZE_FIELD
      && payload >= |job.file| && close >= HEADER
    }
  }

  // ---------------------------------------------------------------------------------------------
  // What the client does
  // ---------------------------------------------------------------------------------------------

  /** The result of a call, what it has sent, and how many bytes it has read. */
  datatype Ran = Ran(ret: int, out: seq<byte>, used: nat)

  /** The header and the size field of the WRITE. */
  function WriteHeader(job: Job): (r: seq<byte>)
    ensures |r| == 24
  {
    EncodeHeader(HeaderOf(Write(job.file), 0)) + LeBytes(SIZE_FIELD, |job.file|)
  }

  /** A size_t, or -1 in one, cast to int. */
  function CastToInt(n: int): int { ToInt(n % 0x1_0000_0000) }

  /** The result of waiting for a response with the stream s ahead. */
  function RespOf(s: seq<byte>, command: nat): int {
    if |s| < HEADER then -1 else GetResp(DecodeHeader(s[..HEADER]), command)
  }

  function RespUsed(s: seq<byte>): nat { if |s| < HEADER then |s| else HEADER }

  /** client_open */
  function OpenRan(job: Job, local: Local, limit: int, s: seq<byte>): Ran {
    if !local.Prepared? then Ran(local.Code(), [], 0) else
    var n := Accepted(limit, |job.OpenBytes()|);
    if n != |job.OpenBytes()| then Ran(n, Taken(job.OpenBytes(), n), 0)
    else Ran(RespOf(s, CMD_OPEN), job.OpenBytes(), RespUsed(s))
  }

  /** client_start_write, the payload and its response. */
  function WriteRan(job: Job, limits: Limits, s: seq<byte>): Ran {
    var n := Accepted(limits.write, HEADER + SIZE_FIELD);
    if n != HEADER + SIZE_FIELD then Ran(n, Taken(WriteHeader(job), n), 0) else
    var payload := PayloadRan(job, limits.payload, s);
    Ran(payload.ret, WriteHeader(job) + payload.out, payload.used)
  }

  function PayloadRan(job: Job, limit: int, s: seq<byte>): Ran {
    var m := Accepted(limit, |job.file|);
    if m != |job.file| then Ran(CastToInt(m), Taken(job.file, m), 0)
    else Ran(RespOf(s, CMD_WRITE), job.file, RespUsed(s))
  }

  /** client_close */
  function CloseRan(job: Job, limit: int, s: seq<byte>): Ran {
    var n := Accepted(limit, HEADER);
    if n != HEADER then Ran(n, Taken(job.CloseBytes(), n), 0)
    else Ran(RespOf(s, CMD_CLOSE), job.CloseBytes(), RespUsed(s))
  }

  /** client_run, once connected. */
  function ClientRan(job: Job, local: Local, limits: Limits, s: seq<byte>): Ran {
    var open := OpenRan(job, local, limits.open, s);
    if open.ret != 0 then open else
    var write := WriteRan(job, limits, s[open.used..]);
    var close := CloseRan(job, limits.close, s[open.used + write.used..]);
    Ran(write.ret, open.out + write.out + close.out, open.used + write.used + close.used)
  }

  /** The status of the response to a command that the bytes s begin with, or -1. */
  function StatusBytes(s: seq<byte>, command: nat): int {
    if |s| >= 16 && s[0] == 0 && s[1] == 0x80 + command && Two(s, 2) == 16 then SignedFour(s, 4) else -1
  }

  lemma RespOfBytes(s: seq<byte>, command: nat)
    requires command < 0x80
    ensures RespOf(s, command) == StatusBytes(s, command)
  {
    if |s| >= 16 { GetRespBytes(s[..16], command); }
  }

  /** What a send with this limit puts on the wire, and the code of a send that is not whole. */
  function Sent(s: seq<byte>, limit: int): seq<byte> {
    if limit <= 0 then [] else if limit < |s| then s[..limit] else s
  }

  function ShortCode(limit: int): int { if limit <= 0 then -1 else limit }

  /** The client stops at the first thing that goes wrong, and returns just that: the code of the call on the
   * source file, the result of a send that is not whole, or the status of a response. Once its OPEN was
   * answered well it always sends its CLOSE.
   */
  lemma FirstFailure(job: Job, local: Local, limits: Limits, s: seq<byte>)
    requires job.WellFormed() && local.Plausible()
    ensures var ran := ClientRan(job, local, limits, s);
            var close := Sent(job.CloseBytes(), limits.close);
            match local
            case OpenFails(ret) => ran == Ran(ret, [], 0)
            case StatFails(ret) => ran == Ran(ret, [], 0)
            case MapFails(ret) => ran == Ran(ret, [], 0)
            case AllocFails => ran == Ran(-1, [], 0)
            case Prepared =>
              if limits.open < |job.OpenBytes()| then
                ran == Ran(ShortCode(limits.open), Sent(job.OpenBytes(), limits.open), 0)
              else if StatusBytes(s, 1) != 0 then
                ran == Ran(StatusBytes(s, 1), job.OpenBytes(), if |s| < 16 then |s| else 16)
              else if limits.write < 24 then
                && ran.ret == ShortCode(limits.write)
                && ran.out == job.OpenBytes() + Sent(WriteHeader(job), limits.write) + close
              else if limits.payload < |job.file| then
                && ran.ret == CastToInt(ShortCode(limits.payload))
                && ran.out == job.OpenBytes() + (WriteHeader(job) + Sent(job.file, limits.payload)) + close
              else
                && ran.ret == StatusBytes(s[16..], 3)
                && ran.out == job.OpenBytes() + job.WriteBytes() + close
  {
    RespOfBytes(s, 1);
    var open := OpenRan(job, local, limits.open, s);
    if open.ret == 0 {
      WriteFailure(job, limits, s[16..]);
      var write := WriteRan(job, limits, s[16..]);
      CloseSends(job, limits.close, s[open.used + write.used..]);
    }
  }

  lemma WriteFailure(job: Job, limits: Limits, t: seq<byte>)
    requires job.WellFormed()
    ensures var ran := WriteRan(job, limits, t);
            if limits.write < 24 then
              ran.ret == ShortCode(limits.write) && ran.out == Sent(WriteHeader(job), limits.write)
            else if limits.payload < |job.file| then
              && ran.ret == CastToInt(ShortCode(limits.payload))
              && ran.out == WriteHeader(job) + Sent(job.file, limits.payload)
            else ran.ret == StatusBytes(t, 3) && ran.out == job.WriteBytes()
  {
    RespOfBytes(t, 3);
  }

  lemma CloseSends(job: Job, limit: int, t: seq<byte>)
    ensures CloseRan(job, limit, t).out == Sent(job.CloseBytes(), limit)
  {
  }

  /** A size_t that fits 31 bits and the -1 of a failed send are the int of that value. */
  lemma CastIs(n: int)
    requires -1 <= n
    ensures n < 0x8000_0000 ==> CastToInt(n) == n
    ensures -0x8000_0000 <= CastToInt(n) < 0x8000_0000 && (CastToInt(n) - n) % 0x1_0000_0000 == 0
  {
    if n >= 0x8000_0000 {
      var q, r := n / 0x1_0000_0000, n % 0x1_0000_0000;
      assert n == q * 0x1_0000_0000 + r;
    }
  }

  /** The client reports success exactly when it has prepared its file, its OPEN and the header of its WRITE
   * were sent whole, the first response is good, and either the payload was sent whole and the second
   * response is good, or the payload was cut short after a multiple of 2^32 bytes.
   */
  lemma ReportsZeroIff(job: Job, local: Local, limits: Limits, s: seq<byte>)
    requires job.WellFormed() && local.Plausible()
    ensures ClientRan(job, local, limits, s).ret == 0 <==>
              && local.Prepared?
              && limits.open >= |job.OpenBytes()| && StatusBytes(s, 1) == 0
              && limits.write >= 24
              && (if limits.payload >= |job.file| then StatusBytes(s[16..], 3) == 0
                  else limits.payload > 0 && limits.payload % 0x1_0000_0000 == 0)
  {
    RespOfBytes(s, 1);
    if |s| >= 16 { RespOfBytes(s[16..], 3); }
    var open := OpenRan(job, local, limits.open, s);
    assert |job.OpenBytes()| > 0;
    if open.ret == 0 && limits.payload < |job.file| {
      var m := Accepted(limits.payload, |job.file|);
      assert CastToInt(m) == 0 <==> m % 0x1_0000_0000 == 0;
      assert (-1) % 0x1_0000_0000 == 0xFFFF_FFFF;
    }
  }

  /** When the file is prepared and every send is taken whole, the client is the one of the network. */
  lemma RunIsSession(job: Job, local: Local, limits: Limits, s: seq<byte>)
    requires job.WellFormed() && local.Prepared? && limits.Whole(job)
    ensures Sound(ClientOf(job), Start(job))
    ensures var ran := ClientRan(job, local, limits, s);
            Reader(Cli(Done(ran.ret), ran.out), [], ran.used) == Session(ClientOf(job), Start(job), s)
  {
    ClientAfter(job, s);
    if RespOf(s, CMD_OPEN) == 0 { RunAfterOpen(job, local, limits, s); }
  }

  lemma Rest(s: seq<byte>, a: nat, b: nat)
    requires a + b <= |s|
    ensures s[a..][b..] == s[a + b..]
  {
  }

  lemma RunAfterOpen(job: Job, local: Local, limits: Limits, s: seq<byte>)
    requires job.WellFormed() && local.Prepared? && limits.Whole(job) && |s| >= HEADER && RespOf(s, CMD_OPEN) == 0
    ensures var ran, after := ClientRan(job, local, limits, s), After(job, s);
            ran.used == after.used && Cli(Done(ran.ret), ran.out) == AtEndOf(job, after)
  {
    RanAfterOpen(job, local, limits, s);
    EndAfterOpen(job, s);
  }

  /** What the program does with whole sends and a good first response. */
  lemma RanAfterOpen(job: Job, local: Local, limits: Limits, s: seq<byte>)
    requires job.WellFormed() && local.Prepared? && limits.Whole(job) && |s| >= HEADER && RespOf(s, CMD_OPEN) == 0
    ensures ClientRan(job, local, limits, s) == Whole(job, s)
  {
    var t := s[HEADER..];
    var u := t[RespUsed(t)..];
    Rest(s, HEADER, RespUsed(t));
    RunWhole(job, limits, t, u);
  }

  function Whole(job: Job, s: seq<byte>): Ran
    requires |s| >= HEADER
  {
    var t := s[HEADER..];
    Ran(RespOf(t, CMD_WRITE), job.AllBytes(), HEADER + RespUsed(t) + RespUsed(t[RespUsed(t)..]))
  }

  lemma EndAfterOpen(job: Job, s: seq<byte>)
    requires |s| >= HEADER && RespOf(s, CMD_OPEN) == 0
    ensures var ran, after := Whole(job, s), After(job, s);
            ran.used == after.used && Cli(Done(ran.ret), ran.out) == AtEndOf(job, after)
  {
    var t := s[HEADER..];
    assert |s| >= 2 * HEADER ==> t[..HEADER] == s[HEADER..2 * HEADER];
  }

  lemma RunWhole(job: Job, limits: Limits, t: seq<byte>, u: seq<byte>)
    requires job.WellFormed() && limits.Whole(job)
    ensures WriteRan(job, limits, t) == Ran(RespOf(t, CMD_WRITE), job.WriteBytes(), RespUsed(t))
    ensures CloseRan(job, limits.close, u) == Ran(RespOf(u, CMD_CLOSE), job.CloseBytes(), RespUsed(u))
  {
    WriteParts(job);
  }

  function AtEndOf(job: Job, r: Reader<Cli>): Cli { ClientOf(job).atEnd(r.state, r.got) }

  lemma WriteParts(job: Job)
    ensures WriteHeader(job) + job.file == job.WriteBytes()
  {
  }

  // ---------------------------------------------------------------------------------------------
  // The program
  // ---------------------------------------------------------------------------------------------

  /** What the payload adds after the header. */
  lemma WriteRanIs(job: Job, limits: Limits, s: seq<byte>, before: seq<byte>, sent: seq<byte>)
    requires var n := Accepted(limits.write, 24); sent == before + Taken(WriteHeader(job), n)
    ensures var ran, n := WriteRan(job, limits, s), Accepted(limits.write, 24);
            var payload := PayloadRan(job, limits.payload, s);
            && (n == 24 ==> ran.ret == payload.ret && ran.used == payload.used
                            && before + ran.out == sent + payload.out)
            && (n != 24 ==> ran.ret == n && ran.used == 0 && before + ran.out == sent)
  {
    AllTaken(WriteHeader(job));
    JoinedTwo(before, WriteHeader(job), PayloadRan(job, limits.payload, s).out);
  }

  lemma AllTaken(s: seq<byte>)
    requires s != []
    ensures Taken(s, |s|) == s
  {
  }

  lemma JoinedTwo(before: seq<byte>, a: seq<byte>, b: seq<byte>)
    ensures before + a + b == before + (a + b)
  {
  }

  lemma Joined(before: seq<byte>, a: seq<byte>, b: seq<byte>, c: seq<byte>)
    ensures before + a + b + c == before + (a + b + c)
  {
  }

  /** `fileOpen` and `mapped` tell what the client holds of its source file. */
  class Client {
    const job: Job
    const local: Local
    const limits: Limits
    var fileOpen: bool
    var mapped: bool

    constructor (job: Job, local: Local, limits: Limits)
      ensures this.job == job && this.local == local && this.limits == limits && !fileOpen && !mapped
    {
      this.job, this.local, this.limits := job, local, limits;
      fileOpen, mapped := false, false;
    }

    /** msg_get_resp: a response that is cut off counts as a failed one. */
    method MsgGetResp(rs: Socket, command: nat) returns (ret: int)
      modifies rs`rx, rs`used
      ensures ret == RespOf(old(rs.rx), command)
      ensures rs.rx == old(rs.rx)[RespUsed(old(rs.rx))..] && rs.used == old(rs.used) + RespUsed(old(rs.rx))
    {
      var hdr;
      ret, hdr := rs.MsgRecvHdr();
      if ret != HEADER {
        return;
      }
      if hdr.len != HEADER || hdr.command != RespCommand(command) {
        return -1;
      }
      ret := ToInt(hdr.data);
    }

    /** What a call has done to the socket. */
    twostate predicate Did(rs: Socket, ran: Ran)
      reads rs
    {
      && ran.used <= |old(rs.rx)| && rs.rx == old(rs.rx)[ran.used..] && rs.used == old(rs.used) + ran.used
      && rs.tx == old(rs.tx) + ran.out
    }

    /** client_open: the source file is held exactly on success. */
    method ClientOpen(rs: Socket) returns (ret: int)
      requires local.Plausible()
      modifies this, rs
      ensures var ran := OpenRan(job, local, limits.open, old(rs.rx)); ret == ran.ret && Did(rs, ran)
      ensures fileOpen == mapped == (ret == 0)
    {
      fileOpen, mapped := false, false;
      if local.OpenFails? {
        return local.ret;
      }
      fileOpen := true;
      if local.StatFails? {
        fileOpen := false;
        return local.ret;
      }
      if local.MapFails? {
        fileOpen := false;
        return local.ret;
      }
      mapped := true;
      if local.AllocFails? {
        ReleaseFile();
        return -1;
      }
      ret := rs.Rsend(job.OpenBytes(), limits.open);
      if ret != |job.OpenBytes()| {
        ReleaseFile();
        return;
      }
      ret := MsgGetResp(rs, CMD_OPEN);
      if ret != 0 {
        ReleaseFile();
      }
    }

    method ReleaseFile()
      modifies this
      ensures !fileOpen && !mapped
    {
      mapped := false;
      fileOpen := false;
    }

    /** client_start_write: 0, or the result of a send that was not whole. */
    method ClientStartWrite(rs: Socket) returns (ret: int)
      modifies rs`tx
      ensures var n := Accepted(limits.write, HEADER + SIZE_FIELD);
              && rs.tx == old(rs.tx) + Taken(WriteHeader(job), n)
              && ret == if n == HEADER + SIZE_FIELD then 0 else n
    {
      ret := rs.Rsend(WriteHeader(job), limits.write);
      if ret == HEADER + SIZE_FIELD {
        ret := 0;
      }
    }

    /** client_close */
    method ClientClose(rs: Socket) returns (ret: int)
      modifies this, rs
      ensures var ran := CloseRan(job, limits.close, old(rs.rx)); ret == ran.ret && Did(rs, ran)
      ensures !fileOpen && !mapped
    {
      ret := rs.Rsend(job.CloseBytes(), limits.close);
      if ret == HEADER {
        ret := MsgGetResp(rs, CMD_CLOSE);
      }
      ReleaseFile();
    }

    /** client_start_write, the payload and its response. */
    method ClientWrite(rs: Socket) returns (ret: int)
      modifies rs
      ensures var ran := WriteRan(job, limits, old(rs.rx)); ret == ran.ret && Did(rs, ran)
    {
      ghost var before, s := rs.tx, rs.rx;
      ret := ClientStartWrite(rs);
      ghost var sent := rs.tx;
      if ret == 0 {
        ret := ClientPayload(rs);
      }
      WriteRanIs(job, limits, s, before, sent);
    }

    /** The payload and its response; a payload cut short gives its count as an int. */
    method ClientPayload(rs: Socket) returns (ret: int)
      modifies rs
      ensures var ran := PayloadRan(job, limits.payload, old(rs.rx)); ret == ran.ret && Did(rs, ran)
    {
      var len := rs.Rsend(job.file, limits.payload);
      if len == |job.file| {
        ret := MsgGetResp(rs, CMD_WRITE);
      } else {
        ret := CastToInt(len);
      }
    }

    /** client_run, once connected: for every stream of responses, all sizes of the reads and all cuts of the
     * sends, the result, the bytes sent and the bytes read are those of ClientRan, and the source file is
     * released.
     */
    method ClientRun(rs: Socket) returns (ret: int)
      requires local.Plausible()
      modifies this, rs
      ensures var ran := ClientRan(job, local, limits, old(rs.rx)); ret == ran.ret && Did(rs, ran)
      ensures !fileOpen && !mapped
    {
      ghost var s := rs.rx;
      ret := ClientOpen(rs);
      if ret != 0 {
        return;
      }
      ghost var open := OpenRan(job, local, limits.open, s);
      ret := ClientWrite(rs);
      ghost var write := WriteRan(job, limits, s[open.used..]);
      Rest(s, open.used, write.used);
      var _ := ClientClose(rs);
      ghost var close := CloseRan(job, limits.close, s[open.used + write.used..]);
      Rest(s, open.used + write.used, close.used);
      Joined(old(rs.tx), open.out, write.out, close.out);
      assert ClientRan(job, local, limits, s)
          == Ran(ret, open.out + write.out + close.out, open.used + write.used + close.used);
    }
  }
}
