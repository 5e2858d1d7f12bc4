/** The copy server in the form of the program: blocking reads into buffers, global file state changed by
 * the handlers, and the command loop. The reader of CopyServer is its specification.
 */
module RcopyServer {

  import opened Wire
  import opened BlockingReader
  import opened CopyServer
  import opened CopyFraming

  // ---------------------------------------------------------------------------------------------
  // One pass of the command loop, with whole reads
  // ---------------------------------------------------------------------------------------------

  /** The server after answering 0 at the end of a stream that stopped inside a message. */
  function AnswerEnd(r: Reader<Srv>, hdr: Header, files: Files, read: nat): Reader<Srv> {
    Reader(Succeed(r.state.(files := files), hdr), [], r.used + read)
  }

  /** server_open with the stream s ahead. */
  function OpenPass(os: Oracle, r: Reader<Srv>, hdr: Header, s: seq<byte>): Reader<Srv>
    requires hdr.len >= HEADER
  {
    var len := hdr.len - HEADER;
    var f := r.state.files;
    if !f.mapping.Unmapped? || f.fd > 0 then Reader(Refuse(r.state, hdr, EBUSY), [], r.used)
    else if !os(r.state.pass).mallocOk then Reader(Refuse(r.state, hdr, ENOMEM), [], r.used)
    else if |s| < len then AnswerEnd(r, hdr, f, |s|)
    else Reader(OnPath(os, r.state, hdr, s[..len]), [], r.used + len)
  }

  /** server_write with the stream s ahead. */
  function WritePass(os: Oracle, r: Reader<Srv>, hdr: Header, s: seq<byte>): Reader<Srv> {
    var f := r.state.files;
    if f.fd <= 0 || hdr.len != HEADER + SIZE_FIELD then Reader(Refuse(r.state, hdr, EINVAL), [], r.used)
    else if |s| < SIZE_FIELD then AnswerEnd(r, hdr, PatchBytes(f, s), |s|)
    else
      var sized := r.state.(at := InSize(hdr), files := f.(bytes := LeValue(s[..SIZE_FIELD])));
      MapPass(os, Reader(sized, [], r.used + SIZE_FIELD), hdr, s[SIZE_FIELD..])
  }

  /** server_write once the size is known. */
  function MapPass(os: Oracle, r: Reader<Srv>, hdr: Header, s: seq<byte>): Reader<Srv> {
    var m := MapFile(os, r.state, hdr);
    if !m.at.InPayload? then Reader(m, [], r.used) else
    var got := if |s| < m.files.bytes then s else s[..m.files.bytes];
    Reader(Succeed(m.(files := Store(m.files, got)), hdr), [], r.used + |got|)
  }

  /** The switch of server_process with the stream s ahead. */
  function Dispatch(os: Oracle, r: Reader<Srv>, hdr: Header, s: seq<byte>): Reader<Srv> {
    if hdr.version == 0 && hdr.len >= HEADER && hdr.command == CMD_OPEN then OpenPass(os, r, hdr, s)
    else if hdr.version == 0 && hdr.len >= HEADER && hdr.command == CMD_WRITE then WritePass(os, r, hdr, s)
    else Reader(OnHeader(os, r.state, hdr), [], r.used)
  }

  /** One pass of server_process: at the head of the loop again, or stopped. */
  function Pass(os: Oracle, r: Reader<Srv>, s: seq<byte>): Reader<Srv> {
    if |s| < HEADER then Reader(r.state.(at := Stopped), [], r.used + |s|)
    else Dispatch(os, r.(used := r.used + HEADER), DecodeHeader(s[..HEADER]), s[HEADER..])
  }

  // ---------------------------------------------------------------------------------------------
  // A pass is what the blocking reader does
  // ---------------------------------------------------------------------------------------------

  lemma OpenGoesOn(os: Oracle, r: Reader<Srv>, hdr: Header, s: seq<byte>)
    requires AtHead(r) && Ok(r.state)
    requires hdr.version == 0 && hdr.len >= HEADER && hdr.command == CMD_OPEN
    ensures GoesOn(ServerOf(os), r.(state := OnHeader(os, r.state, hdr)), s, OpenPass(os, r, hdr, s))
  {
    var a, b := r.(state := OnHeader(os, r.state, hdr)), OpenPass(os, r, hdr, s);
    if a.state.at.InPath? {
      if |s| < hdr.len - HEADER {
        CutGoesOn(ServerOf(os), a, s, b);
      } else {
        ReadGoesOn(ServerOf(os), a, s, b);
      }
    } else {
      assert s[..0] == [];
      GoesOnHere(ServerOf(os), a, s);
    }
  }

  lemma PayloadGoesOn(os: Oracle, a: Reader<Srv>, hdr: Header, s: seq<byte>, b: Reader<Srv>)
    requires a.got == [] && a.state.at == InPayload(hdr) && a.state.files.bytes > 0
    requires var n := a.state.files.bytes;
             var got := if |s| < n then s else s[..n];
             b == Reader(Succeed(a.state.(files := Store(a.state.files, got)), hdr), [], a.used + |got|)
    ensures GoesOn(ServerOf(os), a, s, b)
  {
    if |s| < a.state.files.bytes {
      CutGoesOn(ServerOf(os), a, s, b);
    } else {
      ReadGoesOn(ServerOf(os), a, s, b);
    }
  }

  lemma MapGoesOn(os: Oracle, r: Reader<Srv>, hdr: Header, s: seq<byte>)
    requires r.got == [] && r.state.at == InSize(hdr)
    ensures GoesOn(ServerOf(os), r.(state := MapFile(os, r.state, hdr)), s, MapPass(os, r, hdr, s))
  {
    var a := r.(state := MapFile(os, r.state, hdr));
    if a.state.at.InPayload? {
      PayloadGoesOn(os, a, hdr, s, MapPass(os, r, hdr, s));
    } else {
      GoesOnHere(ServerOf(os), a, s);
    }
  }

  lemma SizeRead(os: Oracle, a: Reader<Srv>, hdr: Header, s: seq<byte>, b: Reader<Srv>)
    requires a.state.at == InSize(hdr) && a.got == [] && |s| >= SIZE_FIELD
    requires b == Reader(a.state.(files := a.state.files.(bytes := LeValue(s[..SIZE_FIELD]))), [], a.used + SIZE_FIELD)
    ensures GoesOn(ServerOf(os), a, s, b.(state := MapFile(os, b.state, hdr)))
  {
    ReadGoesOn(ServerOf(os), a, s, b.(state := MapFile(os, b.state, hdr)));
  }

  lemma SizeThenMap(os: Oracle, a: Reader<Srv>, hdr: Header, s: seq<byte>, b: Reader<Srv>)
    requires a.state.at == InSize(hdr) && a.got == [] && |s| >= SIZE_FIELD
    requires b == Reader(a.state.(files := a.state.files.(bytes := LeValue(s[..SIZE_FIELD]))), [], a.used + SIZE_FIELD)
    ensures GoesOn(ServerOf(os), a, s, MapPass(os, b, hdr, s[SIZE_FIELD..]))
  {
    var m := b.(state := MapFile(os, b.state, hdr));
    SizeRead(os, a, hdr, s, b);
    MapGoesOn(os, b, hdr, s[SIZE_FIELD..]);
    GoesOnAfter(ServerOf(os), a, s, m, MapPass(os, b, hdr, s[SIZE_FIELD..]));
  }

  lemma SizeCut(os: Oracle, a: Reader<Srv>, hdr: Header, s: seq<byte>)
    requires a.state.at == InSize(hdr) && a.got == [] && |s| < SIZE_FIELD
    ensures GoesOn(ServerOf(os), a, s, AnswerEnd(a, hdr, PatchBytes(a.state.files, s), |s|))
  {
    CutGoesOn(ServerOf(os), a, s, AnswerEnd(a, hdr, PatchBytes(a.state.files, s), |s|));
  }

  lemma SizeGoesOn(os: Oracle, r: Reader<Srv>, hdr: Header, s: seq<byte>)
    requires AtHead(r) && r.state.files.fd > 0 && hdr.len == HEADER + SIZE_FIELD
    ensures GoesOn(ServerOf(os), r.(state := r.state.(at := InSize(hdr))), s, WritePass(os, r, hdr, s))
  {
    var a := r.(state := r.state.(at := InSize(hdr)));
    if |s| < SIZE_FIELD {
      SizeCut(os, a, hdr, s);
      assert WritePass(os, r, hdr, s) == AnswerEnd(a, hdr, PatchBytes(a.state.files, s), |s|);
    } else {
      var files := a.state.files.(bytes := LeValue(s[..SIZE_FIELD]));
      var b := Reader(a.state.(files := files), [], r.used + SIZE_FIELD);
      SizeThenMap(os, a, hdr, s, b);
      assert WritePass(os, r, hdr, s) == MapPass(os, b, hdr, s[SIZE_FIELD..]);
    }
  }

  lemma DispatchGoesOn(os: Oracle, r: Reader<Srv>, hdr: Header, s: seq<byte>)
    requires AtHead(r) && Ok(r.state)
    ensures GoesOn(ServerOf(os), r.(state := OnHeader(os, r.state, hdr)), s, Dispatch(os, r, hdr, s))
  {
    if hdr.version == 0 && hdr.len >= HEADER && hdr.command == CMD_OPEN {
      OpenGoesOn(os, r, hdr, s);
    } else if hdr.version == 0 && hdr.len >= HEADER && hdr.command == CMD_WRITE
              && r.state.files.fd > 0 && hdr.len == HEADER + SIZE_FIELD {
      SizeGoesOn(os, r, hdr, s);
    } else {
      GoesOnHere(ServerOf(os), r.(state := OnHeader(os, r.state, hdr)), s);
    }
  }

  lemma HeaderGoesOn(os: Oracle, r: Reader<Srv>, s: seq<byte>)
    requires AtHead(r)
    ensures if |s| >= HEADER then
              GoesOn(ServerOf(os), r, s, Reader(OnHeader(os, r.state, DecodeHeader(s[..HEADER])), [], r.used + HEADER))
            else
              GoesOn(ServerOf(os), r, s, Reader(r.state.(at := Stopped), [], r.used + |s|))
  {
    if |s| >= HEADER {
      ReadGoesOn(ServerOf(os), r, s,
                 Reader(OnHeader(os, r.state, DecodeHeader(s[..HEADER])), [], r.used + HEADER));
    } else {
      CutGoesOn(ServerOf(os), r, s, Reader(r.state.(at := Stopped), [], r.used + |s|));
    }
  }

  /** A pass with whole reads is what the blocking reader does with the same bytes, however they arrive. */
  lemma PassGoesOn(os: Oracle, r: Reader<Srv>, s: seq<byte>) returns (r': Reader<Srv>)
    requires AtHead(r) && Ok(r.state)
    ensures r' == Pass(os, r, s) && GoesOn(ServerOf(os), r, s, r')
    ensures AtHead(r') ==> r'.used > r.used
  {
    HeaderGoesOn(os, r, s);
    if |s| >= HEADER {
      var hdr, b := DecodeHeader(s[..HEADER]), r.(used := r.used + HEADER);
      DispatchGoesOn(os, b, hdr, s[HEADER..]);
      r' := Dispatch(os, b, hdr, s[HEADER..]);
      GoesOnAfter(ServerOf(os), r, s, b.(state := OnHeader(os, r.state, hdr)), r');
    } else {
      r' := Reader(r.state.(at := Stopped), [], r.used + |s|);
    }
  }

  /** A pass keeps what the server relies on, and ends at the head of the loop or with the server stopped. */
  lemma PassOk(os: Oracle, r: Reader<Srv>, s: seq<byte>)
    requires AtHead(r) && Ok(r.state)
    ensures Ok(Pass(os, r, s).state) && (AtHead(Pass(os, r, s)) || Halted(Pass(os, r, s)))
  {
    if |s| >= HEADER {
      var b, hdr, t := r.(used := r.used + HEADER), DecodeHeader(s[..HEADER]), s[HEADER..];
      if hdr.version == 0 && hdr.len >= HEADER && hdr.command == CMD_OPEN {
        OpenPassOk(os, b, hdr, t);
      } else if hdr.version == 0 && hdr.len >= HEADER && hdr.command == CMD_WRITE {
        WritePassOk(os, b, hdr, t);
      }
    }
  }

  /** A pass ends well: at the head of the loop or with the server stopped. */
  predicate Between(r: Reader<Srv>) { Ok(r.state) && (AtHead(r) || Halted(r)) }

  lemma OpenPassOk(os: Oracle, r: Reader<Srv>, hdr: Header, s: seq<byte>)
    requires AtHead(r) && Ok(r.state) && hdr.len >= HEADER
    ensures Between(OpenPass(os, r, hdr, s))
  {
  }

  lemma WritePassOk(os: Oracle, r: Reader<Srv>, hdr: Header, s: seq<byte>)
    requires AtHead(r) && Ok(r.state)
    ensures Between(WritePass(os, r, hdr, s))
  {
  }

  lemma NextPass(os: Oracle, r: Reader<Srv>, s: seq<byte>) returns (r': Reader<Srv>)
    requires AtHead(r) && Ok(r.state)
    ensures r' == Pass(os, r, s) && Ok(r'.state) && (AtHead(r') || Halted(r'))
    ensures r.used <= r'.used <= r.used + |s| && (AtHead(r') ==> r'.used > r.used)
    ensures Session(ServerOf(os), r', s[r'.used - r.used..]) == Session(ServerOf(os), r, s)
  {
    PassOk(os, r, s);
    r' := PassGoesOn(os, r, s);
  }

  lemma SessionHalted(os: Oracle, r: Reader<Srv>, s: seq<byte>)
    requires Halted(r)
    ensures Sound(ServerOf(os), r) && Session(ServerOf(os), r, s) == r
  {
    FeedNothing(ServerOf(os), r, s);
  }

  // ---------------------------------------------------------------------------------------------
  // The program
  // ---------------------------------------------------------------------------------------------

  /** A stream socket whose peer has sent `rx` and then closes; `tx` holds what was sent to the peer. */
  class Socket {
    var rx: seq<byte>
    var tx: seq<byte>
    ghost var used: nat

    constructor (rx: seq<byte>)
      ensures this.rx == rx && tx == [] && used == 0
    {
      this.rx, tx, used := rx, [], 0;
    }

    /** rrecv: any positive number of bytes up to `len`, or 0 at the end of the stream. */
    method Rrecv(buf: array<byte>, at: nat, len: nat) returns (n: nat)
      requires len > 0 && at + len <= buf.Length
      modifies this`rx, this`used, buf
      ensures n <= len && n <= |old(rx)| && (n == 0 <==> old(rx) == [])
      ensures rx == old(rx)[n..] && used == old(used) + n
      ensures forall i :: 0 <= i < n ==> buf[at + i] == old(rx)[i]
      ensures forall i :: 0 <= i < buf.Length && !(at <= i < at + n) ==> buf[i] == old(buf[i])
    {
      if rx == [] {
        return 0;
      }
      n :| 1 <= n <= len && n <= |rx|;
      forall i | 0 <= i < n {
        buf[at + i] := rx[i];
      }
      rx := rx[n..];
      used := used + n;
    }

    /** _recv: whatever the sizes rrecv chooses, the result of one full read. */
    method Recv(buf: array<byte>, len: nat) returns (ret: nat)
      requires len <= buf.Length
      modifies this`rx, this`used, buf
      ensures var got := if |old(rx)| >= len then len else |old(rx)|;
              && ret == (if |old(rx)| >= len then len else 0)
              && rx == old(rx)[got..] && used == old(used) + got
              && buf[..got] == old(rx)[..got]
              && buf[got..] == old(buf[got..])
    {
      var offset := 0;
      while offset < len
        invariant offset <= len && offset <= |old(rx)|
        invariant rx == old(rx)[offset..] && used == old(used) + offset
        invariant forall i :: 0 <= i < offset ==> buf[i] == old(rx)[i]
        invariant forall i :: offset <= i < buf.Length ==> buf[i] == old(buf[i])
        decreases len - offset
      {
        ret := Rrecv(buf, offset, len - offset);
        if ret == 0 {
          return;
        }
        offset := offset + ret;
      }
      ret := len;
    }

    /** msg_recv_hdr: a header that is cut off or invalid gives -1. */
    method MsgRecvHdr() returns (ret: int, hdr: Header)
      modifies this`rx, this`used
      ensures if |old(rx)| < HEADER then ret == -1 && rx == [] && used == old(used) + |old(rx)|
              else
                && hdr == DecodeHeader(old(rx)[..HEADER])
                && rx == old(rx)[HEADER..] && used == old(used) + HEADER
                && ret == if hdr.version != 0 || hdr.len < HEADER then -1 else HEADER
    {
      var buf := new byte[HEADER];
      var n := Recv(buf, HEADER);
      if n != HEADER {
        return -1, Header(0, 0, 0, 0, 0);
      }
      hdr := DecodeHeader(buf[..]);
      assert buf[..] == buf[..HEADER];
      if hdr.version != 0 || hdr.len < HEADER {
        return -1, hdr;
      }
      ret := HEADER;
    }

    /** rsend: at most `limit` bytes are taken, and an error when it is not positive. */
    method Rsend(data: seq<byte>, limit: int) returns (n: int)
      modifies this`tx
      ensures n == Accepted(limit, |data|) && tx == old(tx) + Taken(data, n)
    {
      n := Accepted(limit, |data|);
      tx := tx + Taken(data, n);
    }
  }

  /** The result of a send of len bytes. */
  function Accepted(limit: int, len: nat): (n: int)
    ensures n == -1 || 0 <= n <= len
  {
    if limit <= 0 then -1 else if limit < len then limit else len
  }

  /** What a send with this result has sent. */
  function Taken(data: seq<byte>, n: int): seq<byte>
    requires n <= |data|
  {
    if n <= 0 then [] else data[..n]
  }

  class Server {
    const os: Oracle
    var fd: int
    var fileAddr: Mapping
    var bytes: nat
    var target: seq<byte>
    var disk: map<seq<byte>, seq<byte>>
    var pass: nat

    constructor (os: Oracle)
      ensures this.os == os && fd == 0 && fileAddr == Unmapped && bytes == 0 && disk == map[] && pass == 0
    {
      this.os := os;
      fd, fileAddr, bytes, target, disk, pass := 0, Unmapped, 0, [], map[], 0;
    }

    ghost function View(): Files
      reads this
    {
      Files(fd, fileAddr, bytes, target, disk)
    }

    /** The server at `at`, having read and sent what the socket shows. */
    ghost function Now(rs: Socket, at: Reading): Reader<Srv>
      reads this, rs
    {
      Reader(Srv(View(), at, rs.tx, pass), [], rs.used)
    }

    /** Where the loop stands once a handler has returned `ret`. */
    static ghost function After(ret: int): Reading { if ret == 0 then InHeader else Stopped }

    /** msg_send_resp, which does not look at the result of the send; the next message takes the next entry
     * of the oracle.
     */
    method MsgSendResp(rs: Socket, hdr: Header, status: nat)
      modifies rs`tx, this`pass
      ensures rs.tx == old(rs.tx) + EncodeHeader(Response(hdr, status)) && pass == old(pass) + 1
    {
      var _ := rs.Rsend(EncodeHeader(Response(hdr, status)), HEADER);
      pass := pass + 1;
    }

    /** server_open */
    method ServerOpen(rs: Socket, hdr: Header) returns (ret: int)
      requires hdr.len >= HEADER
      modifies this, rs
      ensures Now(rs, After(ret)) == OpenPass(os, old(Now(rs, InHeader)), hdr, old(rs.rx))
      ensures rs.used >= old(rs.used) && rs.used - old(rs.used) <= |old(rs.rx)|
      ensures rs.rx == old(rs.rx)[rs.used - old(rs.used)..]
    {
      var answer := os(pass);
      if fileAddr != Unmapped || fd > 0 {
        MsgSendResp(rs, hdr, EBUSY);
        return EBUSY;
      }
      if !answer.mallocOk {
        MsgSendResp(rs, hdr, ENOMEM);
        return ENOMEM;
      }
      var len := hdr.len - HEADER;
      var path := new byte[len];
      var n := rs.Recv(path, len);
      if n != len {
        MsgSendResp(rs, hdr, 0);
        return 0;
      }
      assert path[..] == path[..len];
      ret := OpenTarget(rs, hdr, path[..]);
    }

    /** server_open once the path is known. */
    method OpenTarget(rs: Socket, hdr: Header, path: seq<byte>) returns (ret: int)
      modifies this, rs`tx
      ensures Now(rs, After(ret)) == var r := old(Now(rs, InHeader)); r.(state := OnPath(os, r.state, hdr, path))
    {
      var answer := os(pass);
      if answer.openFd < 0 {
        fd := -1;
        MsgSendResp(rs, hdr, answer.error);
        return answer.error;
      }
      fd := answer.openFd;
      target := CString(path);
      disk := disk[target := []];
      MsgSendResp(rs, hdr, 0);
      ret := 0;
    }

    /** server_close */
    method ServerClose(rs: Socket, hdr: Header)
      modifies this, rs
      ensures Now(rs, InHeader)
           == var r := old(Now(rs, InHeader)); r.(state := Succeed(r.state.(files := CloseFiles(r.state.files)), hdr))
      ensures rs.rx == old(rs.rx)
    {
      MsgSendResp(rs, hdr, 0);
      if fileAddr != Unmapped {
        fileAddr := Unmapped;
      }
      if fd > 0 {
        fd := 0;
      }
    }

    /** server_write */
    method ServerWrite(rs: Socket, hdr: Header) returns (ret: int)
      modifies this, rs
      ensures Now(rs, After(ret)) == WritePass(os, old(Now(rs, InHeader)), hdr, old(rs.rx))
      ensures rs.used >= old(rs.used) && rs.used - old(rs.used) <= |old(rs.rx)|
      ensures rs.rx == old(rs.rx)[rs.used - old(rs.used)..]
    {
      if fd <= 0 {
        MsgSendResp(rs, hdr, EINVAL);
        return EINVAL;
      }
      if hdr.len != HEADER + SIZE_FIELD {
        MsgSendResp(rs, hdr, EINVAL);
        return EINVAL;
      }
      var n := ReceiveSize(rs);
      if n != SIZE_FIELD {
        MsgSendResp(rs, hdr, 0);
        return 0;
      }
      ret := MapAndReceive(rs, hdr);
    }

    /** The size is received into the variable itself; a stream that ends early changes its low bytes. */
    method ReceiveSize(rs: Socket) returns (n: nat)
      modifies this`bytes, rs`rx, rs`used
      ensures var s := old(rs.rx);
              if |s| < SIZE_FIELD then
                && n == 0 && View() == PatchBytes(old(View()), s)
                && rs.rx == [] && rs.used == old(rs.used) + |s|
              else
                && n == SIZE_FIELD && bytes == LeValue(s[..SIZE_FIELD])
                && rs.rx == s[SIZE_FIELD..] && rs.used == old(rs.used) + SIZE_FIELD
    {
      var before := LeBytes(SIZE_FIELD, bytes);
      var size := new byte[SIZE_FIELD](i requires 0 <= i < SIZE_FIELD => before[i]);
      assert size[..] == before;
      n := rs.Recv(size, SIZE_FIELD);
      ghost var s := old(rs.rx);
      ghost var got := if |s| < SIZE_FIELD then |s| else SIZE_FIELD;
      assert size[..] == size[..got] + size[got..] == s[..got] + before[got..];
      assert size[..] == if |s| < SIZE_FIELD then s + before[|s|..] else s[..SIZE_FIELD];
      bytes := LeValue(size[..]);
    }

    /** server_write once the size is known. */
    method MapAndReceive(rs: Socket, hdr: Header) returns (ret: int)
      modifies this, rs
      ensures Now(rs, After(ret)) == MapPass(os, old(Now(rs, InSize(hdr))), hdr, old(rs.rx))
      ensures rs.used >= old(rs.used) && rs.used - old(rs.used) <= |old(rs.rx)|
      ensures rs.rx == old(rs.rx)[rs.used - old(rs.used)..]
    {
      ret := MapTarget(rs, hdr);
      if ret != 0 {
        return;
      }
      ghost var mapped, s := Now(rs, InPayload(hdr)), rs.rx;
      ReceiveFile(rs);
      ghost var got := if |s| < bytes then s else s[..bytes];
      assert Now(rs, InPayload(hdr))
          == mapped.(state := mapped.state.(files := Store(mapped.state.files, got)), used := mapped.used + |got|);
      MsgSendResp(rs, hdr, 0);
    }

    /** ftruncate and mmap: 0 with the file mapped, or the response with the error. */
    method MapTarget(rs: Socket, hdr: Header) returns (ret: int)
      modifies this, rs`tx
      ensures Now(rs, if ret == 0 then InPayload(hdr) else Stopped)
           == var r := old(Now(rs, InSize(hdr))); r.(state := MapFile(os, r.state, hdr))
      ensures ret == 0 ==> |Contents(View())| == bytes
    {
      var answer := os(pass);
      if !answer.truncateOk {
        MsgSendResp(rs, hdr, MINUS_ONE);
        return -1;
      }
      disk := disk[target := Resize(if target in disk then disk[target] else [], bytes)];
      if !answer.mmapOk || bytes == 0 {
        fileAddr := MapFailed;
        MsgSendResp(rs, hdr, answer.error);
        return answer.error;
      }
      fileAddr := Mapped;
      ret := 0;
    }

    /** The payload goes straight into the mapped file. A stream that ends early leaves the return value,
     * and so the status, at 0.
     */
    method ReceiveFile(rs: Socket)
      requires |Contents(View())| == bytes
      modifies this`disk, rs`rx, rs`used
      ensures var s := old(rs.rx);
              var got := if |s| < bytes then s else s[..bytes];
              && View() == Store(old(View()), got)
              && rs.used == old(rs.used) + |got| && rs.rx == s[|got|..]
    {
      var contents := if target in disk then disk[target] else [];
      var n0 := bytes;
      var file := new byte[n0](i requires 0 <= i < n0 => contents[i]);
      assert file[..] == contents;
      var n := rs.Recv(file, n0);
      ghost var s := old(rs.rx);
      ghost var got := if |s| < n0 then s else s[..n0];
      assert s[..|got|] == got;
      assert file[..] == file[..|got|] + file[|got|..];
      disk := disk[target := file[..]];
    }

    /** The switch of the command loop. */
    method HandleMessage(rs: Socket, hdr: Header) returns (ret: int)
      requires hdr.version == 0 && hdr.len >= HEADER
      modifies this, rs
      ensures Now(rs, After(ret)) == Dispatch(os, old(Now(rs, InHeader)), hdr, old(rs.rx))
      ensures rs.used >= old(rs.used) && rs.used - old(rs.used) <= |old(rs.rx)|
      ensures rs.rx == old(rs.rx)[rs.used - old(rs.used)..]
    {
      if hdr.command == CMD_OPEN {
        ret := ServerOpen(rs, hdr);
      } else if hdr.command == CMD_CLOSE {
        ServerClose(rs, hdr);
        ret := 0;
      } else if hdr.command == CMD_WRITE {
        ret := ServerWrite(rs, hdr);
      } else {
        MsgSendResp(rs, hdr, EINVAL);
        ret := -1;
      }
    }

    /** The body of the command loop. */
    method ServerPass(rs: Socket) returns (ret: int)
      modifies this, rs
      ensures Now(rs, After(ret)) == Pass(os, old(Now(rs, InHeader)), old(rs.rx))
      ensures rs.used >= old(rs.used) && rs.used - old(rs.used) <= |old(rs.rx)|
      ensures rs.rx == old(rs.rx)[rs.used - old(rs.used)..]
    {
      var hdr;
      ret, hdr := rs.MsgRecvHdr();
      if ret != HEADER {
        return;
      }
      ghost var s := rs.rx;
      ret := HandleMessage(rs, hdr);
      assert s[rs.used - old(rs.used) - HEADER..] == old(rs.rx)[rs.used - old(rs.used)..];
    }

    /** A pass does not change how the session ends. */
    method SessionPass(rs: Socket) returns (ret: int)
      requires Ok(Now(rs, InHeader).state)
      modifies this, rs
      ensures Ok(Now(rs, After(ret)).state)
      ensures Session(ServerOf(os), Now(rs, After(ret)), rs.rx)
           == Session(ServerOf(os), old(Now(rs, InHeader)), old(rs.rx))
      ensures |rs.rx| + rs.used == |old(rs.rx)| + old(rs.used)
      ensures rs.used >= old(rs.used) && (ret == 0 ==> rs.used > old(rs.used))
    {
      ghost var start, s := Now(rs, InHeader), rs.rx;
      ghost var end := NextPass(os, start, s);
      ret := ServerPass(rs);
      assert Now(rs, After(ret)) == end && rs.rx == s[end.used - start.used..];
    }

    /** server_process: for every stream and every sizes of the reads, the session of the blocking reader. */
    method ServerProcess(rs: Socket)
      requires Ok(Now(rs, InHeader).state)
      modifies this, rs
      ensures Now(rs, Stopped) == Session(ServerOf(os), old(Now(rs, InHeader)), old(rs.rx))
      ensures fileAddr != Unmapped ==> fd > 0
    {
      ghost var session := Session(ServerOf(os), Now(rs, InHeader), rs.rx);
      var ret := 0;
      while ret == 0
        invariant Ok(Now(rs, After(ret)).state)
        invariant Session(ServerOf(os), Now(rs, After(ret)), rs.rx) == session
        decreases |rs.rx| + if ret == 0 then 1 else 0
      {
        ret := SessionPass(rs);
      }
      SessionHalted(os, Now(rs, Stopped), rs.rx);
    }
  }
}
