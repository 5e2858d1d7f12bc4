/** The byte layout of the copy protocol: message headers, the padded path and the size field.
 * Both ends use the same layout in memory, little-endian here; there is no byte swapping.
 */
module Wire {

  type byte = b: int | 0 <= b < 256

  function Pow256(n: nat): nat { if n == 0 then 1 else 256 * Pow256(n - 1) }

  /** The n low bytes of v, least significant first. */
  function LeBytes(n: nat, v: nat): (r: seq<byte>)
    ensures |r| == n
  {
    if n == 0 then [] else [v % 256] + LeBytes(n - 1, v / 256)
  }

  function LeValue(s: seq<byte>): nat { if s == [] then 0 else s[0] + 256 * LeValue(s[1..]) }

  lemma {:induction false} LeRoundTrip(n: nat, v: nat)
    requires v < Pow256(n)
    ensures LeValue(LeBytes(n, v)) == v
  {
    if n > 0 {
      LeRoundTrip(n - 1, v / 256);
      assert LeBytes(n, v)[1..] == LeBytes(n - 1, v / 256);
    }
  }

  lemma {:induction false} LeBound(s: seq<byte>)
    ensures LeValue(s) < Pow256(|s|)
  {
    if s != [] { LeBound(s[1..]); }
  }

  lemma {:induction false} LeInverse(s: seq<byte>)
    ensures LeBytes(|s|, LeValue(s)) == s
  {
    if s != [] {
      LeInverse(s[1..]);
      assert LeValue(s) % 256 == s[0] && LeValue(s) / 256 == LeValue(s[1..]);
      assert s == [s[0]] + s[1..];
    }
  }

  lemma Widths()
    ensures Pow256(1) == 0x100
    ensures Pow256(2) == 0x1_0000
    ensures Pow256(4) == 0x1_0000_0000
    ensures Pow256(8) == 0x1_0000_0000_0000_0000
  {
    assert Pow256(3) == 0x100_0000;
    assert Pow256(5) == 256 * Pow256(4);
    assert Pow256(6) == 256 * Pow256(5);
    assert Pow256(7) == 256 * Pow256(6);
  }

  // ---------------------------------------------------------------------------------------------
  // Headers
  // ---------------------------------------------------------------------------------------------

  const HEADER: nat := 16
  const SIZE_FIELD: nat := 8
  const CMD_OPEN: nat := 1
  const CMD_CLOSE: nat := 2
  const CMD_WRITE: nat := 3
  const CMD_RESP: nat := 0x80

  datatype Header = Header(version: nat, command: nat, len: nat, data: nat, id: nat) {
    predicate Fits() {
      && version < 0x100 && command < 0x100 && len < 0x1_0000
      && data < 0x1_0000_0000 && id < 0x1_0000_0000_0000_0000
    }
  }

  function EncodeHeader(h: Header): (r: seq<byte>)
    ensures |r| == HEADER
  {
    LeBytes(1, h.version) + LeBytes(1, h.command) + LeBytes(2, h.len) + LeBytes(4, h.data) + LeBytes(8, h.id)
  }

  function DecodeHeader(s: seq<byte>): Header
    requires |s| == HEADER
  {
    Header(LeValue(s[0..1]), LeValue(s[1..2]), LeValue(s[2..4]), LeValue(s[4..8]), LeValue(s[8..16]))
  }

  lemma Slices(a: seq<byte>, b: seq<byte>, c: seq<byte>, d: seq<byte>, e: seq<byte>)
    requires |a| == 1 && |b| == 1 && |c| == 2 && |d| == 4 && |e| == 8
    ensures var s := a + b + c + d + e;
            s[0..1] == a && s[1..2] == b && s[2..4] == c && s[4..8] == d && s[8..16] == e
  {
  }

  lemma HeaderRoundTrip(h: Header)
    requires h.Fits()
    ensures DecodeHeader(EncodeHeader(h)) == h
  {
    Widths();
    Slices(LeBytes(1, h.version), LeBytes(1, h.command), LeBytes(2, h.len), LeBytes(4, h.data), LeBytes(8, h.id));
    LeRoundTrip(1, h.version);
    LeRoundTrip(1, h.command);
    LeRoundTrip(2, h.len);
    LeRoundTrip(4, h.data);
    LeRoundTrip(8, h.id);
  }

  /** Two, four and eight bytes as a number, least significant first. */
  function Two(s: seq<byte>, at: nat): nat
    requires at + 2 <= |s|
  {
    var low: nat, high: nat := s[at], s[at + 1];
    low + 0x100 * high
  }

  function Four(s: seq<byte>, at: nat): nat
    requires at + 4 <= |s|
  {
    Two(s, at) + 0x1_0000 * Two(s, at + 2)
  }

  function Eight(s: seq<byte>, at: nat): nat
    requires at + 8 <= |s|
  {
    Four(s, at) + 0x1_0000_0000 * Four(s, at + 4)
  }

  lemma LeTail(s: seq<byte>)
    requires |s| >= 2
    ensures LeValue(s) == Two(s, 0) + 0x1_0000 * LeValue(s[2..])
  {
    assert s[1..][1..] == s[2..];
  }

  lemma LeFour(s: seq<byte>)
    requires |s| == 4
    ensures LeValue(s) == Four(s, 0)
  {
    LeTail(s);
    LeTail(s[2..]);
    assert s[2..][2..] == [];
  }

  lemma LeEight(s: seq<byte>)
    requires |s| == 8
    ensures LeValue(s) == Eight(s, 0)
  {
    LeTail(s);
    LeTail(s[2..]);
    assert s[2..][2..] == s[4..];
    LeFour(s[4..]);
  }

  /** The layout of struct msg_hdr: version, command, length, data and id at 0, 1, 2, 4 and 8. */
  lemma HeaderLayout(s: seq<byte>)
    requires |s| == 16
    ensures DecodeHeader(s) == Header(s[0], s[1], Two(s, 2), Four(s, 4), Eight(s, 8))
  {
    assert s[0..1][1..] == [] && s[1..2][1..] == [] && s[2..4][2..] == [];
    LeTail(s[2..4]);
    LeFour(s[4..8]);
    LeEight(s[8..16]);
  }

  lemma HeaderInverse(s: seq<byte>)
    requires |s| == HEADER
    ensures DecodeHeader(s).Fits() && EncodeHeader(DecodeHeader(s)) == s
  {
    Widths();
    LeInverse(s[0..1]);
    LeInverse(s[1..2]);
    LeInverse(s[2..4]);
    LeInverse(s[4..8]);
    LeInverse(s[8..16]);
    LeBound(s[0..1]);
    LeBound(s[1..2]);
    LeBound(s[2..4]);
    LeBound(s[4..8]);
    LeBound(s[8..16]);
    assert s == s[0..1] + s[1..2] + s[2..4] + s[4..8] + s[8..16];
  }

  /** The response bit over a command: `cmd | CMD_RESP`. */
  function RespCommand(command: nat): nat {
    if command < CMD_RESP then command + CMD_RESP else command
  }

  /** msg_send_resp */
  function Response(h: Header, status: nat): Header {
    Header(0, RespCommand(h.command), HEADER, status, h.id)
  }

  // ---------------------------------------------------------------------------------------------
  // Paths
  // ---------------------------------------------------------------------------------------------

  function Zeros(n: nat): seq<byte> { seq<byte>(n, i => 0) }

  /** The length reserved for a path: room for the terminator, rounded up to a multiple of eight. */
  function PaddedLength(n: nat): nat { (n + 8) / 8 * 8 }

  function PaddedPath(path: seq<byte>): (r: seq<byte>)
    ensures |r| == PaddedLength(|path|)
  {
    path + Zeros(PaddedLength(|path|) - |path|)
  }

  /** The bytes before the first NUL. */
  function CString(s: seq<byte>): seq<byte> {
    if s == [] || s[0] == 0 then [] else [s[0]] + CString(s[1..])
  }

  predicate NulFree(path: seq<byte>) { forall i :: 0 <= i < |path| ==> path[i] != 0 }

  lemma {:induction false} CStringOf(path: seq<byte>, rest: seq<byte>)
    requires rest != [] && rest[0] == 0
    ensures CString(path + rest) == path <==> NulFree(path)
  {
    if path == [] {
      assert path + rest == rest;
    } else {
      CStringOf(path[1..], rest);
      assert (path + rest)[1..] == path[1..] + rest;
      assert path == [path[0]] + path[1..];
      if path[0] != 0 {
        assert NulFree(path[1..]) ==> NulFree(path) by {
          assert forall i :: 0 < i < |path| ==> path[i] == path[1..][i - 1];
        }
        assert forall i :: 0 <= i < |path| - 1 ==> path[1..][i] == path[i + 1];
      }
    }
  }

  /** The server recovers the path the client sent exactly when the path has no NUL; the padding is whole
   * words, and the message length fits its 16-bit field exactly for paths of at most 65511 bytes.
   */
  lemma PathRoundTrip(path: seq<byte>)
    ensures CString(PaddedPath(path)) == path <==> NulFree(path)
    ensures |PaddedPath(path)| % 8 == 0 && |path| < |PaddedPath(path)| <= |path| + 8
    ensures HEADER + |PaddedPath(path)| < 0x1_0000 <==> |path| <= 65511
  {
    CStringOf(path, Zeros(PaddedLength(|path|) - |path|));
  }

  // ---------------------------------------------------------------------------------------------
  // Messages
  // ---------------------------------------------------------------------------------------------

  datatype Command = Open(path: seq<byte>, mode: nat) | Write(file: seq<byte>) | Close {
    predicate WellFormed() {
      match this
      case Open(path, mode) => NulFree(path) && |path| <= 65511 && mode < 0x1_0000_0000
      case Write(file) => 0 < |file| < 0x1_0000_0000_0000_0000
      case Close => true
    }
  }

  /** The header of a message; the length field has 16 bits. */
  function HeaderOf(c: Command, id: nat): Header {
    match c
    case Open(path, mode) => Header(0, CMD_OPEN, (HEADER + PaddedLength(|path|)) % 0x1_0000, mode, id)
    case Write(_) => Header(0, CMD_WRITE, HEADER + SIZE_FIELD, 0, id)
    case Close => Header(0, CMD_CLOSE, HEADER, 0, id)
  }

  /** A whole message; of an OPEN as many bytes as its header says, as client_open sends them. */
  function MessageOf(c: Command, id: nat): seq<byte> {
    var header := EncodeHeader(HeaderOf(c, id));
    match c
    case Open(path, _) => (header + PaddedPath(path))[..HeaderOf(c, id).len]
    case Write(file) => header + LeBytes(SIZE_FIELD, |file|) + file
    case Close => header
  }

  lemma MessageFits(c: Command, id: nat)
    requires c.WellFormed() && id < 0x1_0000_0000_0000_0000
    ensures HeaderOf(c, id).Fits()
    ensures c.Open? ==> MessageOf(c, id) == EncodeHeader(HeaderOf(c, id)) + PaddedPath(c.path)
    ensures c.Open? ==> HeaderOf(c, id).len == HEADER + |PaddedPath(c.path)|
  {
  }

  /** The three messages on the wire. OPEN is command 1 with the mode, the path and a NUL; WRITE is command 3 with
   * the size and the payload; CLOSE is command 2 and nothing else. The length field counts the message without
   * a payload.
   */
  lemma MessageLayout(c: Command, id: nat)
    requires c.WellFormed() && id < 0x1_0000_0000_0000_0000
    ensures var s := MessageOf(c, id);
            && |s| >= 16
            && (match c
                case Open(path, mode) =>
                  && DecodeHeader(s[..16]) == Header(0, 1, |s|, mode, id)
                  && |s| > 16 + |path| && s[16..16 + |path|] == path && s[16 + |path|] == 0
                case Write(file) =>
                  && DecodeHeader(s[..16]) == Header(0, 3, 24, 0, id)
                  && |s| == 24 + |file| && Eight(s, 16) == |file| && s[24..] == file
                case Close => DecodeHeader(s) == Header(0, 2, 16, 0, id) && |s| == 16)
  {
    MessageFits(c, id);
    HeaderRoundTrip(HeaderOf(c, id));
    var h, s := EncodeHeader(HeaderOf(c, id)), MessageOf(c, id);
    match c {
      case Open(path, _) =>
        PathRoundTrip(path);
        Parts(h, path, Zeros(PaddedLength(|path|) - |path|));
      case Write(file) =>
        var size := LeBytes(8, |file|);
        Parts(h, size, file);
        Associate(h, size, file);
        Widths();
        LeRoundTrip(8, |file|);
        LeEight(size);
      case Close => assert s == h;
    }
  }

  lemma Associate(a: seq<byte>, b: seq<byte>, c: seq<byte>)
    ensures a + b + c == a + (b + c)
  {
  }

  lemma Parts(a: seq<byte>, b: seq<byte>, c: seq<byte>)
    requires |a| == 16
    ensures var s := a + (b + c);
            && s[..16] == a && s[16..16 + |b|] == b && s[16 + |b|..] == c
            && (forall i :: 0 <= i < |b| ==> s[16 + i] == b[i])
            && (|c| > 0 ==> s[16 + |b|] == c[0])
  {
  }

  /** A response on the wire: version 0, the command with the response bit, length 16, the status and the id of
   * the message.
   */
  lemma ResponseLayout(c: Command, id: nat, status: nat)
    requires c.WellFormed() && id < 0x1_0000_0000_0000_0000 && status < 0x1_0000_0000
    ensures DecodeHeader(EncodeHeader(Response(HeaderOf(c, id), status)))
         == Header(0, match c case Open(_, _) => 0x81 case Close => 0x82 case Write(_) => 0x83, 16, status, id)
  {
    HeaderRoundTrip(Response(HeaderOf(c, id), status));
  }
}
