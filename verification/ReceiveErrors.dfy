/** `_recv` when `rrecv` can fail: its result is kept in a `size_t`, so an error of -1 is not seen as one. It
 * moves the offset back by a byte, and at offset 0 past the end of the buffer.
 */
module ReceiveErrors {

  import opened Wire

  const SIZE_T: nat := 0x1_0000_0000_0000_0000

  /** What is left of a stream after a read with this result, and what it has made of the buffer. */
  function Rest(stream: seq<byte>, n: int): (r: seq<byte>)
    requires n <= |stream|
  {
    if n < 0 then stream else stream[n..]
  }

  function Patched(buf: seq<byte>, at: nat, stream: seq<byte>, n: int): (r: seq<byte>)
    requires n <= |stream| && (n >= 0 ==> at + n <= |buf|)
    ensures |r| == |buf|
  {
    if n < 0 then buf else buf[..at] + stream[..n] + buf[at + n..]
  }

  /** A stream whose reads fail when `fails` says so of their number. */
  class FlakySocket {
    const fails: nat -> bool
    var rx: seq<byte>
    var calls: nat
    ghost var errors: nat

    constructor (rx: seq<byte>, fails: nat -> bool)
      ensures this.rx == rx && this.fails == fails && calls == errors == 0
    {
      this.rx, this.fails, calls, errors := rx, fails, 0, 0;
    }

    /** rrecv */
    method Rrecv(buf: array<byte>, at: nat, len: nat) returns (n: int)
      requires len > 0 && at + len <= buf.Length
      modifies this, buf
      ensures calls == old(calls) + 1
      ensures if fails(old(calls)) then n == -1 && errors == old(errors) + 1 else 0 <= n && errors == old(errors)
      ensures n <= len && n <= |old(rx)| && (n == 0 <==> !fails(old(calls)) && old(rx) == [])
      ensures rx == Rest(old(rx), n) && buf[..] == Patched(old(buf[..]), at, old(rx), n)
    {
      calls := calls + 1;
      if fails(calls - 1) {
        errors := errors + 1;
        return -1;
      }
      if rx == [] {
        return 0;
      }
      n :| 1 <= n <= len && n <= |rx|;
      forall i | 0 <= i < n {
        buf[at + i] := rx[i];
      }
      rx := rx[n..];
    }

    /** _recv: it ends after any errors. `last` is the place in the stream of the byte that was stored at the
     * end of the buffer, or -1 if none was. A read that is reported complete has put the byte in its place
     * there exactly when there was no error, and without one it is a full read. With errors it has used one
     * byte more than asked for each of them, or left the loop at an error with fewer bytes than errors and
     * the end of the buffer untouched; so an error of the first read is reported as a complete read of nothing.
     */
    method Recv(buf: array<byte>, len: nat) returns (ret: nat, ghost last: int)
      requires len <= buf.Length && len < SIZE_T
      modifies this, buf
      ensures Received(old(buf[..]), old(rx), buf[..], rx, len, ret, errors - old(errors), last)
      ensures len > 0 && fails(old(calls)) ==> Nothing(old(buf[..]), old(rx), buf[..], rx, len, ret)
    {
      ghost var at := Place(0, 0, false, -1);
      ghost var start, stream := buf[..], rx;
      var offset, n := 0, 1;
      while offset < len && n != 0
        invariant calls >= old(calls) && errors >= old(errors)
        invariant Along(start, stream, buf[..], rx, len, at, errors - old(errors)) && offset == at.offset
        invariant n == 0 ==> rx == [] && offset < len
        invariant calls == old(calls) ==> at == Place(0, 0, false, -1) && n == 1 && buf[..] == start
        invariant calls > old(calls) && fails(old(calls)) ==> at.outside && at.used == 0 && n == -1 && buf[..] == start
        decreases if offset < len && n != 0 then 2 * |rx| + offset + 1 else 0
      {
        n, offset, at := ReadAndAdvance(buf, offset, len, start, stream, at, errors - old(errors));
      }
      ret, last := if n == 0 then 0 else len, at.last;
      AlongEnd(start, stream, buf[..], rx, len, at, errors - old(errors), ret);
      if len > 0 && fails(old(calls)) { NothingRead(start, stream, buf[..], rx, len, at, errors - old(errors)); }
    }

    /** The body of the loop; with n == 0 the program returns. */
    method ReadAndAdvance(buf: array<byte>, offset: nat, len: nat, ghost start: seq<byte>, ghost stream: seq<byte>,
                          ghost at: Place, ghost errs: int)
      returns (n: int, next: nat, ghost at': Place)
      requires offset < len <= buf.Length && len < SIZE_T && offset == at.offset
      requires Along(start, stream, buf[..], rx, len, at, errs)
      modifies this, buf
      ensures calls == old(calls) + 1 && errors == old(errors) + if fails(old(calls)) then 1 else 0
      ensures Along(start, stream, buf[..], rx, len, at', errs + errors - old(errors)) && next == at'.offset
      ensures n == 0 ==> rx == [] && at' == at
      ensures n > 0 ==> |rx| + n == |old(rx)| && next == offset + n
      ensures n < 0 ==> n == -1 && rx == old(rx) && next == if offset > 0 then offset - 1 else SIZE_T - 1
      ensures fails(old(calls)) <==> n < 0
      ensures n < 0 ==> buf[..] == old(buf[..]) && at'.used == at.used && at'.outside == (offset == 0)
    {
      ghost var before, ahead := buf[..], rx;
      n := Rrecv(buf, offset, len - offset);
      next, at' := offset, at;
      if n != 0 {
        next, at' := Advance(offset, n, len), Move(at, n, len);
        AlongStep(start, stream, before, ahead, len, at, errs, n);
      }
    }
  }

  /** Where the loop is: the offset, the bytes used, whether it has left the buffer, and the place in the stream
   * of the byte stored at the end of the buffer, or -1.
   */
  datatype Place = Place(offset: nat, used: nat, outside: bool, last: int)

  function Move(at: Place, n: int, len: nat): Place
    requires at.offset < len < SIZE_T && (n == -1 || 0 < n <= len - at.offset)
  {
    Place(Advance(at.offset, n, len), if n > 0 then at.used + n else at.used,
          n < 0 && at.offset == 0, if n == len - at.offset then at.used + n - 1 else at.last)
  }

  /** The buffer `start` has become `buf` after errs errors, and rx is left of the stream. */
  ghost predicate Along(start: seq<byte>, stream: seq<byte>, buf: seq<byte>, rx: seq<byte>, len: nat, at: Place,
                        errs: int)
  {
    match at
    case Place(offset, used, outside, last) =>
      && len <= |buf| == |start| && used <= |stream| && rx == stream[used..] && -1 <= last < |stream|
      && errs >= 0
      && (if outside then offset == SIZE_T - 1 && used == errs - 1
          else offset <= len && offset == used - errs)
      && (errs == 0 ==> used <= len && buf == stream[..used] + start[used..])
      && (len > 0 ==> buf[len - 1] == if last >= 0 then stream[last] else start[len - 1])
      && last == if !outside && offset == len > 0 then used - 1 else -1
  }

  lemma AlongStep(start: seq<byte>, stream: seq<byte>, buf: seq<byte>, rx: seq<byte>, len: nat, at: Place,
                  errs: int, n: int)
    requires Along(start, stream, buf, rx, len, at, errs) && at.offset < len < SIZE_T
    requires (n == -1 || 0 < n <= len - at.offset) && n <= |rx|
    ensures Along(start, stream, Patched(buf, at.offset, rx, n), Rest(rx, n), len, Move(at, n, len),
                  if n < 0 then errs + 1 else errs)
  {
    if n > 0 && errs == 0 {
      assert Patched(buf, at.offset, rx, n) == stream[..at.used + n] + start[at.used + n..];
    }
  }

  /** The result of `_recv` with the buffer `start` and a stream ahead, of which rx is left after errs errors,
   * when the byte at the end of the buffer came from place `last` of the stream, or from nowhere.
   */
  ghost predicate Received(start: seq<byte>, stream: seq<byte>, buf: seq<byte>, rx: seq<byte>, len: nat, ret: nat,
                           errs: int, last: int)
  {
    && len <= |buf| == |start| && |rx| <= |stream| && -1 <= last < |stream| && errs >= 0
    && var used := |stream| - |rx|;
    && rx == stream[used..]
    && (ret == len || (ret == 0 && rx == []))
    && (ret == len > 0 ==> (used == len + errs && last == used - 1) || (used == errs - 1 && last == -1))
    && (errs == 0 ==>
          && used == (if |stream| >= len then len else |stream|)
          && ret == (if |stream| >= len then len else 0)
          && buf == stream[..used] + start[used..])
    && (len > 0 ==> buf[len - 1] == if last >= 0 then stream[last] else start[len - 1])
    && (ret == len > 0 ==> (last == len - 1 <==> errs == 0))
  }

  /** A complete read is reported, and nothing was read. */
  predicate Nothing(start: seq<byte>, stream: seq<byte>, buf: seq<byte>, rx: seq<byte>, len: nat, ret: nat) {
    ret == len && rx == stream && buf == start
  }

  lemma NothingRead(start: seq<byte>, stream: seq<byte>, buf: seq<byte>, rx: seq<byte>, len: nat, at: Place, errs: int)
    requires Along(start, stream, buf, rx, len, at, errs) && at.used == 0 && buf == start
    ensures Nothing(start, stream, buf, rx, len, len)
  {
  }

  lemma AlongEnd(start: seq<byte>, stream: seq<byte>, buf: seq<byte>, rx: seq<byte>, len: nat, at: Place,
                 errs: int, ret: nat)
    requires Along(start, stream, buf, rx, len, at, errs)
    requires if at.offset < len then rx == [] && ret == 0 else ret == len
    ensures Received(start, stream, buf, rx, len, ret, errs, at.last)
  {
  }

  /** offset += ret, in a size_t. */
  function Advance(offset: nat, n: int, len: nat): (r: nat)
    requires offset < len < SIZE_T && (n == -1 || 0 < n <= len - offset)
    ensures r == if n > 0 then offset + n else if offset > 0 then offset - 1 else SIZE_T - 1
  {
    assert n == -1 ==> n % SIZE_T == SIZE_T - 1;
    (offset + n % SIZE_T) % SIZE_T
  }
}
