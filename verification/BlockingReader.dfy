/** A process that reads a byte stream with blocking whole reads, like the callers of `_recv`: in each state
 * it wants a number of bytes, and when it has them it goes to its next state. How the stream is cut into
 * chunks does not matter (`FeedConcat`).
 */
module BlockingReader {

  import opened Wire

  /** `want` is 0 in a state that reads no more; `atEnd` is what becomes of a state that has got only some
   * of its bytes when the stream ends.
   */
  datatype Machine<!S> = Machine(want: S -> nat, finish: (S, seq<byte>) -> S, atEnd: (S, seq<byte>) -> S)

  /** A process in `state` that has `got` some of the bytes it wants; `used` counts all bytes read. */
  datatype Reader<S> = Reader(state: S, got: seq<byte>, used: nat)

  predicate Sound<S>(m: Machine<S>, r: Reader<S>) {
    if m.want(r.state) == 0 then r.got == [] else |r.got| < m.want(r.state)
  }

  predicate Ended<S>(m: Machine<S>, r: Reader<S>) { m.want(r.state) == 0 }

  function Missing<S>(m: Machine<S>, r: Reader<S>): int { m.want(r.state) - |r.got| }

  /** The process once its current read is complete. */
  function Complete<S>(m: Machine<S>, r: Reader<S>, c: seq<byte>): Reader<S> {
    Reader(m.finish(r.state, r.got + c), [], r.used + |c|)
  }

  /** The process fed with the next bytes of the stream. */
  function Feed<S>(m: Machine<S>, r: Reader<S>, s: seq<byte>): (r': Reader<S>)
    requires Sound(m, r)
    ensures Sound(m, r')
    decreases |s|
  {
    var k := Missing(m, r);
    if Ended(m, r) then r
    else if |s| < k then Reader(r.state, r.got + s, r.used + |s|)
    else Feed(m, Complete(m, r, s[..k]), s[k..])
  }

  lemma CompleteCut<S>(m: Machine<S>, r: Reader<S>, a: seq<byte>, b: seq<byte>)
    ensures Complete(m, Reader(r.state, r.got + a, r.used + |a|), b) == Complete(m, r, a + b)
  {
    assert r.got + a + b == r.got + (a + b);
  }

  lemma FeedLong<S>(m: Machine<S>, r: Reader<S>, block: seq<byte>, rest: seq<byte>)
    requires Sound(m, r) && !Ended(m, r) && |block| == Missing(m, r)
    ensures Feed(m, r, block + rest) == Feed(m, Complete(m, r, block), rest)
  {
    assert (block + rest)[..|block|] == block && (block + rest)[|block|..] == rest;
  }

  lemma FeedCutThenRest<S>(m: Machine<S>, r: Reader<S>, a: seq<byte>, b: seq<byte>)
    requires Sound(m, r) && !Ended(m, r) && |a| < Missing(m, r) <= |a| + |b|
    ensures var r1 := Reader(r.state, r.got + a, r.used + |a|);
            Sound(m, r1) && Feed(m, r, a + b) == Feed(m, r1, b)
  {
    var r1, k := Reader(r.state, r.got + a, r.used + |a|), Missing(m, r) - |a|;
    var c, rest := b[..k], b[k..];
    assert b == c + rest && a + b == (a + c) + rest;
    FeedLong(m, r, a + c, rest);
    FeedLong(m, r1, c, rest);
    CompleteCut(m, r, a, c);
  }

  lemma FeedCut<S>(m: Machine<S>, r: Reader<S>, a: seq<byte>, b: seq<byte>)
    requires Sound(m, r) && !Ended(m, r) && |a| < Missing(m, r)
    ensures Feed(m, r, a + b) == Feed(m, Feed(m, r, a), b)
  {
    var r1, k := Reader(r.state, r.got + a, r.used + |a|), Missing(m, r) - |a|;
    if |b| < k {
      assert r.got + (a + b) == r1.got + b;
    } else {
      assert Feed(m, r, a) == r1;
      FeedCutThenRest(m, r, a, b);
    }
  }

  /** However a stream is cut into chunks, the process ends where the whole stream takes it. */
  lemma {:induction false} FeedConcat<S>(m: Machine<S>, r: Reader<S>, a: seq<byte>, b: seq<byte>)
    requires Sound(m, r)
    ensures Feed(m, r, a + b) == Feed(m, Feed(m, r, a), b)
    decreases |a|
  {
    var k := Missing(m, r);
    if Ended(m, r) {
    } else if |a| >= k {
      assert (a + b)[..k] == a[..k] && (a + b)[k..] == a[k..] + b;
      FeedConcat(m, Complete(m, r, a[..k]), a[k..], b);
    } else {
      FeedCut(m, r, a, b);
    }
  }

  /** A fresh read that the stream satisfies. */
  lemma FeedBlock<S>(m: Machine<S>, r: Reader<S>, block: seq<byte>, rest: seq<byte>)
    requires Sound(m, r) && !Ended(m, r) && r.got == [] && |block| == m.want(r.state)
    ensures Sound(m, Reader(m.finish(r.state, block), [], r.used + |block|))
    ensures Feed(m, r, block + rest) == Feed(m, Reader(m.finish(r.state, block), [], r.used + |block|), rest)
  {
    FeedLong(m, r, block, rest);
    assert [] + block == block;
  }

  lemma FeedNothing<S>(m: Machine<S>, r: Reader<S>, s: seq<byte>)
    requires Sound(m, r) && (Ended(m, r) || s == [])
    ensures Feed(m, r, s) == r
  {
    assert r.got + [] == r.got;
  }

  /** A process never reads past the stream, and reads all of it unless it ends. */
  lemma {:induction false} FeedUses<S>(m: Machine<S>, r: Reader<S>, s: seq<byte>)
    requires Sound(m, r)
    ensures var r' := Feed(m, r, s);
            && r.used <= r'.used <= r.used + |s|
            && (!Ended(m, r') ==> r'.used == r.used + |s|)
    decreases |s|
  {
    var k := Missing(m, r);
    if !Ended(m, r) && |s| >= k {
      FeedUses(m, Complete(m, r, s[..k]), s[k..]);
    }
  }

  /** What every completed read keeps, every stream keeps. */
  lemma {:induction false} FeedKeeps<S(!new)>(m: Machine<S>, r: Reader<S>, s: seq<byte>, inv: S -> bool)
    requires Sound(m, r) && inv(r.state)
    requires forall a, got :: inv(a) && |got| == m.want(a) > 0 ==> inv(m.finish(a, got))
    ensures inv(Feed(m, r, s).state)
    decreases |s|
  {
    var k := Missing(m, r);
    if !Ended(m, r) && |s| >= k {
      FeedKeeps(m, Complete(m, r, s[..k]), s[k..], inv);
    }
  }

  /** A read of no more than is missing uses all its bytes. */
  lemma ExactRead<S>(m: Machine<S>, r: Reader<S>, b: seq<byte>)
    requires Sound(m, r) && !Ended(m, r) && 0 < |b| <= Missing(m, r)
    ensures Feed(m, r, b).used == r.used + |b|
  {
    if |b| == Missing(m, r) {
      assert b + [] == b;
      FeedLong(m, r, b, []);
      FeedNothing(m, Complete(m, r, b), []);
    }
  }

  /** A process that has read the first u bytes of a stream, and reads k more of those it waits for. */
  lemma ReadOn<S>(m: Machine<S>, start: Reader<S>, stream: seq<byte>, u: nat, k: nat)
    requires Sound(m, start) && u + k <= |stream|
    requires var r := Feed(m, start, stream[..u]); !Ended(m, r) && 0 < k <= Missing(m, r)
    ensures var r := Feed(m, start, stream[..u]);
            && Feed(m, r, stream[u..u + k]) == Feed(m, start, stream[..u + k])
            && Feed(m, start, stream[..u + k]).used == r.used + k
  {
    assert stream[..u] + stream[u..u + k] == stream[..u + k];
    FeedConcat(m, start, stream[..u], stream[u..u + k]);
    ExactRead(m, Feed(m, start, stream[..u]), stream[u..u + k]);
  }

  // ---------------------------------------------------------------------------------------------
  // Streams that end
  // ---------------------------------------------------------------------------------------------

  /** The process on a stream that ends. */
  function Session<S>(m: Machine<S>, r: Reader<S>, s: seq<byte>): Reader<S>
    requires Sound(m, r)
  {
    var r' := Feed(m, r, s);
    Reader(m.atEnd(r'.state, r'.got), [], r'.used)
  }

  /** The session of a on s goes on from b with the bytes that b has not read. */
  ghost predicate GoesOn<S>(m: Machine<S>, a: Reader<S>, s: seq<byte>, b: Reader<S>) {
    && Sound(m, a) && Sound(m, b) && b.got == []
    && a.used <= b.used <= a.used + |s|
    && Session(m, a, s) == Session(m, b, s[b.used - a.used..])
  }

  /** A fresh read that the stream satisfies. */
  lemma ReadGoesOn<S>(m: Machine<S>, a: Reader<S>, s: seq<byte>, b: Reader<S>)
    requires Sound(m, a) && !Ended(m, a) && a.got == [] && |s| >= m.want(a.state)
    requires b == Reader(m.finish(a.state, s[..m.want(a.state)]), [], a.used + m.want(a.state))
    ensures GoesOn(m, a, s, b)
  {
    var k := m.want(a.state);
    assert s == s[..k] + s[k..];
    FeedBlock(m, a, s[..k], s[k..]);
  }

  /** A fresh read that the stream cuts short, when the process would end the same way from a later state
   * with nothing left to read.
   */
  lemma CutGoesOn<S>(m: Machine<S>, a: Reader<S>, s: seq<byte>, b: Reader<S>)
    requires Sound(m, a) && a.got == [] && |s| < m.want(a.state)
    requires Sound(m, b) && b.got == [] && b.used == a.used + |s|
    requires m.atEnd(a.state, s) == m.atEnd(b.state, [])
    ensures GoesOn(m, a, s, b)
  {
    assert [] + s == s;
    assert s[|s|..] == [];
    FeedNothing(m, b, []);
  }

  lemma GoesOnHere<S>(m: Machine<S>, r: Reader<S>, s: seq<byte>)
    requires Sound(m, r) && r.got == []
    ensures GoesOn(m, r, s, r)
  {
    assert s[0..] == s;
  }

  lemma GoesOnAfter<S>(m: Machine<S>, a: Reader<S>, s: seq<byte>, b: Reader<S>, c: Reader<S>)
    requires GoesOn(m, a, s, b) && GoesOn(m, b, s[b.used - a.used..], c)
    ensures GoesOn(m, a, s, c)
  {
    assert s[b.used - a.used..][c.used - b.used..] == s[c.used - a.used..];
  }
}
