/** Two blocking readers on one connection: each reads the bytes the other has sent. Every interleaving of
 * their reads and every fragmentation of the two streams.
 */
module Duplex {

  import opened Wire
  import opened BlockingReader

  /** The two processes, what each has sent in each of its states, and where each begins. */
  datatype World<!C, !S> = World(
    client: Machine<C>, server: Machine<S>,
    sent: C -> seq<byte>, replied: S -> seq<byte>,
    clientStart: C, serverStart: S)

  /** `clientEnded` and `serverEnded` tell that a side has found the stream closed by its peer. */
  datatype Net<C, S> = Net(client: Reader<C>, server: Reader<S>, clientEnded: bool, serverEnded: bool)

  /** A side reads any number of bytes it wants and the peer has sent, or finds the stream closed. */
  datatype Label = ServerReads(k: nat) | ClientReads(k: nat) | ServerSeesEnd | ClientSeesEnd

  predicate MayRead<T>(m: Machine<T>, r: Reader<T>, stream: seq<byte>, k: nat) {
    !Ended(m, r) && 0 < k <= Missing(m, r) && r.used + k <= |stream|
  }

  function Read<T>(m: Machine<T>, r: Reader<T>, stream: seq<byte>, k: nat): (r': Reader<T>)
    requires Sound(m, r) && MayRead(m, r, stream, k)
    ensures Sound(m, r')
  {
    Feed(m, r, stream[r.used..r.used + k])
  }

  /** The reader once it finds the stream closed. */
  function SeeEnd<T>(m: Machine<T>, r: Reader<T>): Reader<T> { Reader(m.atEnd(r.state, r.got), [], r.used) }

  predicate Enabled<C, S>(w: World<C, S>, n: Net<C, S>, l: Label) {
    match l
    case ServerReads(k) => MayRead(w.server, n.server, w.sent(n.client.state), k)
    case ClientReads(k) => MayRead(w.client, n.client, w.replied(n.server.state), k)
    case ServerSeesEnd =>
      !Ended(w.server, n.server) && Ended(w.client, n.client) && n.server.used == |w.sent(n.client.state)|
    case ClientSeesEnd =>
      !Ended(w.client, n.client) && Ended(w.server, n.server) && n.client.used == |w.replied(n.server.state)|
  }

  predicate SoundNet<C, S>(w: World<C, S>, n: Net<C, S>) { Sound(w.server, n.server) && Sound(w.client, n.client) }

  function DoStep<C, S>(w: World<C, S>, n: Net<C, S>, l: Label): Net<C, S>
    requires SoundNet(w, n) && Enabled(w, n, l)
  {
    match l
    case ServerReads(k) => n.(server := Read(w.server, n.server, w.sent(n.client.state), k))
    case ClientReads(k) => n.(client := Read(w.client, n.client, w.replied(n.server.state), k))
    case ServerSeesEnd => n.(server := SeeEnd(w.server, n.server), serverEnded := true)
    case ClientSeesEnd => n.(client := SeeEnd(w.client, n.client), clientEnded := true)
  }

  function AtStart<T>(s: T): Reader<T> { Reader(s, [], 0) }

  function Init<C, S>(w: World<C, S>): Net<C, S> { Net(AtStart(w.clientStart), AtStart(w.serverStart), false, false) }

  // ---------------------------------------------------------------------------------------------
  // What every step keeps
  // ---------------------------------------------------------------------------------------------

  /** A process that never takes back what it has sent, and is at its end when the stream ends. */
  ghost predicate Orderly<T(!new)>(m: Machine<T>, out: T -> seq<byte>) {
    && (forall a, got :: out(a) <= out(m.finish(a, got)))
    && (forall a, got :: out(a) <= out(m.atEnd(a, got)) && m.want(m.atEnd(a, got)) == 0)
  }

  ghost predicate OrderlyWorld<C(!new), S(!new)>(w: World<C, S>) {
    && Orderly(w.client, w.sent) && Orderly(w.server, w.replied)
    && w.client.want(w.clientStart) > 0 && w.server.want(w.serverStart) > 0
  }

  /** A reader is where the bytes it has read take it, and then perhaps the end of the stream. */
  predicate Follows<T(==)>(m: Machine<T>, start: T, r: Reader<T>, ended: bool, stream: seq<byte>)
    requires m.want(start) > 0
  {
    && r.used <= |stream|
    && var at := Feed(m, AtStart(start), stream[..r.used]);
       if ended then !Ended(m, at) && r == SeeEnd(m, at) else r == at
  }

  ghost predicate Inv<C(!new), S(!new)>(w: World<C, S>, n: Net<C, S>) {
    && OrderlyWorld(w)
    && SoundNet(w, n)
    && Follows(w.server, w.serverStart, n.server, n.serverEnded, w.sent(n.client.state))
    && Follows(w.client, w.clientStart, n.client, n.clientEnded, w.replied(n.server.state))
    && (n.serverEnded ==> Ended(w.client, n.client) && n.server.used == |w.sent(n.client.state)|)
    && (n.clientEnded ==> Ended(w.server, n.server) && n.client.used == |w.replied(n.server.state)|)
    && !(n.clientEnded && n.serverEnded)
  }

  lemma {:induction false} FeedSends<T(!new)>(m: Machine<T>, out: T -> seq<byte>, r: Reader<T>, s: seq<byte>)
    requires Sound(m, r) && Orderly(m, out)
    ensures out(r.state) <= out(Feed(m, r, s).state)
    decreases |s|
  {
    var k := Missing(m, r);
    if !Ended(m, r) && |s| >= k {
      FeedSends(m, out, Complete(m, r, s[..k]), s[k..]);
    }
  }

  /** What a reader has read stays what it has read when the peer sends more. */
  lemma FollowsMore<T>(m: Machine<T>, start: T, r: Reader<T>, ended: bool, stream: seq<byte>, more: seq<byte>)
    requires m.want(start) > 0 && Follows(m, start, r, ended, stream) && stream <= more
    ensures Follows(m, start, r, ended, more)
  {
    assert more[..r.used] == stream[..r.used];
  }

  lemma ReadFollows<T(!new)>(m: Machine<T>, out: T -> seq<byte>, start: T, r: Reader<T>, stream: seq<byte>, k: nat)
    returns (r': Reader<T>)
    requires Orderly(m, out) && m.want(start) > 0 && Sound(m, r)
    requires Follows(m, start, r, false, stream) && MayRead(m, r, stream, k)
    ensures r' == Read(m, r, stream, k) && Sound(m, r')
    ensures Follows(m, start, r', false, stream) && r'.used == r.used + k
    ensures out(r.state) <= out(r'.state)
  {
    r' := Read(m, r, stream, k);
    ReadOn(m, AtStart(start), stream, r.used, k);
    FeedSends(m, out, r, stream[r.used..r.used + k]);
  }

  lemma InitKeeps<C(!new), S(!new)>(w: World<C, S>)
    requires OrderlyWorld(w)
    ensures Inv(w, Init(w))
  {
    assert w.sent(w.clientStart)[..0] == [] && w.replied(w.serverStart)[..0] == [];
    FeedNothing(w.server, AtStart(w.serverStart), []);
    FeedNothing(w.client, AtStart(w.clientStart), []);
  }

  lemma StepKeeps<C(!new), S(!new)>(w: World<C, S>, n: Net<C, S>, l: Label)
    requires Inv(w, n) && Enabled(w, n, l)
    ensures Inv(w, DoStep(w, n, l)) && Progress(w, DoStep(w, n, l)) > Progress(w, n)
  {
    var n' := DoStep(w, n, l);
    var sent, replied := w.sent(n.client.state), w.replied(n.server.state);
    match l {
      case ServerReads(k) =>
        var _ := ReadFollows(w.server, w.replied, w.serverStart, n.server, sent, k);
        FollowsMore(w.client, w.clientStart, n.client, n.clientEnded, replied, w.replied(n'.server.state));
      case ClientReads(k) =>
        var _ := ReadFollows(w.client, w.sent, w.clientStart, n.client, replied, k);
        FollowsMore(w.server, w.serverStart, n.server, n.serverEnded, sent, w.sent(n'.client.state));
      case ServerSeesEnd =>
        FollowsMore(w.client, w.clientStart, n.client, n.clientEnded, replied, w.replied(n'.server.state));
      case ClientSeesEnd =>
        FollowsMore(w.server, w.serverStart, n.server, n.serverEnded, sent, w.sent(n'.client.state));
    }
  }

  // ---------------------------------------------------------------------------------------------
  // Every fragmentation is a run
  // ---------------------------------------------------------------------------------------------

  function Total(sizes: seq<nat>): nat { if sizes == [] then 0 else sizes[0] + Total(sizes[1..]) }

  function Reads(sizes: seq<nat>): seq<Label> { seq(|sizes|, i requires 0 <= i < |sizes| => ClientReads(sizes[i])) }

  /** However the bytes that wait for the client are cut into pieces, short of what ends its current read, reading
   * the pieces one after the other is a run, and the client has then got them.
   */
  lemma {:induction false} AnyCutIsRun<C, S>(w: World<C, S>, n: Net<C, S>, sizes: seq<nat>)
    requires SoundNet(w, n) && !Ended(w.client, n.client)
    requires forall i :: 0 <= i < |sizes| ==> sizes[i] > 0
    requires Total(sizes) < Missing(w.client, n.client)
    requires n.client.used + Total(sizes) <= |w.replied(n.server.state)|
    ensures IsRun(w, n, Reads(sizes))
    ensures var t := RunTo(w, n, Reads(sizes));
            && t.client.state == n.client.state && t.client.used == n.client.used + Total(sizes)
            && t.client.got == n.client.got + w.replied(n.server.state)[n.client.used..n.client.used + Total(sizes)]
            && t.server == n.server
    decreases |sizes|
  {
    var stream := w.replied(n.server.state);
    if sizes == [] {
      assert Reads(sizes) == [];
    } else {
      var n' := DoStep(w, n, ClientReads(sizes[0]));
      assert Reads(sizes)[1..] == Reads(sizes[1..]);
      AnyCutIsRun(w, n', sizes[1..]);
      var u, v := n.client.used, n.client.used + sizes[0];
      assert stream[u..v] + stream[v..v + Total(sizes[1..])] == stream[u..u + Total(sizes)];
    }
  }

  // ---------------------------------------------------------------------------------------------
  // Runs
  // ---------------------------------------------------------------------------------------------

  /** The bytes read and the sides that have come to their end. */
  function Progress<C, S>(w: World<C, S>, n: Net<C, S>): nat {
    n.client.used + n.server.used
    + (if Ended(w.client, n.client) then 1 else 0) + (if Ended(w.server, n.server) then 1 else 0)
  }

  /** The labels are a run: each is enabled where it is taken. */
  predicate IsRun<C, S>(w: World<C, S>, n: Net<C, S>, labels: seq<Label>)
    decreases |labels|
  {
    labels == [] ||
    (SoundNet(w, n) && Enabled(w, n, labels[0]) && IsRun(w, DoStep(w, n, labels[0]), labels[1..]))
  }

  function RunTo<C, S>(w: World<C, S>, n: Net<C, S>, labels: seq<Label>): Net<C, S>
    requires IsRun(w, n, labels)
    decreases |labels|
  {
    if labels == [] then n else RunTo(w, DoStep(w, n, labels[0]), labels[1..])
  }

  /** Every run keeps the invariant and makes progress at each step. */
  lemma {:induction false} RunKeeps<C(!new), S(!new)>(w: World<C, S>, n: Net<C, S>, labels: seq<Label>)
    requires Inv(w, n) && IsRun(w, n, labels)
    ensures Inv(w, RunTo(w, n, labels))
    ensures Progress(w, n) + |labels| <= Progress(w, RunTo(w, n, labels))
    decreases |labels|
  {
    if labels != [] {
      StepKeeps(w, n, labels[0]);
      RunKeeps(w, DoStep(w, n, labels[0]), labels[1..]);
    }
  }

  /** No step is left. */
  ghost predicate Stuck<C, S>(w: World<C, S>, n: Net<C, S>) { forall l :: !Enabled(w, n, l) }

  /** A side that is left to wait in such a state has read all its peer has sent, and the peer has not come to
   * its end either.
   */
  lemma StuckWaits<C(!new), S(!new)>(w: World<C, S>, n: Net<C, S>)
    requires Inv(w, n) && Stuck(w, n)
    ensures !Ended(w.client, n.client) ==>
              !Ended(w.server, n.server) && n.client.used == |w.replied(n.server.state)|
    ensures !Ended(w.server, n.server) ==>
              !Ended(w.client, n.client) && n.server.used == |w.sent(n.client.state)|
  {
    assert !Enabled(w, n, ClientReads(1)) && !Enabled(w, n, ServerReads(1));
    assert !Enabled(w, n, ClientSeesEnd) && !Enabled(w, n, ServerSeesEnd);
  }
}
