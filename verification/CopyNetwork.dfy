/** One client and one server of the copy protocol on a connection. */
module CopyNetwork {

  import opened Wire
  import opened BlockingReader
  import opened CopyServer
  import opened CopyFraming
  import opened CopyClient
  import Duplex

  type CopyNet = Duplex.Net<Cli, Srv>

  function Sent(n: CopyNet): seq<byte> { n.client.state.out }

  function Replied(n: CopyNet): seq<byte> { n.server.state.out }

  function WorldOf(os: Oracle, job: Job, s: Srv): Duplex.World<Cli, Srv> {
    Duplex.World(ClientOf(job), ServerOf(os), (c: Cli) => c.out, (v: Srv) => v.out, Start(job).state, s)
  }

  /** A server that waits for a new client with no file open. */
  predicate Fresh(s: Srv) { s.at == InHeader && s.files.Closed() && s.out == [] }

  lemma CopyWorld(os: Oracle, job: Job, s: Srv)
    requires Fresh(s)
    ensures Duplex.OrderlyWorld(WorldOf(os, job, s))
  {
    ServerOrderly(os);
    ClientOrderly(job);
  }

  lemma ServerOrderly(os: Oracle)
    ensures Duplex.Orderly(ServerOf(os), (v: Srv) => v.out)
  {
    forall a: Srv, got ensures a.out <= Finish(os, a, got).out && a.out <= AtEnd(a, got).out {
      ServerOnlyAdds(os, a, got);
    }
  }

  lemma ClientOrderly(job: Job)
    ensures Duplex.Orderly(ClientOf(job), (c: Cli) => c.out)
  {
    forall a: Cli, got
      ensures a.out <= ClientOf(job).finish(a, got).out && a.out <= ClientOf(job).atEnd(a, got).out
    {
      ClientOnlyAdds(job, a, got);
    }
  }

  lemma ClientOnlyAdds(job: Job, c: Cli, got: seq<byte>)
    ensures c.out <= ClientOf(job).finish(c, got).out && c.out <= ClientOf(job).atEnd(c, got).out
  {
  }

  lemma ServerOnlyAdds(os: Oracle, s: Srv, got: seq<byte>)
    ensures s.out <= Finish(os, s, got).out && s.out <= AtEnd(s, got).out
  {
  }

  // ---------------------------------------------------------------------------------------------
  // Where each side is, as a function of the bytes it has read
  // ---------------------------------------------------------------------------------------------

  /** The server after the bytes b of this session. */
  function Served(os: Oracle, s: Srv, b: seq<byte>): Reader<Srv>
    requires Fresh(s)
  {
    Feed(ServerOf(os), Reader(s, [], 0), b)
  }

  /** The client after the bytes b. */
  function Heard(job: Job, b: seq<byte>): Reader<Cli> { Feed(ClientOf(job), Start(job), b) }

  /** The server has read these bytes, and perhaps then the end of the stream. */
  ghost predicate ServerIs(os: Oracle, s: Srv, server: Reader<Srv>, ended: bool, read: seq<byte>)
    requires Fresh(s)
  {
    var r := Served(os, s, read);
    if ended then !r.state.at.Stopped? && server == Reader(AtEnd(r.state, r.got), [], r.used) else server == r
  }

  /** The client has read these bytes, and perhaps then the end of the stream. */
  ghost predicate ClientIs(job: Job, client: Reader<Cli>, ended: bool, read: seq<byte>) {
    var r := Heard(job, read);
    if ended then !r.state.at.Done? && client == Reader(OnEnd(job, r.state), [], r.used) else client == r
  }

  /** What holds of both sides in every run. */
  ghost predicate Reached(os: Oracle, job: Job, s: Srv, n: CopyNet) {
    && Fresh(s)
    && n.server.used <= |Sent(n)| && n.client.used <= |Replied(n)|
    && Sent(n) <= job.AllBytes()
    && ServerIs(os, s, n.server, n.serverEnded, Sent(n)[..n.server.used])
    && ClientIs(job, n.client, n.clientEnded, Replied(n)[..n.client.used])
    && (n.serverEnded ==> n.client.state.at.Done? && n.server.used == |Sent(n)|)
    && (n.clientEnded ==> n.client.used == |Replied(n)| && !n.serverEnded && n.server.state.at.Stopped?)
  }

  /** The client never sends more than the three messages. */
  lemma SentWithin(job: Job, s: seq<byte>)
    ensures Heard(job, s).state.out <= job.AllBytes() && OnEnd(job, Heard(job, s).state).out <= job.AllBytes()
  {
    ClientAfter(job, s);
    assert job.OpenBytes() <= job.AllBytes() && job.OpenBytes() + job.WriteBytes() <= job.AllBytes();
  }

  /** A server that has read some bytes wants no more exactly when it has stopped. */
  lemma ServedWants(os: Oracle, s: Srv, b: seq<byte>)
    requires Fresh(s)
    ensures Ended(ServerOf(os), Served(os, s, b)) <==> Served(os, s, b).state.at.Stopped?
  {
    ServerKeeps(os, Reader(s, [], 0), b);
  }

  lemma InvReached(os: Oracle, job: Job, s: Srv, n: CopyNet)
    requires Fresh(s) && Duplex.Inv(WorldOf(os, job, s), n)
    ensures Reached(os, job, s, n)
    ensures Ended(ClientOf(job), n.client) <==> n.client.state.at.Done?
    ensures Ended(ServerOf(os), n.server) <==> n.server.state.at.Stopped?
  {
    ServedWants(os, s, Sent(n)[..n.server.used]);
    SentWithin(job, Replied(n)[..n.client.used]);
  }

  /** Neither side can go on: the one that waits has read everything, and the other waits too. */
  predicate Quiet(n: CopyNet) {
    && (!n.client.state.at.Done? ==> !n.server.state.at.Stopped? && n.client.used == |Replied(n)|)
    && (!n.server.state.at.Stopped? ==> !n.client.state.at.Done? && n.server.used == |Sent(n)|)
  }

  /** After any run the facts of Reached hold, the run has made no more steps than there are bytes and sides,
   * and when no step is left both sides are quiet.
   */
  lemma RunReaches(os: Oracle, job: Job, s: Srv, labels: seq<Duplex.Label>) returns (n: CopyNet)
    requires Fresh(s)
    requires var w := WorldOf(os, job, s); Duplex.IsRun(w, Duplex.Init(w), labels)
    ensures var w := WorldOf(os, job, s);
            && n == Duplex.RunTo(w, Duplex.Init(w), labels)
            && (Duplex.Stuck(w, n) ==> Quiet(n))
    ensures Reached(os, job, s, n)
    ensures |labels| <= n.client.used + n.server.used + 2
  {
    var w := WorldOf(os, job, s);
    n := Duplex.RunTo(w, Duplex.Init(w), labels);
    CopyWorld(os, job, s);
    Duplex.InitKeeps(w);
    Duplex.RunKeeps(w, Duplex.Init(w), labels);
    InvReached(os, job, s, n);
    if Duplex.Stuck(w, n) { Duplex.StuckWaits(w, n); }
  }
}
