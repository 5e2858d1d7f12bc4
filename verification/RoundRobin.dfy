/** The order in which `do_rdma_reads` posts the reads of one iteration.
 *
 * The reference definition is two nested loops: for every round, for every connection, one segment.
 * The scheduler of the program instead rotates a queue of connections; `OnSchedule` says what its
 * queue, its offsets and the reads posted so far look like after any number of posts, and
 * `PostKeepsSchedule` shows that one turn of the rotating queue is one turn of the nested loops.
 */
module RoundRobin {

  /** One read: `length` bytes at `offset` of the region of connection `conn`. */
  datatype Segment = Segment(conn: nat, offset: nat, length: nat)

  /** `conns` connections, each reading a region of `region` bytes in segments of at most `chunk` bytes. */
  datatype Plan = Plan(conns: nat, region: nat, chunk: nat) {
    predicate Valid() { region > 0 && chunk > 0 }
  }

  function Min(a: int, b: int): int { if a < b then a else b }

  /** The number of segments of one region: region / chunk, rounded up. */
  function Rounds(p: Plan): nat
    requires p.Valid()
  {
    (p.region + p.chunk - 1) / p.chunk
  }

  function Total(p: Plan): nat
    requires p.Valid()
  {
    p.conns * Rounds(p)
  }

  // ---------------------------------------------------------------------------------------------
  // The reference: two nested loops
  // ---------------------------------------------------------------------------------------------

  function RoundSegment(p: Plan, q: nat, c: nat): Segment
    requires p.Valid() && q * p.chunk < p.region
  {
    Segment(c, q * p.chunk, Min(p.chunk, p.region - q * p.chunk))
  }

  function OneRound(p: Plan, q: nat, c: nat): seq<Segment>
    requires p.Valid() && q * p.chunk < p.region
  {
    if c == 0 then [] else OneRound(p, q, c - 1) + [RoundSegment(p, q, c - 1)]
  }

  function NestedLoops(p: Plan, q: nat): seq<Segment>
    requires p.Valid() && q <= Rounds(p)
  {
    if q == 0 then [] else
    RoundBound(p, q - 1);
    NestedLoops(p, q - 1) + OneRound(p, q - 1, p.conns)
  }

  // ---------------------------------------------------------------------------------------------
  // Arithmetic of rounds
  // ---------------------------------------------------------------------------------------------

  lemma MulMono(a: int, b: int, n: int)
    requires a <= b && n >= 0
    ensures a * n <= b * n
  {
  }

  lemma MulNext(a: int, n: int)
    ensures (a + 1) * n == a * n + n
  {
  }

  lemma Product(a: int, b: int)
    requires a >= 0 && b >= 0
    ensures a * b >= 0
  {
  }

  lemma DivMod(a: nat, n: nat)
    requires n > 0
    ensures a == (a / n) * n + a % n
  {
  }

  lemma RoundBound(p: Plan, q: nat)
    requires p.Valid()
    ensures q < Rounds(p) <==> q * p.chunk < p.region
  {
    var k := Rounds(p);
    DivMod(p.region + p.chunk - 1, p.chunk);
    if q < k {
      MulMono(q + 1, k, p.chunk);
      MulNext(q, p.chunk);
    } else {
      MulMono(k, q, p.chunk);
    }
  }

  lemma DivModUnique(a: nat, n: nat, q: nat, r: nat)
    requires n > 0 && r < n && a == q * n + r
    ensures a / n == q && a % n == r
  {
    var k := a / n;
    DivMod(a, n);
    if k > q {
      MulMono(q + 1, k, n);
      MulNext(q, n);
    } else if k < q {
      MulMono(k + 1, q, n);
      MulNext(k, n);
    }
  }

  lemma DivModStep(t: nat, n: nat, q: nat, r: nat)
    requires n > 0 && t == q * n + r && r < n
    ensures r + 1 < n ==> (t + 1) / n == q && (t + 1) % n == r + 1
    ensures r + 1 == n ==> (t + 1) / n == q + 1 && (t + 1) % n == 0
  {
    if r + 1 < n {
      DivModUnique(t + 1, n, q, r + 1);
    } else {
      MulNext(q, n);
      DivModUnique(t + 1, n, q + 1, 0);
    }
  }

  lemma DivModNext(n: nat, t: nat)
    requires n > 0
    ensures t % n + 1 < n ==> (t + 1) / n == t / n && (t + 1) % n == t % n + 1
    ensures t % n + 1 == n ==> (t + 1) / n == t / n + 1 && (t + 1) % n == 0
  {
    DivMod(t, n);
    DivModStep(t, n, t / n, t % n);
  }

  lemma DivModPlus(n: nat, t: nat)
    requires n > 0
    ensures (t + n) / n == t / n + 1 && (t + n) % n == t % n
  {
    DivMod(t, n);
    MulNext(t / n, n);
    DivModUnique(t + n, n, t / n + 1, t % n);
  }

  lemma TurnInRange(p: Plan, t: nat)
    requires p.Valid() && p.conns > 0
    ensures t < Total(p) <==> t / p.conns < Rounds(p)
  {
    var n, k, q := p.conns, Rounds(p), t / p.conns;
    DivMod(t, n);
    if q < k {
      MulMono(q + 1, k, n);
      MulNext(q, n);
    } else {
      MulMono(k, q, n);
    }
  }

  /** The connection whose turn it is at post number `t`. */
  function Owner(p: Plan, t: nat): nat { if p.conns == 0 then 0 else t % p.conns }

  function Turn(p: Plan, t: nat): nat { if p.conns == 0 then 0 else t / p.conns }

  /** How many of the first `t` posts belong to connection `c`. */
  function TurnsTaken(p: Plan, t: nat, c: nat): nat
    requires c < p.conns
  {
    t / p.conns + if c < t % p.conns then 1 else 0
  }

  function OffsetAfter(p: Plan, t: nat, c: nat): nat
    requires c < p.conns
  {
    Min(p.region, TurnsTaken(p, t, c) * p.chunk)
  }

  function SegmentAt(p: Plan, t: nat): Segment
    requires p.Valid() && t < Total(p)
  {
    assert Turn(p, t) * p.chunk < p.region by { TurnInRange(p, t); RoundBound(p, Turn(p, t)); }
    RoundSegment(p, Turn(p, t), Owner(p, t))
  }

  /** The queue after `t` posts: the owners of the next posts, at most one round of them. */
  function QueueAfter(p: Plan, t: nat): seq<nat>
    requires p.Valid() && t <= Total(p)
  {
    seq<nat>(Min(p.conns, Total(p) - t), j requires j >= 0 => Owner(p, t + j))
  }

  /** Queue, offsets and posted reads after |log| posts of an iteration. */
  ghost predicate OnSchedule(p: Plan, offsets: seq<nat>, queue: seq<nat>, log: seq<Segment>) {
    && p.Valid()
    && |offsets| == p.conns
    && |log| <= Total(p)
    && (forall i :: 0 <= i < |log| ==> log[i] == SegmentAt(p, i))
    && (forall c :: 0 <= c < p.conns ==> offsets[c] == OffsetAfter(p, |log|, c))
    && queue == QueueAfter(p, |log|)
  }

  lemma TurnsTakenNext(p: Plan, t: nat, c: nat)
    requires c < p.conns
    ensures TurnsTaken(p, t + 1, c) == TurnsTaken(p, t, c) + if c == t % p.conns then 1 else 0
    ensures TurnsTaken(p, t, t % p.conns) == t / p.conns
  {
    DivModNext(p.conns, t);
  }

  lemma QueueNext(p: Plan, t: nat)
    requires p.Valid() && t < Total(p)
    ensures QueueAfter(p, t) != [] && QueueAfter(p, t)[0] == Owner(p, t)
    ensures QueueAfter(p, t + 1)
         == QueueAfter(p, t)[1..] + if Turn(p, t) + 1 < Rounds(p) then [Owner(p, t)] else []
  {
    DivModPlus(p.conns, t);
    TurnInRange(p, t + p.conns);
    var before, after := QueueAfter(p, t), QueueAfter(p, t + 1);
    var expected := before[1..] + if Turn(p, t) + 1 < Rounds(p) then [Owner(p, t)] else [];
    assert |after| == |expected|;
    forall j | 0 <= j < |after| ensures after[j] == expected[j] {
      if j < |before| - 1 {
        assert before[j + 1] == Owner(p, t + (j + 1));
        assert after[j] == Owner(p, (t + 1) + j);
        assert t + (j + 1) == (t + 1) + j;
      } else {
        assert after[j] == Owner(p, (t + 1) + j);
      }
    }
    assert after == expected;
  }

  /** One successful post of the rotating queue is the next step of the nested loops. */
  lemma PostKeepsSchedule(p: Plan, offsets: seq<nat>, queue: seq<nat>, log: seq<Segment>)
    requires OnSchedule(p, offsets, queue, log) && queue != []
    ensures queue[0] < |offsets| && offsets[queue[0]] < p.region && |log| < Total(p)
    ensures var c := queue[0];
            var size := Min(p.chunk, p.region - offsets[c]);
            && size > 0
            && SegmentAt(p, |log|) == Segment(c, offsets[c], size)
            && OnSchedule(p, offsets[c := offsets[c] + size],
                          queue[1..] + (if offsets[c] + size < p.region then [c] else []),
                          log + [Segment(c, offsets[c], size)])
  {
    var t := |log|;
    assert t < Total(p);
    assert p.conns > 0;
    TurnInRange(p, t);
    var q := t / p.conns;
    QueueNext(p, t);
    RoundBound(p, q);
    RoundBound(p, q + 1);
    var c := queue[0];
    TurnsTakenNext(p, t, c);
    assert offsets[c] == q * p.chunk;
    var size := Min(p.chunk, p.region - offsets[c]);
    MulNext(q, p.chunk);
    assert offsets[c] + size < p.region <==> q + 1 < Rounds(p);
    var offsets' := offsets[c := offsets[c] + size];
    forall d | 0 <= d < p.conns
      ensures offsets'[d] == OffsetAfter(p, t + 1, d)
    {
      TurnsTakenNext(p, t, d);
    }
  }

  lemma StartOnSchedule(p: Plan, offsets: seq<nat>, queue: seq<nat>)
    requires p.Valid() && |offsets| == p.conns && |queue| == p.conns
    requires forall c :: 0 <= c < p.conns ==> offsets[c] == 0 && queue[c] == c
    ensures OnSchedule(p, offsets, queue, [])
  {
    if p.conns > 0 {
      TurnInRange(p, p.conns - 1);
      DivModUnique(p.conns - 1, p.conns, 0, p.conns - 1);
      assert Rounds(p) > 0 by { RoundBound(p, 0); }
      assert p.conns <= Total(p);
      forall c | 0 <= c < p.conns
        ensures OffsetAfter(p, 0, c) == 0 && queue[c] == QueueAfter(p, 0)[c]
      {
        DivModUnique(0, p.conns, 0, 0);
        DivModUnique(c, p.conns, 0, c);
      }
      assert queue == QueueAfter(p, 0);
    } else {
      assert queue == QueueAfter(p, 0);
    }
  }

  // ---------------------------------------------------------------------------------------------
  // What the schedule means
  // ---------------------------------------------------------------------------------------------

  lemma {:induction false} OneRoundAt(p: Plan, q: nat, c: nat, i: nat)
    requires p.Valid() && q * p.chunk < p.region && i < c
    ensures |OneRound(p, q, c)| == c && OneRound(p, q, c)[i] == RoundSegment(p, q, i)
  {
    if c == 1 {
      assert OneRound(p, q, 0) == [];
    } else {
      OneRoundAt(p, q, c - 1, if i < c - 1 then i else 0);
    }
  }

  lemma {:induction false} NestedLength(p: Plan, q: nat)
    requires p.Valid() && q <= Rounds(p)
    ensures |NestedLoops(p, q)| == q * p.conns
  {
    if q > 0 {
      RoundBound(p, q - 1);
      NestedLength(p, q - 1);
      if p.conns > 0 { OneRoundAt(p, q - 1, p.conns, 0); }
      MulNext(q - 1, p.conns);
    }
  }

  /** The t-th step of the nested loops is segment t / conns of connection t % conns. */
  lemma {:induction false} NestedAt(p: Plan, q: nat, t: nat)
    requires p.Valid() && q <= Rounds(p) && t < q * p.conns
    ensures |NestedLoops(p, q)| == q * p.conns && t < Total(p)
    ensures NestedLoops(p, q)[t] == SegmentAt(p, t)
  {
    NestedLength(p, q);
    MulMono(q, Rounds(p), p.conns);
    MulNext(q - 1, p.conns);
    RoundBound(p, q - 1);
    NestedLength(p, q - 1);
    if t < (q - 1) * p.conns {
      NestedAt(p, q - 1, t);
    } else {
      var c := t - (q - 1) * p.conns;
      DivModUnique(t, p.conns, q - 1, c);
      OneRoundAt(p, q - 1, p.conns, c);
    }
  }

  /** Whatever was posted so far is a prefix of the two nested loops. */
  lemma ScheduleRefinesLoops(p: Plan, offsets: seq<nat>, queue: seq<nat>, log: seq<Segment>)
    requires OnSchedule(p, offsets, queue, log)
    ensures log <= NestedLoops(p, Rounds(p))
    ensures queue == [] <==> log == NestedLoops(p, Rounds(p))
  {
    var all := NestedLoops(p, Rounds(p));
    NestedLength(p, Rounds(p));
    forall i | 0 <= i < |log| ensures log[i] == all[i] {
      NestedAt(p, Rounds(p), i);
    }
    if |log| == Total(p) {
      assert log == all;
    } else {
      assert Total(p) == p.conns * Rounds(p);
      assert |queue| > 0;
    }
  }

  /** The queue holds exactly the connections with bytes left to read, each once. */
  lemma QueueHoldsUnfinished(p: Plan, offsets: seq<nat>, queue: seq<nat>, log: seq<Segment>)
    requires OnSchedule(p, offsets, queue, log)
    ensures forall i, j :: 0 <= i < j < |queue| ==> queue[i] != queue[j]
    ensures forall c :: c in queue <==> 0 <= c < p.conns && offsets[c] < p.region
  {
    var n, t := p.conns, |log|;
    forall i, j | 0 <= i < j < |queue| ensures queue[i] != queue[j] {
      SameOwner(t, n, i, j);
      assert queue[i] == Owner(p, t + i) && queue[j] == Owner(p, t + j);
    }
    assert forall j :: 0 <= j < |queue| ==> queue[j] == Owner(p, t + j) < n;
    forall c ensures c in queue <==> 0 <= c < n && offsets[c] < p.region {
      if 0 <= c < n {
        QueueMembership(p, t, c);
      }
    }
  }

  /** Within the next round of posts, connection c has exactly one turn, number TurnsTaken. */
  lemma NextTurn(p: Plan, t: nat, c: nat) returns (j: nat)
    requires c < p.conns
    ensures j < p.conns && (t + j) % p.conns == c && (t + j) / p.conns == TurnsTaken(p, t, c)
  {
    var n, r := p.conns, t % p.conns;
    j := if c >= r then c - r else c - r + n;
    assert t == (t / n) * n + r;
    if c >= r {
      DivModUnique(t + j, n, t / n, c);
    } else {
      DivModUnique(t + j, n, t / n + 1, c);
    }
  }

  lemma QueueMembership(p: Plan, t: nat, c: nat)
    requires p.Valid() && t <= Total(p) && c < p.conns
    ensures c in QueueAfter(p, t) <==> OffsetAfter(p, t, c) < p.region
  {
    var n, queue := p.conns, QueueAfter(p, t);
    var j := NextTurn(p, t, c);
    TurnInRange(p, t + j);
    RoundBound(p, TurnsTaken(p, t, c));
    if t + j < Total(p) {
      assert queue[j] == Owner(p, t + j) == c;
    } else if c in queue {
      var i :| 0 <= i < |queue| && queue[i] == c;
      assert queue[i] == Owner(p, t + i);
      SameOwner(t, n, i, j);
      assert false;
    }
  }

  lemma SameOwner(t: nat, n: nat, i: nat, j: nat)
    requires n > 0 && i < j < n
    ensures (t + i) % n != (t + j) % n
  {
    var a, d := t + i, j - i;
    if a % n + d < n {
      DivModUnique(a + d, n, a / n, a % n + d);
    } else {
      assert a + d == (a / n + 1) * n + (a % n + d - n);
      DivModUnique(a + d, n, a / n + 1, a % n + d - n);
    }
  }

  /** No connection ever gets more than one segment ahead of another. */
  lemma OffsetsStayTogether(p: Plan, offsets: seq<nat>, queue: seq<nat>, log: seq<Segment>, a: nat, b: nat)
    requires OnSchedule(p, offsets, queue, log) && a < p.conns && b < p.conns
    ensures offsets[a] <= offsets[b] + p.chunk
  {
    var ta, tb := TurnsTaken(p, |log|, a), TurnsTaken(p, |log|, b);
    assert ta <= tb + 1;
    MulMono(ta, tb + 1, p.chunk);
    MulNext(tb, p.chunk);
  }

  // ---------------------------------------------------------------------------------------------
  // Tiling and conservation
  // ---------------------------------------------------------------------------------------------

  predicate Covers(s: Segment, c: nat, b: nat) {
    s.conn == c && s.offset <= b < s.offset + s.length
  }

  lemma CoversIff(p: Plan, t: nat, c: nat, b: nat)
    requires p.Valid() && t < Total(p) && c < p.conns && b < p.region
    ensures Covers(SegmentAt(p, t), c, b) <==> t % p.conns == c && t / p.conns == b / p.chunk
  {
    var q, m := t / p.conns, p.chunk;
    TurnInRange(p, t);
    RoundBound(p, q);
    var s := SegmentAt(p, t);
    assert s == RoundSegment(p, q, t % p.conns);
    if Covers(s, c, b) {
      DivModUnique(b, m, q, b - q * m);
    } else if b / m == q {
      DivMod(b, m);
    }
  }

  /** The post that reads byte b of connection c. */
  function PostOfByte(p: Plan, c: nat, b: nat): nat
    requires p.Valid()
  {
    (b / p.chunk) * p.conns + c
  }

  lemma PostOfByteInRange(p: Plan, c: nat, b: nat)
    requires p.Valid() && c < p.conns && b < p.region
    ensures PostOfByte(p, c, b) < Total(p)
  {
    var t := PostOfByte(p, c, b);
    DivModUnique(t, p.conns, b / p.chunk, c);
    TurnInRange(p, t);
    DivMod(b, p.chunk);
    RoundBound(p, b / p.chunk);
  }

  lemma OwnerAndTurnFix(n: nat, t: nat, q: nat, c: nat)
    requires c < n
    ensures t % n == c && t / n == q <==> t == q * n + c
  {
    if t == q * n + c {
      DivModUnique(t, n, q, c);
    } else {
      DivMod(t, n);
    }
  }

  /** Byte b of connection c is read by one post of the iteration and by no other. */
  lemma EveryByteOnce(p: Plan, c: nat, b: nat)
    requires p.Valid() && c < p.conns && b < p.region
    ensures PostOfByte(p, c, b) < |NestedLoops(p, Rounds(p))|
    ensures forall t :: 0 <= t < |NestedLoops(p, Rounds(p))| ==>
              (Covers(NestedLoops(p, Rounds(p))[t], c, b) <==> t == PostOfByte(p, c, b))
  {
    NestedLength(p, Rounds(p));
    PostOfByteInRange(p, c, b);
    forall t | 0 <= t < |NestedLoops(p, Rounds(p))|
      ensures Covers(NestedLoops(p, Rounds(p))[t], c, b) <==> t == PostOfByte(p, c, b)
    {
      NestedAt(p, Rounds(p), t);
      CoversPost(p, t, c, b);
    }
  }

  lemma CoversPost(p: Plan, t: nat, c: nat, b: nat)
    requires p.Valid() && t < Total(p) && c < p.conns && b < p.region
    ensures Covers(SegmentAt(p, t), c, b) <==> t == PostOfByte(p, c, b)
  {
    CoversIff(p, t, c, b);
    OwnerAndTurnFix(p.conns, t, b / p.chunk, c);
  }

  /** A read never runs past the end of its region and is never empty. */
  lemma SegmentInsideRegion(p: Plan, t: nat)
    requires p.Valid() && t < Total(p)
    ensures var s := SegmentAt(p, t);
            s.conn < p.conns && 0 < s.length <= p.chunk && s.offset + s.length <= p.region
  {
    assert Total(p) == p.conns * Rounds(p);
    TurnInRange(p, t);
    RoundBound(p, Turn(p, t));
  }

  function SumLengths(log: seq<Segment>): nat {
    if log == [] then 0 else SumLengths(log[..|log| - 1]) + log[|log| - 1].length
  }

  lemma {:induction false} SumLengthsConcat(a: seq<Segment>, b: seq<Segment>)
    ensures SumLengths(a + b) == SumLengths(a) + SumLengths(b)
  {
    if b == [] {
      assert a + b == a;
    } else {
      assert (a + b)[..|a + b| - 1] == a + b[..|b| - 1];
      SumLengthsConcat(a, b[..|b| - 1]);
    }
  }

  lemma {:induction false} OneRoundSum(p: Plan, q: nat, c: nat)
    requires p.Valid() && q * p.chunk < p.region
    ensures SumLengths(OneRound(p, q, c)) == c * Min(p.chunk, p.region - q * p.chunk)
  {
    if c > 0 {
      OneRoundSum(p, q, c - 1);
      var s := OneRound(p, q, c);
      assert s[..|s| - 1] == OneRound(p, q, c - 1);
      var m := Min(p.chunk, p.region - q * p.chunk);
      MulNext(c - 1, m);
    }
  }

  lemma {:induction false} NestedSum(p: Plan, q: nat)
    requires p.Valid() && q <= Rounds(p)
    ensures SumLengths(NestedLoops(p, q)) == p.conns * Min(p.region, q * p.chunk)
  {
    if q > 0 {
      RoundBound(p, q - 1);
      NestedSum(p, q - 1);
      OneRoundSum(p, q - 1, p.conns);
      SumLengthsConcat(NestedLoops(p, q - 1), OneRound(p, q - 1, p.conns));
      var m := Min(p.chunk, p.region - (q - 1) * p.chunk);
      MulNext(q - 1, p.chunk);
      assert Min(p.region, (q - 1) * p.chunk) + m == Min(p.region, q * p.chunk);
      Distributes(p.conns, Min(p.region, (q - 1) * p.chunk), m);
    }
  }

  lemma Distributes(n: int, a: int, b: int)
    ensures n * (a + b) == n * a + n * b
  {
  }

  /** One iteration reads every region exactly once: conns * region bytes. */
  lemma IterationBytes(p: Plan)
    requires p.Valid()
    ensures SumLengths(NestedLoops(p, Rounds(p))) == p.conns * p.region
  {
    NestedSum(p, Rounds(p));
    RoundBound(p, Rounds(p));
  }
}
