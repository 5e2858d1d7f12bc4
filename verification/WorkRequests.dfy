/** Work requests handed to the adapter, and the two tables the program keeps about them:
 * the per-initiator counters and the 64-bit bitmap of free DC initiators.
 */
module WorkRequests {

  import opened RoundRobin

  const NUM_DCI: nat := 8
  const BITMAP_WIDTH: nat := 64

  /** A signalled request that has been posted and whose completion has not been polled yet. */
  datatype Wr =
    | Read(segment: Segment, wrId: nat)
    | Send(conn: nat, wrId: nat)

  predicate IsRead(w: Wr) { w.Read? }

  function OnDci(d: nat): Wr -> bool { (w: Wr) => w.wrId == d }

  function Count(p: Wr -> bool, ws: seq<Wr>): nat {
    if ws == [] then 0 else Count(p, ws[..|ws| - 1]) + if p(ws[|ws| - 1]) then 1 else 0
  }

  /** The requests left once the completion of request k has been polled; completions come in any order. */
  function Without(ws: seq<Wr>, k: nat): seq<Wr>
    requires k < |ws|
  {
    ws[..k] + ws[k + 1..]
  }

  lemma CountAppend(p: Wr -> bool, ws: seq<Wr>, w: Wr)
    ensures Count(p, ws + [w]) == Count(p, ws) + if p(w) then 1 else 0
  {
    assert (ws + [w])[..|ws|] == ws;
  }

  lemma {:induction false} CountWithout(p: Wr -> bool, ws: seq<Wr>, k: nat)
    requires k < |ws|
    ensures Count(p, ws) == Count(p, Without(ws, k)) + if p(ws[k]) then 1 else 0
  {
    var last := |ws| - 1;
    if k == last {
      assert Without(ws, k) == ws[..last];
    } else {
      var front := ws[..last];
      CountWithout(p, front, k);
      assert Without(ws, k) == Without(front, k) + [ws[last]];
      CountAppend(p, Without(front, k), ws[last]);
    }
  }

  lemma {:induction false} CountAll(p: Wr -> bool, ws: seq<Wr>)
    requires forall w :: w in ws ==> p(w)
    ensures Count(p, ws) == |ws|
  {
    if ws != [] { CountAll(p, ws[..|ws| - 1]); }
  }

  lemma {:induction false} CountSome(p: Wr -> bool, ws: seq<Wr>, k: nat)
    requires k < |ws| && p(ws[k])
    ensures Count(p, ws) > 0
  {
    CountWithout(p, ws, k);
  }

  // ---------------------------------------------------------------------------------------------
  // Counters
  // ---------------------------------------------------------------------------------------------

  function Sum(s: seq<nat>): nat {
    if s == [] then 0 else Sum(s[..|s| - 1]) + s[|s| - 1]
  }

  lemma {:induction false} SumUpdate(s: seq<nat>, d: nat, v: nat)
    requires d < |s|
    ensures Sum(s[d := v]) == Sum(s) - s[d] + v
  {
    var last := |s| - 1;
    if d == last {
      assert s[d := v][..last] == s[..last];
    } else {
      assert s[d := v][..last] == s[..last][d := v];
      SumUpdate(s[..last], d, v);
    }
  }

  lemma {:induction false} SumZero(s: seq<nat>)
    requires forall d :: 0 <= d < |s| ==> s[d] == 0
    ensures Sum(s) == 0
  {
    if s != [] { SumZero(s[..|s| - 1]); }
  }

  lemma {:induction false} TermAtMostSum(s: seq<nat>, d: nat)
    requires d < |s|
    ensures s[d] <= Sum(s)
  {
    if d < |s| - 1 { TermAtMostSum(s[..|s| - 1], d); }
  }

  /** Pigeonhole: fewer requests than initiators leave an initiator idle. */
  lemma {:induction false} SomeIdle(s: seq<nat>) returns (d: nat)
    requires Sum(s) < |s|
    ensures d < |s| && s[d] == 0
  {
    var last := |s| - 1;
    if s[last] == 0 {
      d := last;
    } else {
      d := SomeIdle(s[..last]);
    }
  }

  // ---------------------------------------------------------------------------------------------
  // The bitmap
  // ---------------------------------------------------------------------------------------------

  /** The index of the lowest set bit at or above `from`; |bits| when there is none. */
  function FindFirstSet(bits: seq<bool>, from: nat): (d: nat)
    requires from <= |bits|
    ensures from <= d <= |bits|
    ensures forall i :: from <= i < d ==> !bits[i]
    ensures d < |bits| ==> bits[d]
    decreases |bits| - from
  {
    if from == |bits| || bits[from] then from else FindFirstSet(bits, from + 1)
  }

  predicate NoneSet(bits: seq<bool>) { forall i :: 0 <= i < |bits| ==> !bits[i] }
}
