/** The connection table a server fills while it waits: `add_connection`, `handle_connect_request`,
 * `handle_established` and the wait loop of `run_server`.
 */
module ConnectionTable {

  /** How far handle_connect_request and the acknowledgement of its event get. */
  datatype Handling = TransportFails | ParamsFail | AcceptFails | NotAcked | Handled

  /** What the connection manager reports; `id` identifies the peer's connection. An unexpected event is not
   * among those the server waits for.
   */
  datatype Event =
    | Request(id: nat, how: Handling)
    | Established(id: nat, acked: bool)
    | Disconnected(acked: bool)
    | Unexpected
    | NoEvent
  {
    /** The next slot of the table is written. */
    predicate TakesSlot() { Request? && !how.TransportFails? }

    /** The slot counts as filled; the request was accepted. */
    predicate FillsSlot() { TakesSlot() && !how.ParamsFail? }
    predicate IsAccepted() { FillsSlot() && !how.AcceptFails? }

    /** wait_and_process_one_event returns an error. */
    predicate Fails() {
      match this
      case Request(_, how) => !how.Handled?
      case Established(_, acked) => !acked
      case Disconnected(acked) => !acked
      case _ => true
    }
  }

  /** The filled slots, in order, and the number of established connections. */
  datatype Table = Table(slots: seq<nat>, established: nat)

  datatype Wait = Ready(table: Table) | Waiting(table: Table) | Overflow(table: Table) | Failed(table: Table)

  /** One event; a request with no slot left would write past the table. A connection of a DC server is
   * established once its request is accepted.
   */
  function Handle(dc: bool, t: Table, e: Event): Table {
    match e
    case Request(id, _) =>
      if e.FillsSlot() then Table(t.slots + [id], t.established + if dc && e.IsAccepted() then 1 else 0) else t
    case Established(_, _) => t.(established := t.established + 1)
    case _ => t
  }

  /** The wait loop of run_server for a table of n slots. */
  function WaitLoop(dc: bool, n: nat, t: Table, events: seq<Event>): Wait
    decreases |events|
  {
    if t.established >= n then Ready(t)
    else if events == [] then Waiting(t)
    else if events[0].TakesSlot() && |t.slots| >= n then Overflow(t)
    else if events[0].Fails() then Failed(Handle(dc, t, events[0]))
    else WaitLoop(dc, n, Handle(dc, t, events[0]), events[1..])
  }

  predicate Distinct(s: seq<nat>) { forall i, j :: 0 <= i < j < |s| ==> s[i] != s[j] }

  /** Every connection asks once, and on RC is established at most once and only after it asked. */
  predicate Orderly(dc: bool, asked: seq<nat>, done: set<nat>, events: seq<Event>)
    decreases |events|
  {
    events == [] ||
    match events[0]
    case Request(id, _) => id !in asked && Orderly(dc, asked + [id], done, events[1..])
    case Established(id, _) => !dc && id in asked && id !in done && Orderly(dc, asked, done + {id}, events[1..])
    case _ => Orderly(dc, asked, done, events[1..])
  }

  /** The established connections are counted, and are among those that asked. */
  ghost predicate TableInv(dc: bool, n: nat, t: Table, done: set<nat>) {
    && Distinct(t.slots)
    && |t.slots| <= n
    && (forall id :: id in done ==> id in t.slots)
    && t.established == (if dc then |t.slots| else |done|)
  }

  lemma {:induction false} AtMostAsked(done: set<nat>, asked: seq<nat>)
    requires forall id :: id in done ==> id in asked
    ensures |done| <= |asked|
  {
    if asked == [] {
      assert done == {};
    } else {
      var last := asked[|asked| - 1];
      AtMostAsked(done - {last}, asked[..|asked| - 1]);
      assert done <= (done - {last}) + {last};
    }
  }

  /** For every order of events and every failure, no connection gets two slots, and a wait that ends well has
   * filled all n slots and established every connection.
   */
  lemma {:induction false} WaitFillsTable(dc: bool, n: nat, t: Table, done: set<nat>, events: seq<Event>)
    requires TableInv(dc, n, t, done) && Orderly(dc, t.slots, done, events)
    ensures var w := WaitLoop(dc, n, t, events);
            && Distinct(w.table.slots)
            && |w.table.slots| <= n
            && (w.Ready? ==> |w.table.slots| == n == w.table.established)
            && (w.Overflow? ==> !dc)
    decreases |events|
  {
    AtMostAsked(done, t.slots);
    if t.established < n && events != [] && !(events[0].TakesSlot() && |t.slots| >= n) && !events[0].Fails() {
      var done' := if events[0].Established? then done + {events[0].id} else done;
      WaitFillsTable(dc, n, Handle(dc, t, events[0]), done', events[1..]);
    }
  }

  function Requests(events: seq<Event>): nat {
    if events == [] then 0 else Requests(events[1..]) + if events[0].Request? then 1 else 0
  }

  function Establishments(dc: bool, events: seq<Event>): nat {
    if events == [] then 0 else
    Establishments(dc, events[1..])
    + if events[0].Established? || (dc && events[0].Request?) then 1 else 0
  }

  /** The events for which wait_and_process_one_event returns an error: none was got, one that is not waited
   * for, a request that is not handled to its end, or an event that cannot be acknowledged.
   */
  predicate ReturnsError(e: Event) {
    || e == NoEvent
    || e == Unexpected
    || (e.Request? && e.how in {TransportFails, ParamsFail, AcceptFails, NotAcked})
    || (e.Established? && e.acked == false)
    || (e.Disconnected? && e.acked == false)
  }

  /** A request that gets as far as the table. */
  predicate WritesSlot(e: Event) { e.Request? && e.how in {ParamsFail, AcceptFails, NotAcked, Handled} }

  predicate AllHandled(events: seq<Event>) { forall i :: 0 <= i < |events| ==> !ReturnsError(events[i]) }

  /** Event k is a request that finds the table full while the server still waits. */
  predicate OneTooMany(dc: bool, n: nat, t: Table, events: seq<Event>, k: nat) {
    && k < |events| && WritesSlot(events[k]) && AllHandled(events[..k])
    && |t.slots| + Requests(events[..k]) >= n
    && t.established + Establishments(dc, events[..k]) < n
  }

  /** The table overflows exactly when some request comes after n others and before n establishments, with no
   * failure before it.
   */
  lemma {:induction false} OverflowIff(dc: bool, n: nat, t: Table, events: seq<Event>)
    ensures WaitLoop(dc, n, t, events).Overflow? <==> exists k :: OneTooMany(dc, n, t, events, k)
    decreases |events|
  {
    if t.established >= n || events == [] {
    } else if events[0].TakesSlot() && |t.slots| >= n {
      assert OneTooMany(dc, n, t, events, 0);
    } else if events[0].Fails() {
      assert !OneTooMany(dc, n, t, events, 0);
      assert forall k :: 0 < k < |events| ==> events[..k][0] == events[0];
    } else {
      var t' := Handle(dc, t, events[0]);
      OverflowIff(dc, n, t', events[1..]);
      forall k: nat ensures OneTooMany(dc, n, t', events[1..], k) <==> OneTooMany(dc, n, t, events, k + 1) {
        if k + 1 < |events| {
          assert events[..k + 1][0] == events[0] && events[..k + 1][1..] == events[1..][..k];
        }
      }
      assert !OneTooMany(dc, n, t, events, 0);
      if k: nat :| OneTooMany(dc, n, t, events, k) {
        assert OneTooMany(dc, n, t', events[1..], k - 1);
      }
      if k: nat :| OneTooMany(dc, n, t', events[1..], k) {
        assert OneTooMany(dc, n, t, events, k + 1);
      }
    }
  }

  /** Event k returns an error while the server still waits, with room in the table up to it. */
  predicate FirstError(dc: bool, n: nat, t: Table, events: seq<Event>, k: nat) {
    && k < |events| && ReturnsError(events[k]) && AllHandled(events[..k])
    && t.established + Establishments(dc, events[..k]) < n
    && |t.slots| + Requests(events[..k]) + (if WritesSlot(events[k]) then 1 else 0) <= n
  }

  /** The wait fails exactly at the first event that returns an error, if the server still waits then and the
   * table has not overflowed.
   */
  lemma {:induction false} FailedIff(dc: bool, n: nat, t: Table, events: seq<Event>)
    requires |t.slots| <= n
    ensures WaitLoop(dc, n, t, events).Failed? <==> exists k :: FirstError(dc, n, t, events, k)
    decreases |events|
  {
    if t.established >= n || events == [] {
    } else {
      assert events[..0] == [] && events[..1] == [events[0]];
      if events[0].TakesSlot() && |t.slots| >= n {
        forall k | 0 <= k < |events| ensures !FirstError(dc, n, t, events, k) {
          CountsSplit(events, k);
        }
      } else if events[0].Fails() {
        assert FirstError(dc, n, t, events, 0);
      } else {
        var t' := Handle(dc, t, events[0]);
        FailedIff(dc, n, t', events[1..]);
        forall k: nat ensures FirstError(dc, n, t', events[1..], k) <==> FirstError(dc, n, t, events, k + 1) {
          FirstErrorNext(dc, n, t, events, k);
        }
        assert !FirstError(dc, n, t, events, 0);
        if k: nat :| FirstError(dc, n, t, events, k) { assert FirstError(dc, n, t', events[1..], k - 1); }
        if k: nat :| FirstError(dc, n, t', events[1..], k) { assert FirstError(dc, n, t, events, k + 1); }
      }
    }
  }

  lemma FirstErrorNext(dc: bool, n: nat, t: Table, events: seq<Event>, k: nat)
    requires events != [] && !events[0].Fails()
    ensures FirstError(dc, n, Handle(dc, t, events[0]), events[1..], k) <==> FirstError(dc, n, t, events, k + 1)
  {
    if k + 1 < |events| {
      CountsSplit(events, k + 1);
      assert events[..k + 1] == [events[0]] + events[1..][..k];
    }
  }

  /** The requests among the first k events, with the first event apart. */
  lemma CountsSplit(events: seq<Event>, k: nat)
    requires k <= |events|
    ensures k > 0 ==> events[..k][0] == events[0]
    ensures k > 0 ==> Requests(events[..k]) == Requests(events[..k][1..]) + if events[0].Request? then 1 else 0
  {
  }

  /** The table w when event k has failed: all requests before it have their slots, in order, and so has one that
   * fails after it was counted; a connection whose event only could not be acknowledged is established.
   */
  predicate LeftAt(dc: bool, t: Table, w: Table, events: seq<Event>, k: nat)
    requires k < |events|
  {
    var e := events[k];
    && w.slots == t.slots + Ids(events[..k]) + (if e.Request? && e.how in {AcceptFails, NotAcked} then [e.id] else [])
    && w.established == t.established + Establishments(dc, events[..k])
                        + if e.Established? || (dc && e.Request? && e.how == NotAcked) then 1 else 0
  }

  /** What a failed wait leaves. */
  lemma {:induction false} FailedTable(dc: bool, n: nat, t: Table, events: seq<Event>, k: nat)
    requires FirstError(dc, n, t, events, k)
    ensures LeftAt(dc, t, WaitLoop(dc, n, t, events).table, events, k)
    decreases k
  {
    if k == 0 {
      assert events[..0] == [];
    } else {
      assert events[..k][0] == events[0];
      FirstErrorNext(dc, n, t, events, k - 1);
      FailedTable(dc, n, Handle(dc, t, events[0]), events[1..], k - 1);
      LeftNext(dc, t, WaitLoop(dc, n, t, events).table, events, k - 1);
    }
  }

  lemma LeftNext(dc: bool, t: Table, w: Table, events: seq<Event>, k: nat)
    requires k + 1 < |events| && !events[0].Fails()
    requires LeftAt(dc, Handle(dc, t, events[0]), w, events[1..], k)
    ensures LeftAt(dc, t, w, events, k + 1)
  {
    assert events[..k + 1] == [events[0]] + events[1..][..k];
    assert events[..k + 1][1..] == events[1..][..k];
  }

  /** The requests among the events, in order. */
  function Ids(events: seq<Event>): seq<nat> {
    if events == [] then [] else (if events[0].Request? then [events[0].id] else []) + Ids(events[1..])
  }

  /** Handled requests, acknowledged establishments and acknowledged disconnects, and nothing else. */
  predicate Good(e: Event) {
    (e.Request? && e.how == Handled) || (e.Established? && e.acked) || (e.Disconnected? && e.acked)
  }

  /** When no more requests come than there are slots, all are handled, and enough are established, the wait ends
   * well, however disconnects come in between; and if all slots were asked for, they are filled in the order of
   * the requests.
   */
  lemma {:induction false} WaitEndsWell(dc: bool, n: nat, t: Table, events: seq<Event>)
    requires forall i :: 0 <= i < |events| ==> Good(events[i])
    requires |t.slots| + Requests(events) <= n
    requires t.established + Establishments(dc, events) >= n
    ensures var w := WaitLoop(dc, n, t, events);
            && w.Ready?
            && w.table.slots <= t.slots + Ids(events)
            && (|w.table.slots| == n ==> w.table.slots == t.slots + Ids(events))
    decreases |events|
  {
    IdsCount(events);
    if t.established < n {
      var t' := Handle(dc, t, events[0]);
      assert t'.slots + Ids(events[1..]) == t.slots + Ids(events);
      WaitEndsWell(dc, n, t', events[1..]);
    }
  }

  lemma {:induction false} IdsCount(events: seq<Event>)
    ensures |Ids(events)| == Requests(events)
  {
    if events != [] { IdsCount(events[1..]); }
  }

  /** The address get_conn_param advertises for connection i of a buffer at `base`. */
  function VirtAddr(base: nat, size: nat, i: nat): nat { base + i * size }

  lemma NextSlice(base: nat, size: nat, i: nat, j: nat)
    requires i < j
    ensures VirtAddr(base, size, i) + size <= VirtAddr(base, size, j)
  {
    assert j * size == (i + 1) * size + (j - i - 1) * size;
    assert (j - i - 1) * size >= 0;
  }

  /** No address lies in the slices of two connections, and every slice is inside the registered buffer. */
  lemma SlicesDisjoint(base: nat, n: nat, size: nat, i: nat, j: nat, a: nat)
    requires i < n && j < n
    requires VirtAddr(base, size, i) <= a < VirtAddr(base, size, i) + size
    requires VirtAddr(base, size, j) <= a < VirtAddr(base, size, j) + size
    ensures i == j
    ensures base <= a < base + n * size
  {
    if i < j { NextSlice(base, size, i, j); }
    if j < i { NextSlice(base, size, j, i); }
    NextSlice(base, size, i, n);
  }

  // ---------------------------------------------------------------------------------------------
  // The table in place
  // ---------------------------------------------------------------------------------------------

  class Connections {
    const dc: bool
    /** One entry per connection, calloc'ed for num_connections of them. */
    const conns: array<nat>
    var numConns: nat
    var numEstablished: nat

    ghost predicate Valid()
      reads this, conns
    {
      numConns <= conns.Length
    }

    ghost function View(): Table
      requires Valid()
      reads this, conns
    {
      Table(conns[..numConns], numEstablished)
    }

    constructor (dc: bool, numConnections: nat)
      ensures Valid() && this.dc == dc && conns.Length == numConnections && fresh(conns)
      ensures View() == Table([], 0)
    {
      this.dc := dc;
      conns := new nat[numConnections](_ => 0);
      numConns, numEstablished := 0, 0;
    }

    /** handle_connect_request, with add_connection. */
    method HandleConnectRequest(id: nat, how: Handling) returns (ret: int)
      requires Valid() && (how.TransportFails? || numConns < conns.Length)
      modifies this, conns
      ensures Valid() && View() == Handle(dc, old(View()), Request(id, how))
      ensures ret == 0 <==> Request(id, how).IsAccepted()
    {
      if how.TransportFails? {
        return -1;
      }
      conns[numConns] := id;
      if how.ParamsFail? {
        return -1;
      }
      numConns := numConns + 1;
      if how.AcceptFails? {
        return -1;
      }
      if dc {
        numEstablished := numEstablished + 1;
      }
      ret := 0;
    }

    /** wait_and_process_one_event */
    method ProcessEvent(e: Event) returns (ret: int)
      requires Valid()
      requires e.TakesSlot() ==> numConns < conns.Length
      modifies this, conns
      ensures Valid() && View() == Handle(dc, old(View()), e)
      ensures ret == 0 <==> !e.Fails()
    {
      match e {
        case Request(id, how) =>
          ret := HandleConnectRequest(id, how);
          if ret == 0 && how.NotAcked? {
            return -1;
          }
        case Established(_, acked) =>
          numEstablished := numEstablished + 1;
          ret := if acked then 0 else -1;
        case Disconnected(acked) =>
          ret := if acked then 0 else -1;
        case Unexpected =>
          ret := -1;
        case NoEvent =>
          ret := -1;
      }
    }

    /** The wait loop: an error of an event ends it; `done` tells whether all connections were established
     * before the events ran out.
     */
    method WaitForConnections(events: seq<Event>) returns (ret: int, done: bool)
      requires Valid() && !WaitLoop(dc, conns.Length, View(), events).Overflow?
      modifies this, conns
      ensures Valid()
      ensures WaitLoop(dc, conns.Length, old(View()), events)
           == if ret != 0 then Failed(View()) else if done then Ready(View()) else Waiting(View())
    {
      ret := 0;
      ghost var wait := WaitLoop(dc, conns.Length, View(), events);
      var used := 0;
      assert events[0..] == events;
      while numEstablished < conns.Length
        invariant Valid() && used <= |events| && ret == 0
        invariant WaitLoop(dc, conns.Length, View(), events[used..]) == wait
        decreases |events| - used
      {
        if used == |events| {
          return ret, false;
        }
        assert events[used..][0] == events[used] && events[used..][1..] == events[used + 1..];
        ret := ProcessEvent(events[used]);
        used := used + 1;
        if ret != 0 {
          return ret, false;
        }
      }
      done := true;
    }
  }
}
