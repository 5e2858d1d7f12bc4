/** `apm.c` in its own form: the context, `send_msg`, `recv_msg` and the loop of `main`. */
module ApmProgram {

  import opened PingPong

  function Calls(op: Op, calls: seq<Op>): nat {
    if calls == [] then 0 else Calls(op, calls[..|calls| - 1]) + if calls[|calls| - 1] == op then 1 else 0
  }

  /** The counters of a side that has connected are those of its calls. */
  lemma {:induction false} ScriptCalls(server: bool, n: nat)
    ensures Calls(GetSend, Script(server, n)) == n && Calls(PostRecv, Script(server, n)) == n + 1
  {
    if n == 0 {
      assert Script(server, 0)[..0] == [];
    } else {
      ScriptCalls(server, n - 1);
      ScriptNext(server, n - 1);
      Appended(GetSend, Script(server, n - 1), Round(server));
      Appended(PostRecv, Script(server, n - 1), Round(server));
    }
  }

  lemma ScriptNext(server: bool, n: nat)
    ensures Script(server, n + 1) == Script(server, n) + Round(server)
  {
  }

  lemma Appended(op: Op, s: seq<Op>, r: seq<Op>)
    requires |r| == 4
    ensures Calls(op, s + r)
         == Calls(op, s) + (if r[0] == op then 1 else 0) + (if r[1] == op then 1 else 0)
            + (if r[2] == op then 1 else 0) + (if r[3] == op then 1 else 0)
  {
    assert s + r == s + [r[0]] + [r[1]] + [r[2]] + [r[3]];
    One(op, s, r[0]);
    One(op, s + [r[0]], r[1]);
    One(op, s + [r[0]] + [r[1]], r[2]);
    One(op, s + [r[0]] + [r[1]] + [r[2]], r[3]);
  }

  lemma One(op: Op, s: seq<Op>, o: Op)
    ensures Calls(op, s + [o]) == Calls(op, s) + if o == op then 1 else 0
  {
    assert (s + [o])[..|s|] == s;
  }

  lemma Pair(s: seq<Op>, a: Op, b: Op)
    ensures forall op :: Calls(op, s + [a]) == Calls(op, s) + if a == op then 1 else 0
    ensures forall op :: Calls(op, s + [a] + [b]) == Calls(op, s + [a]) + if b == op then 1 else 0
  {
    assert (s + [a])[..|s|] == s && (s + [a] + [b])[..|s| + 1] == s + [a];
  }

  lemma {:induction false} ScriptLength(server: bool, n: nat)
    ensures |Script(server, n)| == 1 + 4 * n && Script(server, n)[0] == PostRecv
  {
    RoundsLength(server, n);
  }

  /** The calls of pass i stand at their places in the script. */
  lemma ScriptAt(server: bool, i: nat, n: nat)
    requires i < n
    ensures var s, r, at := Script(server, n), Round(server), 1 + 4 * i;
            && |s| == 1 + 4 * n
            && s[at] == r[0] && s[at + 1] == r[1] && s[at + 2] == r[2] && s[at + 3] == r[3]
  {
    RoundsPrefix(server, i, n);
    RoundsLength(server, i);
    RoundsLength(server, n);
    var r := Rounds(server, i) + Round(server);
    assert Rounds(server, n)[..|r|] == r && Rounds(server, n)[..|r|][4 * i..] == Round(server);
    assert Script(server, n)[1 + 4 * i..][..4] == Round(server);
  }

  /** One side. `calls` are the calls that have returned without an error; the next one returns an error
   * when `fails` says so of its position.
   */
  class Context {
    const server: bool
    const msgCount: nat
    const fails: nat -> bool
    /** The client migrates the path after this pass, if there is one; the adapter may refuse. */
    const migrateAfter: int
    const migrates: bool
    var sendCnt: nat
    var recvCnt: nat
    var calls: seq<Op>
    var disconnected: bool

    constructor (server: bool, msgCount: nat, migrateAfter: int, fails: nat -> bool, migrates: bool)
      ensures this.server == server && this.msgCount == msgCount && this.fails == fails
      ensures this.migrateAfter == migrateAfter && this.migrates == migrates
      ensures calls == [] && sendCnt == recvCnt == 0 && !disconnected
    {
      this.server, this.msgCount, this.fails := server, msgCount, fails;
      this.migrateAfter, this.migrates := migrateAfter, migrates;
      sendCnt, recvCnt, calls, disconnected := 0, 0, [], false;
    }

    /** A verbs call. */
    method Call(op: Op) returns (ret: int)
      modifies this`calls
      ensures ret == (if fails(|old(calls)|) then -1 else 0)
      ensures calls == if ret == 0 then old(calls) + [op] else old(calls)
    {
      if fails(|calls|) {
        return -1;
      }
      calls := calls + [op];
      ret := 0;
    }

    /** Two calls in order, the second only after the first has succeeded. */
    ghost predicate Did(before: seq<Op>, ret: int, a: Op, b: Op)
      reads this
    {
      && before <= calls <= before + [a] + [b]
      && (if ret == 0 then calls == before + [a] + [b] else fails(|calls|) && |calls| < |before| + 2)
      && (forall k :: |before| <= k < |calls| ==> !fails(k))
    }

    /** Nothing but calls of the script, none of them failed. */
    ghost predicate OnScript()
      reads this
    {
      calls <= Script(server, msgCount) && forall k :: 1 <= k < |calls| ==> !fails(k)
    }

    lemma StaysOnScript(before: seq<Op>, ret: int, a: Op, b: Op)
      requires Did(before, ret, a, b) && before <= Script(server, msgCount)
      requires |before| + 1 < |Script(server, msgCount)|
      requires Script(server, msgCount)[|before|] == a && Script(server, msgCount)[|before| + 1] == b
      requires forall k :: 1 <= k < |before| ==> !fails(k)
      ensures OnScript()
    {
    }

    /** The counters tell how many messages have been sent and received. */
    ghost predicate Counted()
      reads this
    {
      sendCnt == Calls(GetSend, calls) && recvCnt == Calls(PostRecv, calls) - 1
    }

    method SendMsg() returns (ret: int)
      modifies this`calls
      ensures Did(old(calls), ret, PostSend, GetSend)
      ensures Calls(GetSend, calls) == Calls(GetSend, old(calls)) + if ret == 0 then 1 else 0
      ensures Calls(PostRecv, calls) == Calls(PostRecv, old(calls))
    {
      ret := Call(PostSend);
      if ret != 0 {
        return;
      }
      ret := Call(GetSend);
      Pair(old(calls), PostSend, GetSend);
    }

    method RecvMsg() returns (ret: int)
      modifies this`calls
      ensures Did(old(calls), ret, GetRecv, PostRecv)
      ensures Calls(PostRecv, calls) == Calls(PostRecv, old(calls)) + if ret == 0 then 1 else 0
      ensures Calls(GetSend, calls) == Calls(GetSend, old(calls))
    {
      ret := Call(GetRecv);
      if ret != 0 {
        return;
      }
      ret := Call(PostRecv);
      Pair(old(calls), GetRecv, PostRecv);
    }

    /** The next two calls of the script. */
    ghost predicate Next(a: Op, b: Op)
      reads this
    {
      var s := Script(server, msgCount);
      |calls| + 1 < |s| && s[|calls|] == a && s[|calls| + 1] == b
    }

    method RecvAndCount() returns (ret: int)
      requires OnScript() && Counted() && Next(GetRecv, PostRecv)
      modifies this`calls, this`recvCnt
      ensures OnScript() && Counted()
      ensures if ret == 0 then |calls| == |old(calls)| + 2
              else fails(|calls|) && |calls| < |old(calls)| + 2
    {
      ghost var before := calls;
      ret := RecvMsg();
      StaysOnScript(before, ret, GetRecv, PostRecv);
      if ret == 0 {
        recvCnt := recvCnt + 1;
      }
    }

    method SendAndCount() returns (ret: int)
      requires OnScript() && Counted() && Next(PostSend, GetSend)
      modifies this`calls, this`sendCnt
      ensures OnScript() && Counted()
      ensures if ret == 0 then |calls| == |old(calls)| + 2
              else fails(|calls|) && |calls| < |old(calls)| + 2
    {
      ghost var before := calls;
      ret := SendMsg();
      StaysOnScript(before, ret, PostSend, GetSend);
      if ret == 0 {
        sendCnt := sendCnt + 1;
      }
    }

    /** Pass i of the loop. */
    method ExchangeOnce(ghost i: nat) returns (err: int)
      requires OnScript() && Counted() && i < msgCount && |calls| == 1 + 4 * i
      modifies this`calls, this`sendCnt, this`recvCnt
      ensures OnScript() && Counted()
      ensures if err == 0 then |calls| == 1 + 4 * (i + 1) else fails(|calls|) && |calls| < 1 + 4 * (i + 1)
    {
      ScriptAt(server, i, msgCount);
      if server {
        err := RecvAndCount();
        if err != 0 { return; }
      }
      err := SendAndCount();
      if err != 0 { return; }
      if !server {
        err := RecvAndCount();
      }
    }

    /** This side is a client whose path migration is due in some pass and refused. */
    predicate RefusesMigration() { !server && !migrates && 0 <= migrateAfter < msgCount }

    /** The exchange of main, entered with one receive posted: the calls of the script up to the first that
     * fails, or up to a refused migration, and all of it otherwise. Only the migration shows in the result of
     * main, which then does not disconnect; an exchange that breaks off at a call still returns 0.
     */
    method Exchange() returns (ret: int)
      requires calls == [PostRecv] && !disconnected
      modifies this
      ensures OnScript() && Counted()
      ensures ret == 0 ==> calls == Script(server, msgCount) || fails(|calls|)
      ensures ret != 0 <==> RefusesMigration() && |calls| == 1 + 4 * (migrateAfter + 1)
      ensures RefusesMigration() ==> |calls| <= 1 + 4 * (migrateAfter + 1)
      ensures calls == Script(server, msgCount) ==> sendCnt == recvCnt == msgCount
      ensures disconnected <==> ret == 0
    {
      ret := 0;
      ScriptLength(server, msgCount);
      ScriptCalls(server, msgCount);
      Pair([], PostRecv, PostRecv);
      sendCnt, recvCnt := 0, 0;
      var i := 0;
      while i < msgCount
        invariant i <= msgCount && |calls| == 1 + 4 * i
        invariant OnScript() && Counted()
        invariant RefusesMigration() ==> i <= migrateAfter
        invariant ret == 0 && !disconnected
      {
        var err := ExchangeOnce(i);
        if err != 0 { break; }
        if !server && i == migrateAfter && !migrates {
          return -1;
        }
        i := i + 1;
      }
      disconnected := true;
    }
  }
}
