/** The return-address stack: a stack of bounded depth that overwrites its oldest entry. */
module Ras {
  import opened Isa

  // The command of a clock; a swap pushes and pops: it replaces the top.
  datatype Command = Command(push: bool, pop: bool, addr: Addr)

  type Stack = seq<Addr>

  function Push(depth: nat, st: Stack, a: Addr): Stack {
    if |st| < depth then st + [a] else if st == [] then [] else st[1..] + [a]
  }

  function Do(depth: nat, st: Stack, c: Command): Stack {
    if c.push && c.pop && st != [] then st[|st| - 1 := c.addr]
    else if c.push then Push(depth, st, c.addr)
    else if c.pop && st != [] then st[..|st| - 1]
    else st
  }

  function DoAll(depth: nat, st: Stack, cs: seq<Command>): Stack {
    if cs == [] then st else Do(depth, DoAll(depth, st, cs[..|cs| - 1]), cs[|cs| - 1])
  }

  lemma Bounded(depth: nat, st: Stack, cs: seq<Command>)
    requires |st| <= depth
    ensures |DoAll(depth, st, cs)| <= depth
  {
  }

  // ---------- Calls and returns that nest ----------

  // Calls not returned yet.
  function Level(cs: seq<Command>): int {
    if cs == [] then 0
    else
      var c := cs[|cs| - 1];
      Level(cs[..|cs| - 1]) + (if c.push && !c.pop then 1 else if c.pop && !c.push then -1 else 0)
  }

  /** A stretch in which every return belongs to a call of the stretch, nested at most limit deep: it
    * never takes what was on the stack before it.
    */
  predicate Nested(cs: seq<Command>, limit: int) {
    forall n {:trigger cs[..n]} :: 0 <= n <= |cs| ==>
      0 <= Level(cs[..n]) <= limit && (n < |cs| && cs[n].pop ==> Level(cs[..n]) >= 1)
  }

  lemma {:induction false} LevelAppend(cs: seq<Command>, ds: seq<Command>)
    ensures Level(cs + ds) == Level(cs) + Level(ds)
    decreases |ds|
  {
    if ds == [] {
      assert cs + ds == cs;
    } else {
      assert (cs + ds)[..|cs + ds| - 1] == cs + ds[..|ds| - 1];
      LevelAppend(cs, ds[..|ds| - 1]);
    }
  }

  // One nested stretch behind another.
  lemma NestedJoins(cs: seq<Command>, ds: seq<Command>, limit: int)
    requires Nested(cs, limit) && Level(cs) == 0 && Nested(ds, limit)
    ensures Nested(cs + ds, limit) && Level(cs + ds) == Level(ds)
  {
    hide Level;
    LevelAppend(cs, ds);
    forall n | 0 <= n <= |cs + ds|
      ensures var k := Level((cs + ds)[..n]); 0 <= k <= limit && (n < |cs + ds| && (cs + ds)[n].pop ==> k >= 1)
    {
      if n < |cs| {
        assert (cs + ds)[..n] == cs[..n];
      } else {
        assert (cs + ds)[..n] == cs + ds[..n - |cs|];
        LevelAppend(cs, ds[..n - |cs|]);
      }
    }
  }

  /** A call, a nested stretch and its return are a nested stretch, one deeper. */
  lemma NestedCall(call: Command, mid: seq<Command>, ret: Command, limit: int)
    requires call.push && !call.pop && ret.pop && !ret.push
    requires Nested(mid, limit) && Level(mid) == 0 && limit >= 0
    ensures Nested([call] + mid + [ret], limit + 1) && Level([call] + mid + [ret]) == 0
  {
    var all := [call] + mid + [ret];
    LevelOne(call);
    LevelOne(ret);
    LevelAppend([call], mid);
    LevelAppend([call] + mid, [ret]);
    forall n | 0 <= n <= |all|
      ensures var k := Level(all[..n]); 0 <= k <= limit + 1 && (n < |all| && all[n].pop ==> k >= 1)
    {
      if n == 0 {
        assert all[..n] == [];
      } else if n <= |mid| + 1 {
        assert all[..n] == [call] + mid[..n - 1];
        LevelAppend([call], mid[..n - 1]);
        assert n <= |mid| ==> all[n] == mid[n - 1];
      } else {
        assert all[..n] == all;
      }
    }
  }

  lemma LevelOne(c: Command)
    ensures Level([c]) == if c.push && !c.pop then 1 else if c.pop && !c.push then -1 else 0
  {
    assert [c][..0] == [];
  }

  // The address pushed before a nested stretch is below the entries of the calls still open.
  lemma {:induction false} NestedKeeps(depth: nat, st: Stack, a: Addr, cs: seq<Command>)
    requires 0 < |st| <= depth && st[|st| - 1] == a && Nested(cs, depth - 1)
    ensures var r := DoAll(depth, st, cs);
            var n := Level(cs);
            0 <= n < |r| <= depth && r[|r| - 1 - n] == a
    decreases |cs|
  {
    assert cs[..|cs|] == cs;
    if cs != [] {
      var before := cs[..|cs| - 1];
      assert forall n {:trigger before[..n]} :: 0 <= n <= |before| ==> before[..n] == cs[..n];
      NestedKeeps(depth, st, a, before);
    }
  }

  /** A call, a nested stretch no deeper than the stack with the call: then the top is the address the
    * call pushed, whatever was on the stack before, and however full it was.
    */
  lemma ReturnsToCall(depth: nat, st: Stack, call: Command, mid: seq<Command>)
    requires |st| <= depth && depth > 0 && call.push
    requires Nested(mid, depth - 1) && Level(mid) == 0
    ensures var r := DoAll(depth, Do(depth, st, call), mid);
            r != [] && r[|r| - 1] == call.addr
  {
    NestedKeeps(depth, Do(depth, st, call), call.addr, mid);
  }

  lemma {:induction false} DoAllAppend(depth: nat, st: Stack, cs: seq<Command>, ds: seq<Command>)
    ensures DoAll(depth, st, cs + ds) == DoAll(depth, DoAll(depth, st, cs), ds)
    decreases |ds|
  {
    if ds == [] {
      assert cs + ds == cs;
    } else {
      assert (cs + ds)[..|cs + ds| - 1] == cs + ds[..|ds| - 1];
      DoAllAppend(depth, st, cs, ds[..|ds| - 1]);
    }
  }
}
