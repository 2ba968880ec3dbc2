/** The block behind the return-address stack: a circle of entries, the index of the top and a count. */
module StackRtl {
  import opened Isa
  import opened Ras

  // ---------- The circle ----------

  // The index above i, and the one j below it, around a circle of n.
  function Above(n: nat, i: nat): (r: nat)
    requires i < n
    ensures r < n
  {
    if i + 1 == n then 0 else i + 1
  }

  function Below(n: nat, i: nat, j: nat): (r: nat)
    requires i < n && j <= n
    ensures r < n
  {
    if j <= i then i - j else i + n - j
  }

  predicate Fits(m: seq<Addr>, top: nat, count: nat) { top < |m| && count <= |m| }

  /** The entries of a circle, the newest last. */
  function EntriesOf(m: seq<Addr>, top: nat, count: nat): (st: Stack)
    requires Fits(m, top, count)
    ensures |st| == count && forall k :: 0 <= k < count ==> st[k] == m[Below(|m|, top, count - 1 - k)]
  {
    seq(count, k requires 0 <= k < count => m[Below(|m|, top, count - 1 - k)])
  }

  lemma Replaced(m: seq<Addr>, top: nat, count: nat, a: Addr)
    requires Fits(m, top, count) && count > 0
    ensures EntriesOf(m[top := a], top, count) == EntriesOf(m, top, count)[count - 1 := a]
  {
  }

  // Around the circle the entry below the one above the top is the top, and no other is there.
  lemma AboveTop(n: nat, i: nat, j: nat)
    requires i < n && 0 < j <= n
    ensures Below(n, Above(n, i), j) == Below(n, i, j - 1)
    ensures j < n ==> Below(n, Above(n, i), j) != Above(n, i)
    ensures Below(n, Above(n, i), 0) == Above(n, i)
  {
  }

  // The stack after a push, and its entry k.
  lemma PushSize(depth: nat, st: Stack, a: Addr)
    requires 0 < depth && |st| <= depth
    ensures |Push(depth, st, a)| == if |st| == depth then depth else |st| + 1
  {
  }

  lemma PushAt(depth: nat, st: Stack, a: Addr, k: nat)
    requires 0 < depth && |st| <= depth && k < |Push(depth, st, a)|
    ensures Push(depth, st, a)[k]
            == if k == |Push(depth, st, a)| - 1 then a else if |st| == depth then st[k + 1] else st[k]
  {
  }

  lemma PushedAt(m: seq<Addr>, top: nat, count: nat, a: Addr, now: nat, k: nat)
    requires Fits(m, top, count) && now == (if count == |m| then count else count + 1) && k < now
    ensures var up := Above(|m|, top);
            EntriesOf(m[up := a], up, now)[k] == Push(|m|, EntriesOf(m, top, count), a)[k]
  {
    hide Above, Below, EntriesOf, Push;
    var up := Above(|m|, top);
    var st := EntriesOf(m, top, count);
    AboveTop(|m|, top, if k < now - 1 then now - 1 - k else 1);
    PushSize(|m|, st, a);
    PushAt(|m|, st, a, k);
    assert EntriesOf(m[up := a], up, now)[k] == m[up := a][Below(|m|, up, now - 1 - k)];
  }

  // A push goes above the top; on a full circle it takes the place of the oldest.
  lemma Pushed(m: seq<Addr>, top: nat, count: nat, a: Addr)
    requires Fits(m, top, count)
    ensures var up := Above(|m|, top);
            EntriesOf(m[up := a], up, if count == |m| then count else count + 1)
            == Push(|m|, EntriesOf(m, top, count), a)
  {
    hide Above, Below, EntriesOf, Push;
    var now := if count == |m| then count else count + 1;
    var st := EntriesOf(m, top, count);
    PushSize(|m|, st, a);
    forall k | 0 <= k < now
      ensures EntriesOf(m[Above(|m|, top) := a], Above(|m|, top), now)[k] == Push(|m|, st, a)[k]
    {
      PushedAt(m, top, count, a, now, k);
    }
  }

  lemma Popped(m: seq<Addr>, top: nat, count: nat)
    requires Fits(m, top, count) && count > 0
    ensures EntriesOf(m, Below(|m|, top, 1), count - 1) == EntriesOf(m, top, count)[..count - 1]
  {
  }

  // What an edge does to a stack of bounded depth; without OVERWRITE a push on a full one is ignored.
  function Edge(depth: nat, overwrite: bool, st: Stack, c: Command): Stack {
    if c.push && !c.pop && |st| == depth && !overwrite then st else Do(depth, st, c)
  }

  // ---------- The block ----------

  class Circle {
    const depth: nat
    const overwrite: bool
    const mem: array<Addr>
    var top: nat
    var count: nat

    ghost predicate Valid()
      reads this, mem
    {
      mem.Length == depth && Fits(mem[..], top, count)
    }

    ghost function Contents(): (st: Stack)
      requires Valid()
      reads this, mem
      ensures |st| == count
    {
      EntriesOf(mem[..], top, count)
    }

    // 1 << width entries.
    constructor (width: nat, keepNewest: bool)
      ensures Valid() && fresh(mem) && Contents() == []
      ensures depth == Pow2(width) && overwrite == keepNewest
    {
      depth, overwrite := Pow2(width), keepNewest;
      mem := new Addr[Pow2(width)](_ => 0);
      top, count := 0, 0;
    }

    method DataOut() returns (a: Addr)
      requires Valid()
      ensures count > 0 ==> a == Contents()[count - 1]
    {
      a := mem[top];
    }

    /** One rising edge: the circle does what the stack of bounded depth does. */
    method Clock(rstN: bool, push: bool, dataIn: Addr, pop: bool)
      requires Valid()
      modifies this, mem
      ensures Valid()
      ensures Contents() == if rstN then Edge(depth, overwrite, old(Contents()), Command(push, pop, dataIn)) else []
    {
      hide EntriesOf, Push;
      ghost var m, i, n := mem[..], top, count;
      var replace := push && pop && count != 0;
      var doPush := push && !replace && (count != depth || overwrite);
      var doPop := pop && !push && count != 0;
      var up := Above(depth, top);
      if replace {
        mem[top] := dataIn;
      } else if doPush {
        mem[up] := dataIn;
      }
      if !rstN {
        top, count := 0, 0;
      } else if doPush {
        top := up;
        if count != depth {
          count := count + 1;
        }
        assert mem[..] == m[up := dataIn];
        Pushed(m, i, n, dataIn);
      } else if doPop {
        top := Below(depth, top, 1);
        count := count - 1;
        Popped(m, i, n);
      } else if replace {
        assert mem[..] == m[i := dataIn];
        Replaced(m, i, n, dataIn);
      }
    }
  }
}
