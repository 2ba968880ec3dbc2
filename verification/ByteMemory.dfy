/** The word memory with byte strobes is a byte memory: whatever aligned loads and stores come, the
  * load/store unit, the strobes and the load data return what a memory of bytes returns.
  */
module ByteMemory {
  import opened Isa
  import opened Parts

  // Bytes by byte address; a byte never stored reads 0.
  type Bytes = map<Word, Byte>

  function Get(b: Bytes, a: Word): Byte { if a in b then b[a] else 0 }

  // An access of the pipeline: funct3, address, store or load, store data.
  datatype Access = Access(store: bool, funct3: Funct3, addr: Word, data: Word)

  // SB, SH, SW; LB, LH, LW, LBU, LHU.
  predicate Known(x: Access) { if x.store then x.funct3 < 3 else x.funct3 < 6 && x.funct3 != 3 }

  predicate Allowed(x: Access) { Known(x) && !Misaligned(x.funct3, x.addr) }

  // ---------- The byte memory ----------

  function StoreBytes(b: Bytes, x: Access): Bytes {
    var v, a := x.data, x.addr;
    if Size(x.funct3) == 1 then b[a := ByteOf(v, 0)]
    else if Size(x.funct3) == 2 then b[a := ByteOf(v, 0)][Add(a, 1) := ByteOf(v, 1)]
    else b[a := ByteOf(v, 0)][Add(a, 1) := ByteOf(v, 1)][Add(a, 2) := ByteOf(v, 2)][Add(a, 3) := ByteOf(v, 3)]
  }

  function LoadBytes(b: Bytes, x: Access): Word {
    var a := x.addr;
    var b0 := Get(b, a);
    var h := b0 + 0x100 * Get(b, Add(a, 1));
    match x.funct3
    case 0 => if b0 >= 0x80 then 0xFFFF_FF00 + b0 else b0
    case 4 => b0
    case 1 => if h >= 0x8000 then 0xFFFF_0000 + h else h
    case 5 => h
    case _ => FromBytes(b0, Get(b, Add(a, 1)), Get(b, Add(a, 2)), Get(b, Add(a, 3)))
  }

  // ---------- The hardware ----------

  function Kind(x: Access): Decoded {
    Decode(Insn(0, if x.store then KStore else KLoad, 0, 0, 0, x.funct3, 0))
  }

  function Unit(x: Access): Lsu { LsuUnit(true, Kind(x), OffsetOf(x.addr), x.addr, x.data) }

  // The word memory takes the request, if there is one.
  function StoreWords(m: Mem, x: Access): Mem {
    var r := Unit(x).req;
    if r.valid && r.we then StrobeWrite(m, r.addr, r.wdata, r.wstrb) else m
  }

  predicate Reads(x: Access) { Unit(x).req.valid && !Unit(x).req.we }

  function LoadWords(m: Mem, x: Access): Word {
    LoadData(x.funct3, OffsetOf(x.addr), ReadWord(m, Unit(x).req.addr))
  }

  // ---------- Both ----------

  ghost predicate Same(m: Mem, b: Bytes) { forall a: Word :: ReadByte(m, a) == Get(b, a) }

  // Memories in which nothing was stored.
  lemma NothingStored()
    ensures Same(map[], map[]) && forall a: Word :: Get(map[], a) == 0
  {
    assert ByteOf(0, 0) == ByteOf(0, 1) == ByteOf(0, 2) == ByteOf(0, 3) == 0;
  }

  lemma KindExact(x: Access)
    ensures var d := Kind(x);
            d.memWrite == x.store && d.memRead == !x.store && d.funct3 == x.funct3
  {
  }

  lemma StoreIsValue(m: Mem, x: Access)
    requires Allowed(x) && x.store
    ensures StoreWords(m, x) == StoreValue(m, x.funct3, x.addr, x.data)
  {
    hide Decode, Replicate, Strobes, StrobeWrite, StoreValue, Kind;
    KindExact(x);
    MisalignedExact(x.funct3, x.addr);
    StoreExact(m, x.funct3, x.addr, x.data);
  }

  // Different addresses are different words or different bytes.
  lemma Distinct(a: Word, b: Word)
    requires a != b
    ensures WordAddr(a) != WordAddr(b) || OffsetOf(a) != OffsetOf(b)
  {
  }

  lemma WriteOne(m: Mem, b: Bytes, a: Word, v: Byte)
    requires Same(m, b)
    ensures Same(WriteByte(m, a, v), b[a := v])
  {
    hide FromBytes, ByteOf;
    var m' := WriteByte(m, a, v);
    forall c: Word ensures ReadByte(m', c) == Get(b[a := v], c) {
      var w := ReadWord(m, WordAddr(a));
      WithByteBytes(w, OffsetOf(a), v);
      if c != a {
        Distinct(a, c);
        assert ReadByte(m, c) == Get(b, c);
      }
    }
  }

  lemma WithByteBytes(w: Word, k: Offset, v: Byte)
    ensures forall j: Offset :: ByteOf(WithByte(w, k, v), j) == if j == k then v else ByteOf(w, j)
  {
    hide FromBytes, ByteOf;
    BytesOfFour(if k == 0 then v else ByteOf(w, 0), if k == 1 then v else ByteOf(w, 1),
                if k == 2 then v else ByteOf(w, 2), if k == 3 then v else ByteOf(w, 3));
  }

  lemma StoreSame(m: Mem, b: Bytes, x: Access)
    requires Same(m, b) && Allowed(x) && x.store
    ensures Same(StoreWords(m, x), StoreBytes(b, x))
  {
    hide WriteByte, ByteOf, Same, StoreWords;
    StoreIsValue(m, x);
    var a, v := x.addr, x.data;
    var m1, b1 := WriteByte(m, a, ByteOf(v, 0)), b[a := ByteOf(v, 0)];
    WriteOne(m, b, a, ByteOf(v, 0));
    var m2, b2 := WriteByte(m1, Add(a, 1), ByteOf(v, 1)), b1[Add(a, 1) := ByteOf(v, 1)];
    WriteOne(m1, b1, Add(a, 1), ByteOf(v, 1));
    WriteOne(m2, b2, Add(a, 2), ByteOf(v, 2));
    WriteOne(WriteByte(m2, Add(a, 2), ByteOf(v, 2)), b2[Add(a, 2) := ByteOf(v, 2)], Add(a, 3), ByteOf(v, 3));
  }

  lemma LoadSame(m: Mem, b: Bytes, x: Access)
    requires Same(m, b) && Allowed(x) && !x.store
    ensures LoadWords(m, x) == LoadBytes(b, x)
  {
    hide ReadByte, Get, LoadData, Decode, Kind, FromBytes;
    KindExact(x);
    LoadDataExact(m, x.funct3, x.addr);
  }

  // ---------- Sequences ----------

  // The word memory after a sequence of accesses, and what the loads returned.
  function RunWords(m: Mem, xs: seq<Access>): (Mem, seq<Word>) {
    if xs == [] then (m, [])
    else
      var (n, out) := RunWords(m, xs[..|xs| - 1]);
      var x := xs[|xs| - 1];
      (StoreWords(n, x), out + (if Reads(x) then [LoadWords(n, x)] else []))
  }

  // The byte memory; a misaligned access does nothing.
  function RunBytes(b: Bytes, xs: seq<Access>): (Bytes, seq<Word>) {
    if xs == [] then (b, [])
    else
      var (n, out) := RunBytes(b, xs[..|xs| - 1]);
      var x := xs[|xs| - 1];
      if Misaligned(x.funct3, x.addr) then (n, out)
      else if x.store then (StoreBytes(n, x), out)
      else (n, out + [LoadBytes(n, x)])
  }

  // What the request of an access does.
  lemma RequestIs(m: Mem, x: Access)
    requires Known(x)
    ensures Reads(x) <==> !x.store && !Misaligned(x.funct3, x.addr)
    ensures !x.store || Misaligned(x.funct3, x.addr) ==> StoreWords(m, x) == m
  {
    hide Decode, Replicate, Strobes, StrobeWrite, Kind;
    KindExact(x);
    MisalignedExact(x.funct3, x.addr);
  }

  /** For every sequence of accesses all loads return what the byte memory returns, and the memories stay
    * equal on every byte; a misaligned access sends nothing.
    */
  lemma {:induction false} WordsAreBytes(m: Mem, b: Bytes, xs: seq<Access>)
    requires Same(m, b) && forall k :: 0 <= k < |xs| ==> Known(xs[k])
    ensures Same(RunWords(m, xs).0, RunBytes(b, xs).0)
    ensures RunWords(m, xs).1 == RunBytes(b, xs).1
    decreases |xs|
  {
    hide Same, StoreWords, StoreBytes, LoadWords, LoadBytes, Known, Misaligned, Reads;
    if xs != [] {
      var n := |xs| - 1;
      WordsAreBytes(m, b, xs[..n]);
      var m1, b1 := RunWords(m, xs[..n]).0, RunBytes(b, xs[..n]).0;
      RequestIs(m1, xs[n]);
      if !Misaligned(xs[n].funct3, xs[n].addr) {
        AllowedIs(xs[n]);
        if xs[n].store {
          StoreSame(m1, b1, xs[n]);
        } else {
          LoadSame(m1, b1, xs[n]);
        }
      }
    }
  }

  lemma AllowedIs(x: Access)
    ensures Allowed(x) <==> Known(x) && !Misaligned(x.funct3, x.addr)
  {
  }

  // A byte outside the access keeps its value.
  lemma OthersStay(b: Bytes, x: Access, a: Word)
    requires x.store && forall k :: 0 <= k < Size(x.funct3) ==> a != Add(x.addr, k)
    ensures Get(StoreBytes(b, x), a) == Get(b, a)
  {
    assert Add(x.addr, 0) == x.addr;
    assert Size(x.funct3) >= 2 ==> a != Add(x.addr, 1);
    assert Size(x.funct3) == 4 ==> a != Add(x.addr, 2) && a != Add(x.addr, 3);
  }
}
