/** The AST's bump allocator. */
module Arena {
  import opened Arithmetic
  import opened Wrappers

  /** A stretch of addresses. */
  datatype Region = Region(start: nat, size: nat) {
    function Stop(): nat { start + size }
  }

  /** No address in common. */
  predicate Apart(x: Region, y: Region) {
    x.size == 0 || y.size == 0 || x.Stop() <= y.start || y.Stop() <= x.start
  }

  predicate Inside(x: Region, y: Region) { y.start <= x.start && x.Stop() <= y.Stop() }

  predicate Holds(r: Region, a: nat) { r.start <= a < r.Stop() }

  lemma ApartExactly(x: Region, y: Region)
    ensures Apart(x, y) <==> forall a: nat :: !(Holds(x, a) && Holds(y, a))
  {
    if !Apart(x, y) {
      var a := if x.start < y.start then y.start else x.start;
      assert Holds(x, a) && Holds(y, a);
    }
  }

  /** A block with addresses is inside a slab when the slab has them all. */
  lemma InsideExactly(x: Region, y: Region)
    requires x.size > 0
    ensures Inside(x, y) <==> forall a: nat :: Holds(x, a) ==> Holds(y, a)
  {
    assert Holds(x, x.start) && Holds(x, x.Stop() - 1);
  }

  function RoundUp(p: nat, align: nat): (r: nat)
    requires align > 0
    ensures p <= r < p + align && r % align == 0
  {
    RoundUpIs(p, align);
    (p + align - 1) / align * align
  }

  lemma RoundUpIs(p: nat, align: nat)
    requires align > 0
    ensures var r := (p + align - 1) / align * align; p <= r < p + align && r % align == 0
  {
    var q := (p + align - 1) / align;
    assert p + align - 1 == q * align + (p + align - 1) % align;
    MultipleIsZero(q, align);
  }

  lemma MultipleIsZero(q: nat, align: nat)
    requires align > 0
    ensures q * align % align == 0
  {
    var m := q * align;
    assert m == m / align * align + m % align;
    if m % align != 0 {
      if m / align >= q { MulMono(q, m / align, align); } else { MulMono(m / align + 1, q, align); }
    }
  }

  /** `std::align`: the first aligned address with room for `bytes`, if there is one. */
  function Aligned(align: nat, bytes: nat, p: nat, space: nat): (r: Option<nat>)
    requires align > 0
    ensures r.Some? <==> RoundUp(p, align) + bytes <= p + space
    ensures r.Some? ==> r.value == RoundUp(p, align)
    ensures space >= bytes + align ==> r.Some?
  {
    var r := RoundUp(p, align);
    if space < bytes || r - p > space - bytes then None else Some(r)
  }

  function Sum(slabs: seq<Region>): nat {
    if slabs == [] then 0 else Sum(slabs[..|slabs| - 1]) + slabs[|slabs| - 1].size
  }

  const FIRST_SLAB: nat := 4096
  const MAX_SLAB: nat := 256 * 1024

  lemma SumAdded(slabs: seq<Region>, slab: Region)
    ensures Sum(slabs + [slab]) == Sum(slabs) + slab.size
  {
    assert (slabs + [slab])[..|slabs|] == slabs;
  }

  /** The slab sizes that doubling from the first one reaches. */
  predicate SlabStep(size: nat) {
    size in {FIRST_SLAB, 8192, 16384, 32768, 65536, 131072, MAX_SLAB}
  }

  lemma NextStep(size: nat)
    requires SlabStep(size)
    ensures 0 < size <= MAX_SLAB && (size < MAX_SLAB ==> SlabStep(2 * size))
  {}

  /** A block lies in some slab, and below the cursor if that is the current one. */
  ghost predicate Placed(slabs: seq<Region>, cur: nat, b: Region) {
    exists i :: 0 <= i < |slabs| && Inside(b, slabs[i]) && (i == |slabs| - 1 ==> b.Stop() <= cur)
  }

  ghost predicate Disjoint(regions: seq<Region>) {
    forall i, j :: 0 <= i < j < |regions| ==> Apart(regions[i], regions[j])
  }

  /** Slabs and blocks are laid out without overlap. */
  ghost predicate LaidOut(slabs: seq<Region>, cur: nat, blocks: seq<Region>) {
    && Disjoint(slabs) && Disjoint(blocks)
    && (forall i :: 0 <= i < |slabs| ==> slabs[i].start > 0 && slabs[i].size > 0)
    && (forall b :: b in blocks ==> Placed(slabs, cur, b))
  }

  lemma SlabAdded(slabs: seq<Region>, cur: nat, blocks: seq<Region>, slab: Region)
    requires LaidOut(slabs, cur, blocks) && slab.start > 0 && slab.size > 0
    requires forall i :: 0 <= i < |slabs| ==> Apart(slab, slabs[i])
    ensures LaidOut(slabs + [slab], slab.start, blocks)
  {
    var more := slabs + [slab];
    forall b | b in blocks
      ensures Placed(more, slab.start, b)
    {
      var i :| 0 <= i < |slabs| && Inside(b, slabs[i]) && (i == |slabs| - 1 ==> b.Stop() <= cur);
      assert more[i] == slabs[i];
    }
  }

  lemma BlockAdded(slabs: seq<Region>, cur: nat, blocks: seq<Region>, block: Region)
    requires LaidOut(slabs, cur, blocks) && slabs != []
    requires Inside(block, slabs[|slabs| - 1]) && cur <= block.start
    ensures LaidOut(slabs, block.Stop(), blocks + [block])
  {
    var last := |slabs| - 1;
    forall b | b in blocks
      ensures Apart(b, block) && Placed(slabs, block.Stop(), b)
    {
      var i :| 0 <= i < |slabs| && Inside(b, slabs[i]) && (i == last ==> b.Stop() <= cur);
      assert i < last ==> Apart(slabs[i], slabs[last]);
    }
    assert Inside(block, slabs[last]) && Placed(slabs, block.Stop(), block);
  }

  class ASTAllocator {
    var Slabs: seq<Region>
    var Cur: nat
    var End: nat
    var TotalBytes: nat
    var NextSlabSize: nat

    /** Every block handed out so far. */
    ghost var Blocks: seq<Region>

    ghost predicate Valid()
      reads this
    {
      && TotalBytes == Sum(Slabs)
      && SlabStep(NextSlabSize)
      && (if Slabs == [] then Cur == End == 0
          else var last := Slabs[|Slabs| - 1]; last.start <= Cur <= End == last.Stop())
      && LaidOut(Slabs, Cur, Blocks)
    }

    constructor ()
      ensures Valid() && Slabs == [] && Blocks == [] && TotalBytes == 0 && NextSlabSize == 4096
    {
      Slabs, Cur, End, TotalBytes, NextSlabSize, Blocks := [], 0, 0, 0, FIRST_SLAB, [];
    }

    function SlabSize(minBytes: nat): nat
      reads this
    {
      if NextSlabSize < minBytes then minBytes else NextSlabSize
    }

    /** `start` is the memory that `malloc` gives: not null, and apart from all slabs. */
    ghost predicate FreshAt(start: nat, size: nat)
      reads this
    {
      start > 0 && forall i :: 0 <= i < |Slabs| ==> Apart(Region(start, size), Slabs[i])
    }

    method NewSlab(minBytes: nat, start: nat)
      requires Valid() && FreshAt(start, SlabSize(minBytes))
      modifies this
      ensures Valid() && Blocks == old(Blocks)
      ensures var size := if old(NextSlabSize) < minBytes then minBytes else old(NextSlabSize);
        Slabs == old(Slabs) + [Region(start, size)] && End == start + size
      ensures Cur == start && TotalBytes == Sum(Slabs)
      ensures NextSlabSize == if old(NextSlabSize) < 262144 then 2 * old(NextSlabSize) else 262144
    {
      hide LaidOut, Sum, SlabStep;
      var size := SlabSize(minBytes);
      NextStep(NextSlabSize);
      SumAdded(Slabs, Region(start, size));
      SlabAdded(Slabs, Cur, Blocks, Region(start, size));
      Slabs := Slabs + [Region(start, size)];
      Cur := start;
      End := start + size;
      TotalBytes := TotalBytes + size;
      if NextSlabSize < MAX_SLAB { NextSlabSize := NextSlabSize * 2; }
    }

    /** The current slab has room for an aligned block. */
    predicate Fits(bytes: nat, align: nat)
      requires align > 0
      reads this
    {
      Cur != 0 && Cur <= End && Aligned(align, bytes, Cur, End - Cur).Some?
    }

    /** The block is aligned, in one slab, and apart from every block handed out before.  It starts
        at the first aligned address of the current slab, or of a new one when that has no room:
        then the second attempt succeeds. */
    method Allocate(bytes: nat, align: nat, start: nat) returns (p: nat)
      requires Valid() && align > 0 && FreshAt(start, SlabSize(bytes + align))
      modifies this
      ensures Valid() && p % align == 0 && Blocks == old(Blocks) + [Region(p, bytes)]
      ensures p == RoundUp(if old(Fits(bytes, align)) then old(Cur) else start, align) && Cur == p + bytes
      ensures old(Fits(bytes, align)) ==> Slabs == old(Slabs)
      ensures !old(Fits(bytes, align)) ==>
        Slabs == old(Slabs) + [Region(start, if old(NextSlabSize) < bytes + align then bytes + align
                                             else old(NextSlabSize))]
    {
      hide LaidOut, Sum, RoundUp, SlabStep;
      var at := if Cur == 0 then None else Aligned(align, bytes, Cur, End - Cur);
      if at.None? {
        NewSlab(bytes + align, start);
        at := Aligned(align, bytes, Cur, End - Cur);
        assert at.Some?;
      }
      p := at.value;
      BlockAdded(Slabs, Cur, Blocks, Region(p, bytes));
      Cur := p + bytes;
      Blocks := Blocks + [Region(p, bytes)];
    }
  }
}
