/** The K tail in ordinary arithmetic: stale products are added to C. */
module KernelTail {
  import opened Arithmetic
  import opened Elements
  import opened Machine
  import opened GemmSpec
  import opened Kernels
  import opened KernelRaces
  import opened ThreadMeaning
  import opened KernelCorrect

  /** Integers with addition, multiplication and maximum. */
  function Integers(): Arith {
    Arith((x: Elem, y: Elem) => Elem(x.code + y.code), (x: Elem, y: Elem) => Elem(x.code * y.code),
          (x: Elem, y: Elem) => if x.code >= y.code then x else y, Elem(0))
  }

  predicate InTile(tl: Tiling, side: Side, k: int, xx: int) {
    0 <= k < tl.BK && 0 <= xx < if side == A then tl.BM else tl.BN
  }

  /** The operands, what vectors read past the rows of A, and the shared tiles of block b hold
      nothing but 1. */
  ghost predicate Ones(l: Launch, b: nat, mem: Mem) {
    && (forall side, buf, k, xx :: 0 <= buf < 2 && InTile(l.tl, side, k, xx) ==>
          Read(mem, l.X(b, 0).TileCell(side, buf, k, xx)) == Elem(1))
    && (forall r, k :: 0 <= r < l.p.M && 0 <= k < l.p.K + l.tl.width - 1 ==> Read(mem, GA(r, k)) == Elem(1))
    && (forall k, c :: 0 <= k < l.p.K && 0 <= c < l.p.N ==> Read(mem, GB(k, c)) == Elem(1))
  }

  /** Inside an operand, or in the rest of a vector that starts there. */
  predicate InReach(x: Ctx, side: Side, bk: int, k: int, xx: int)
    requires x.Ok()
  {
    match side
    case A => x.RowBase() + xx < x.p.M && bk + k < x.p.K + x.tl.width - 1
    case B => x.InOperand(side, bk, k, xx)
  }

  /** What is copied comes from there. */
  ghost predicate CopiesInside(x: Ctx, side: Side, bk: int, vs: seq<Vec>)
    requires x.Ok()
  {
    forall k, xx :: CopiedAt(x, side, bk, vs, k, xx) ==> InTile(x.tl, side, k, xx) && InReach(x, side, bk, k, xx)
  }

  lemma VecsInside(l: Launch, b: nat, t: nat, side: Side, bk: int)
    requires l.Ok() && l.In(b, t) && bk % l.tl.width == 0
    ensures CopiesInside(l.X(b, t), side, bk, l.tl.vecs(side, t))
  {
    var x := l.X(b, t);
    forall k, xx | CopiedAt(x, side, bk, l.tl.vecs(side, t), k, xx)
      ensures InTile(l.tl, side, k, xx) && InReach(x, side, bk, k, xx)
    {
      var v, q :| v in l.tl.vecs(side, t) && Guard(x, side, bk, v) && 0 <= q < l.tl.width
        && k == x.LaneK(side, v, q) && xx == x.LaneX(side, v, q);
      GuardLanes(x, side, bk, v, q);
    }
  }

  lemma {:induction false} StagedNothing(x: Ctx, side: Side, bk: int, n: nat)
    requires x.Ok() && n <= |x.tl.slots(side, x.t)| && bk >= x.p.K
    ensures StagedVecs(x, side, bk, n) == []
  {
    if n > 0 { StagedNothing(x, side, bk, n - 1); }
  }

  lemma StagedInside(l: Launch, b: nat, t: nat, side: Side, bk: int)
    requires l.Ok() && l.In(b, t) && bk % l.tl.width == 0 && l.tl.Stages()
    ensures CopiesInside(l.X(b, t), side, bk, StagedVecs(l.X(b, t), side, bk, |l.tl.slots(side, t)|))
  {
    var x, n := l.X(b, t), |l.tl.slots(side, t)|;
    if bk < l.p.K {
      VecsInside(l, b, t, side, bk);
      forall k, xx
        ensures CopiedAt(x, side, bk, StagedVecs(x, side, bk, n), k, xx) ==>
          CopiedAt(x, side, bk, l.tl.vecs(side, t), k, xx)
      {
        StagedAsCopied(x, side, bk, k, xx);
      }
    } else {
      StagedNothing(x, side, bk, n);
    }
  }

  /** Copying ones over ones. */
  lemma UpdatedOnes(l: Launch, b: nat, t: nat, side: Side, buf: int, bk: int, vs: seq<Vec>, m0: Mem, m1: Mem)
    requires l.Ok() && l.In(b, t) && bk >= 0 && Ones(l, b, m0) && CopiesInside(l.X(b, t), side, bk, vs)
    requires TileUpdated(l.X(b, t), side, buf, bk, vs, m0, m1)
    ensures Ones(l, b, m1)
  {
    var x := l.X(b, t);
    BasesNonNegative(x);
    hide CopiedAt;
    forall side', buf', k, xx | 0 <= buf' < 2 && InTile(l.tl, side', k, xx)
      ensures Read(m1, l.X(b, 0).TileCell(side', buf', k, xx)) == Elem(1)
    {
      var c := x.TileCell(side', buf', k, xx);
      assert c == l.X(b, 0).TileCell(side', buf', k, xx);
      if side' == side && buf' == buf {
        assert CopiedAt(x, side, bk, vs, k, xx) || !CopiedAt(x, side, bk, vs, k, xx);
      } else {
        assert !IsTile(x, side, buf, c);
      }
    }
  }

  lemma CopyOnes(l: Launch, b: nat, t: nat, bk: nat, v: View)
    requires l.Ok() && l.In(b, t) && bk % l.tl.width == 0 && Ones(l, b, v.mem)
    ensures Ones(l, b, Solo(l.p.o, CopyTiles(l.X(b, t), 0, bk), v).mem)
  {
    hide Solo, CopyCode, Ones, TileUpdated, CopiesInside;
    var x, o := l.X(b, t), l.p.o;
    var va, vb := l.tl.vecs(A, t), l.tl.vecs(B, t);
    var a, c := CopyCode(x, A, 0, bk, va), CopyCode(x, B, 0, bk, vb);
    SoloConcat(o, a, c, v);
    VecsInside(l, b, t, A, bk);
    VecsInside(l, b, t, B, bk);
    CopyEval(x, A, 0, bk, va, v);
    UpdatedOnes(l, b, t, A, 0, bk, va, v.mem, Solo(o, a, v).mem);
    CopyEval(x, B, 0, bk, vb, Solo(o, a, v));
    UpdatedOnes(l, b, t, B, 0, bk, vb, Solo(o, a, v).mem, Solo(o, a + c, v).mem);
  }

  lemma CommitOnes(l: Launch, b: nat, t: nat, buf: int, bk: nat, v: View)
    requires l.Ok() && l.tl.Stages() && l.In(b, t) && bk % l.tl.width == 0 && 0 <= buf < 2 && Ones(l, b, v.mem)
    requires StageHolds(l.X(b, t), A, bk, |l.tl.slots(A, t)|, v.mem, v.regs)
    requires StageHolds(l.X(b, t), B, bk, |l.tl.slots(B, t)|, v.mem, v.regs)
    ensures Ones(l, b, Solo(l.p.o, CommitTiles(l.X(b, t), buf, bk), v).mem)
  {
    hide Solo, CommitCode, Ones, TileUpdated, CopiesInside, StageHolds, StagedVecs;
    var x, o := l.X(b, t), l.p.o;
    var na, nb := |l.tl.slots(A, t)|, |l.tl.slots(B, t)|;
    var a, c := CommitCode(x, A, buf, bk, na), CommitCode(x, B, buf, bk, nb);
    SoloConcat(o, a, c, v);
    StagedInside(l, b, t, A, bk);
    StagedInside(l, b, t, B, bk);
    CommitEval(x, A, buf, bk, na, v);
    var u := Solo(o, a, v);
    UpdatedOnes(l, b, t, A, buf, bk, StagedVecs(x, A, bk, na), v.mem, u.mem);
    StageKept(x, buf, bk, na, nb, v, u);
    CommitEval(x, B, buf, bk, nb, u);
    UpdatedOnes(l, b, t, B, buf, bk, StagedVecs(x, B, bk, nb), u.mem, Solo(o, a + c, v).mem);
  }

  lemma StageKept(x: Ctx, buf: int, bk: int, na: nat, nb: nat, v: View, u: View)
    requires x.Ok() && na <= |x.tl.slots(A, x.t)| && nb <= |x.tl.slots(B, x.t)| && u.regs == v.regs
    requires StageHolds(x, B, bk, nb, v.mem, v.regs)
    requires TileUpdated(x, A, buf, bk, StagedVecs(x, A, bk, na), v.mem, u.mem)
    ensures StageHolds(x, B, bk, nb, u.mem, u.regs)
  {
    hide StagedVecs;
    StageStillHolds(x, buf, bk, nb, v, u.mem);
  }

  /** A phase that stores no element of C leaves ones where there were ones. */
  lemma PhaseOnes(l: Launch, b: nat, t: nat, ph: nat)
    requires l.Ok() && l.In(b, t) && ph < l.Last() && Ones(l, b, l.MemAt(b, ph))
    ensures Ones(l, b, Solo(l.p.o, l.Rest(b, t, ph), l.Start(b, t, ph)).mem)
  {
    hide Solo, Ones, CopyTiles, PrefetchTiles, TileCode, CommitTiles, StageHolds, TileFold;
    var x, o, v := l.X(b, t), l.p.o, l.Start(b, t, ph);
    StartMem(l, b, t, ph);
    if !l.Consumes(ph) {
      MulMono(0, l.TilesDone(ph), l.tl.BK);
      MultipleMod(l.TilesDone(ph), l.tl.BK, l.tl.width);
      CopyOnes(l, b, t, l.TilesDone(ph) * l.tl.BK, v);
    } else if l.shape == Single {
      TileEval(x, 0, l.tl.BK, v);
    } else {
      MulMono(0, ph, l.tl.BK);
      MultipleMod(ph, l.tl.BK, l.tl.width);
      var bk := ph * l.tl.BK;
      var p, c, m := PrefetchTiles(x, bk), TileCode(x, l.BufOf(ph), l.tl.BK), CommitTiles(x, 1 - l.BufOf(ph), bk);
      SoloConcat(o, p + c, m, v);
      SoloConcat(o, p, c, v);
      PrefetchTilesEval(x, bk, v);
      TileEval(x, l.BufOf(ph), l.tl.BK, Solo(o, p, v));
      StageCarried(x, bk, Solo(o, p, v), Solo(o, p + c, v));
      CommitOnes(l, b, t, 1 - l.BufOf(ph), bk, Solo(o, p + c, v));
    }
  }

  lemma StageCarried(x: Ctx, bk: int, v: View, u: View)
    requires x.Ok() && u.mem == v.mem && forall r: Reg :: r.Stage? ==> Read(u.regs, r) == Read(v.regs, r)
    ensures forall side, n: nat :: n <= |x.tl.slots(side, x.t)| && StageHolds(x, side, bk, n, v.mem, v.regs) ==>
              StageHolds(x, side, bk, n, u.mem, u.regs)
  {}

  lemma OnesNext(l: Launch, b: nat, ph: nat)
    requires l.Ok() && b < Blocks(l.p, l.tl) && ph < l.Last() && Ones(l, b, l.MemAt(b, ph)) && Ones(l, b, l.mem)
    ensures Ones(l, b, l.MemAt(b, ph + 1))
  {
    hide Solo, CodeOf;
    forall c: Cell
      ensures Read(l.MemAt(b, ph + 1), c) == Read(l.MemAt(b, ph), c)
        || exists t: nat :: t < l.tl.threads
            && Read(l.MemAt(b, ph + 1), c) == Read(Solo(l.p.o, l.Rest(b, t, ph), l.Start(b, t, ph)).mem, c)
    {
      if t: nat :| t < l.tl.threads && c in Writes(l.K().code(b, t, ph)) {
        WriterWins(l, b, t, ph, c);
      } else {
        MergeUnwritten(l.K(), l.p.o, l.mem, b, ph, l.tl.threads, c);
      }
    }
    forall t: nat | t < l.tl.threads
      ensures Ones(l, b, Solo(l.p.o, l.Rest(b, t, ph), l.Start(b, t, ph)).mem)
    {
      PhaseOnes(l, b, t, ph);
    }
  }

  lemma {:induction false} OnesAlways(l: Launch, b: nat, ph: nat)
    requires l.Ok() && b < Blocks(l.p, l.tl) && ph <= l.Last() && Ones(l, b, l.mem)
    ensures Ones(l, b, l.MemAt(b, ph))
  {
    if ph > 0 {
      hide *;
      OnesAlways(l, b, ph - 1);
      OnesNext(l, b, ph - 1);
    }
  }

  // ----- counting

  lemma ProductOne(l: Launch, b: nat, t: nat, buf: int, m: nat, mem: Mem, k: nat)
    requires l.Ok() && l.In(b, t) && m < l.tl.Size() && 0 <= buf < 2 && k < l.tl.BK && l.p.o == Integers()
    requires Ones(l, b, mem)
    ensures Product(l.X(b, t), buf, k, m, mem) == Elem(1)
  {
    assert l.tl.InThread(t, m);
    hide Tiling.Owns, Tiling.Fills, Tiling.Stages;
    var x := l.X(b, t);
    assert InTile(l.tl, A, k, l.tl.RowOf(t, m)) && InTile(l.tl, B, k, l.tl.ColOf(t, m));
    assert Read(mem, l.X(b, 0).TileCell(A, buf, k, l.tl.RowOf(t, m))) == Elem(1);
    assert Read(mem, l.X(b, 0).TileCell(B, buf, k, l.tl.ColOf(t, m))) == Elem(1);
  }

  lemma {:induction false} TileFoldOnes(l: Launch, b: nat, t: nat, buf: int, m: nat, mem: Mem, acc: Elem, n: nat)
    requires l.Ok() && l.In(b, t) && m < l.tl.Size() && 0 <= buf < 2 && n <= l.tl.BK && l.p.o == Integers()
    requires Ones(l, b, mem)
    ensures TileFold(l.X(b, t), buf, m, mem, acc, n).code == acc.code + n
  {
    hide Ones, Product, Legal;
    if n > 0 {
      TileFoldOnes(l, b, t, buf, m, mem, acc, n - 1);
      ProductOne(l, b, t, buf, m, mem, n - 1);
    }
  }

  lemma AccOnesNext(l: Launch, b: nat, t: nat, ph: nat, n: nat)
    requires l.Ok() && l.In(b, t) && ph < l.Last() && n < l.tl.Size() && l.p.o == Integers() && Ones(l, b, l.mem)
    ensures l.AccOf(b, t, ph + 1, n).code == l.AccOf(b, t, ph, n).code + l.KBase(ph + 1) - l.KBase(ph)
  {
    hide Solo, CodeOf, TileFold, Integers, Ones, Launch.KBase, Launch.AccOf, Launch.TilesDone, Launch.MemAt;
    AccNext(l, b, t, ph, n);
    KBaseNext(l, ph);
    if l.Consumes(ph) {
      OnesAlways(l, b, ph);
      TileFoldOnes(l, b, t, l.BufOf(ph), n, l.MemAt(b, ph), l.AccOf(b, t, ph, n), l.tl.BK);
    }
  }

  lemma {:induction false} AccOnes(l: Launch, b: nat, t: nat, ph: nat, n: nat)
    requires l.Ok() && l.In(b, t) && ph <= l.Last() && n < l.tl.Size() && Stored(l.X(b, t), n) && l.p.o == Integers()
    requires Ones(l, b, l.mem)
    ensures l.AccOf(b, t, ph, n).code == Read(l.mem, GC(l.X(b, t).GRow(n), l.X(b, t).GCol(n))).code + l.KBase(ph)
  {
    if ph == 0 {
      AccStart(l, b, t, n);
    } else {
      hide *;
      AccOnes(l, b, t, ph - 1, n);
      AccOnesNext(l, b, t, ph - 1, n);
    }
  }

  lemma {:induction false} DotOnes(l: Launch, b: nat, r: int, c: int, n: nat)
    requires l.p.o == Integers() && l.tl.Sane() && Ones(l, b, l.mem) && InC(l.p, r, c) && n <= l.p.K
    ensures Dot(l.p, l.mem, r, c, n).code == Read(l.mem, GC(r, c)).code + n
  {
    if n > 0 { DotOnes(l, b, r, c, n - 1); }
  }

  /** A tile position past the end of K is filled by no copy of its tile: never on the side of B, and
      on the side of A neither when K is a multiple of the vector width. */
  lemma PastEndNotCopied(l: Launch, b: nat, t: nat, side: Side, bk: int, k: int, xx: int)
    requires l.Ok() && l.In(b, t) && bk % l.tl.BK == 0 && bk + k >= l.p.K
    requires side == B || l.p.K % l.tl.width == 0
    ensures !CopiedAt(l.X(b, t), side, bk, l.tl.vecs(side, t), k, xx)
  {
    var x := l.X(b, t);
    if CopiedAt(x, side, bk, l.tl.vecs(side, t), k, xx) {
      var v, q :| v in l.tl.vecs(side, t) && Guard(x, side, bk, v) && 0 <= q < l.tl.width
        && k == x.LaneK(side, v, q) && xx == x.LaneX(side, v, q);
      assert l.tl.Aligned(side, v) && l.tl.BK % l.tl.width == 0;
      hide CopiedAt, Guard, Tiling.Owns, Tiling.Stages, Ctx.InOperand;
      MultipleOfMultiple(bk, l.tl.BK, l.tl.width);
      GuardLanes(x, side, bk, v, q);
    }
  }

  /** With ones everywhere, every element of C gains the whole K-tiles, not K: each product past the
      end of K has a factor in a shared cell of B that no copy of its tile has filled. */
  lemma TailIsStale(l: Launch, states: seq<State>, moves: seq<Move>, r: int, c: int)
    requires l.Ok() && l.p.o == Integers() && !l.p.bias && !l.p.relu && InC(l.p, r, c)
    requires forall b: nat :: b < Blocks(l.p, l.tl) ==> Ones(l, b, l.mem)
    requires IsRun(l.K(), l.p.o, l.mem, states, moves) && Done(l.K(), states[|moves|])
    ensures Read(states[|moves|].mem, GC(r, c)).code == Read(l.mem, GC(r, c)).code + Tiles(l.p, l.tl) * l.tl.BK
    ensures Gemm(l.p, l.mem, r, c).code == Read(l.mem, GC(r, c)).code + l.p.K
    ensures Tiles(l.p, l.tl) * l.tl.BK >= l.p.K
    ensures l.p.K % l.tl.BK != 0 ==> !IsGemmOf(l.p, l.mem, states[|moves|].mem)
    ensures forall b: nat, t: nat, bk, k, xx :: l.In(b, t) && bk % l.tl.BK == 0 && bk + k >= l.p.K ==>
              !CopiedAt(l.X(b, t), B, bk, l.tl.vecs(B, t), k, xx)
  {
    forall b: nat, t: nat, bk, k, xx | l.In(b, t) && bk % l.tl.BK == 0 && bk + k >= l.p.K
      ensures !CopiedAt(l.X(b, t), B, bk, l.tl.vecs(B, t), k, xx)
    {
      PastEndNotCopied(l, b, t, B, bk, k, xx);
    }
    hide Solo, CodeOf, Settled, Dot, Launch.AccOf, Ones, CeilDiv, Integers;
    KernelRaceFree(l.shape, l.p, l.tl);
    ScheduleIndependence(l.K(), l.p.o, l.mem, states, moves);
    var b, t, n := OwnerOf(l, r, c);
    FinalC(l, states[|moves|].mem, b, t, n);
    AccOnes(l, b, t, l.Last(), n);
    DotOnes(l, b, r, c, l.p.K);
    CeilDivBounds(l.p.K, l.tl.BK);
    DivModUnique(Tiles(l.p, l.tl), 0, l.tl.BK);
    assert l.TilesDone(l.Last()) == Tiles(l.p, l.tl);
  }

  /** Such a memory exists. */
  lemma OnesMemory(shape: Shape, p: Problem, tl: Tiling) returns (mem: Mem)
    requires tl.Sane()
    ensures forall b: nat :: b < Blocks(p, tl) ==> Ones(Launch(shape, p, tl, mem), b, mem)
  {
    var n, size := Blocks(p, tl), tl.BM + tl.BN + tl.BK;
    var cells := (set r: int, k: int | 0 <= r < p.M && 0 <= k < p.K + tl.width :: GA(r, k)) +
                 (set k: int, c: int | 0 <= k < p.K && 0 <= c < p.N :: GB(k, c)) +
                 (set b: nat, buf: int, x: int, y: int |
                    b < n && 0 <= buf < 2 && 0 <= x < size && 0 <= y < size :: SA(b, buf, x, y)) +
                 (set b: nat, buf: int, x: int, y: int |
                    b < n && 0 <= buf < 2 && 0 <= x < size && 0 <= y < size :: SB(b, buf, x, y));
    mem := map c | c in cells :: Elem(1);
    forall b: nat | b < n
      ensures Ones(Launch(shape, p, tl, mem), b, mem)
    {
      var l := Launch(shape, p, tl, mem);
      forall side, buf, k, xx | 0 <= buf < 2 && InTile(tl, side, k, xx)
        ensures l.X(b, 0).TileCell(side, buf, k, xx) in cells
      {
        hide Blocks;
      }
    }
  }
}
