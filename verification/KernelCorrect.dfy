/** Every kernel of the two shapes computes the GEMM, under every interleaving. */
module KernelCorrect {
  import opened Arithmetic
  import opened Elements
  import opened Machine
  import opened GemmSpec
  import opened Kernels
  import opened KernelRaces
  import opened ThreadMeaning

  /** A launch of one shape over one tiling from one memory. */
  datatype Launch = Launch(shape: Shape, p: Problem, tl: Tiling, mem: Mem) {
    ghost predicate Ok() { Legal(shape, p, tl) }

    function K(): Kernel
      requires tl.Sane()
    { KernelOf(shape, p, tl) }

    function X(b: nat, t: nat): Ctx { Ctx(p, tl, b, t) }

    function MemAt(b: nat, ph: nat): Mem
      requires tl.Sane()
    { PhaseMem(K(), p.o, mem, b, ph) }

    function RegsAt(b: nat, t: nat, ph: nat): Regs
      requires tl.Sane()
    { PhaseRegs(K(), p.o, mem, b, t, ph) }

    function Last(): nat
      requires tl.Sane()
    { Phases(shape, p, tl) - 1 }

    predicate In(b: nat, t: nat)
      requires tl.Sane()
    { b < Blocks(p, tl) && t < tl.threads }

    /** K-tiles consumed before phase ph. */
    function TilesDone(ph: nat): nat {
      if shape == Single then ph / 2 else if ph == 0 then 0 else ph - 1
    }

    /** Where along k phase ph is. */
    function KBase(ph: nat): nat {
      MulMono(0, TilesDone(ph), tl.BK);
      TilesDone(ph) * tl.BK
    }

    /** Phase ph consumes a K-tile: tile `TilesDone(ph)`, from this buffer. */
    predicate Consumes(ph: nat)
      requires tl.Sane()
    { ph < Last() && if shape == Single then ph % 2 == 1 else ph > 0 }

    function BufOf(ph: nat): int {
      if shape == Single then 0 else (ph - 1) % 2
    }

    function Start(b: nat, t: nat, ph: nat): View
      requires tl.Sane()
    {
      Solo(p.o, if ph == 0 then InitCode(X(b, t), tl.Size()) else [], View(MemAt(b, ph), RegsAt(b, t, ph)))
    }

    function Rest(b: nat, t: nat, ph: nat): seq<Instr>
      requires tl.Sane()
    {
      var x := X(b, t);
      if ph >= Last() then StoreCode(x, tl.Size())
      else if Consumes(ph) then
        if shape == Single then TileCode(x, 0, tl.BK)
        else PrefetchTiles(x, ph * tl.BK) + TileCode(x, BufOf(ph), tl.BK) + CommitTiles(x, 1 - BufOf(ph), ph * tl.BK)
      else CopyTiles(x, 0, TilesDone(ph) * tl.BK)
    }

    /** Accumulator n of a thread at the start of a phase. */
    function AccOf(b: nat, t: nat, ph: nat, n: int): Elem
      requires tl.Sane()
    {
      Read(Start(b, t, ph).regs, Acc(n))
    }
  }

  lemma SplitPhase(l: Launch, b: nat, t: nat, ph: nat)
    requires l.tl.Sane() && ph <= l.Last()
    ensures SoloEnd(l.K(), l.p.o, l.mem, b, t, ph) == Solo(l.p.o, l.Rest(b, t, ph), l.Start(b, t, ph))
  {
    hide Solo, InitCode, StoreCode, CopyTiles, TileCode, PrefetchTiles, CommitTiles;
    var init := if ph == 0 then InitCode(l.X(b, t), l.tl.Size()) else [];
    assert CodeOf(l.shape, l.X(b, t), ph) == init + l.Rest(b, t, ph);
    SoloConcat(l.p.o, init, l.Rest(b, t, ph), View(l.MemAt(b, ph), l.RegsAt(b, t, ph)));
  }

  lemma StartMem(l: Launch, b: nat, t: nat, ph: nat)
    requires l.tl.Sane()
    ensures l.Start(b, t, ph).mem == l.MemAt(b, ph)
    ensures ph > 0 ==> l.Start(b, t, ph).regs == l.RegsAt(b, t, ph)
  {
    if ph == 0 {
      InitEval(l.X(b, t), l.tl.Size(), View(l.MemAt(b, ph), l.RegsAt(b, t, ph)));
    }
  }

  /** Operands keep their values throughout, and C until the last phase. */
  lemma GlobalsKept(l: Launch, b: nat, ph: nat, c: Cell)
    requires l.Ok() && b < Blocks(l.p, l.tl) && ph <= l.Last() && !c.SA? && !c.SB?
    ensures Read(l.MemAt(b, ph), c) == Read(l.mem, c)
  {
    forall t: nat, ph': nat | t < l.tl.threads && ph' < ph
      ensures c !in Writes(l.K().code(b, t, ph'))
    {
      if c in Writes(l.K().code(b, t, ph')) { WriteOk(l.shape, l.p, l.tl, b, t, ph', c); }
    }
    PhaseMemUnwritten(l.K(), l.p.o, l.mem, b, ph, c);
  }

  /** A cell one thread writes holds at the end of the phase what that thread left there. */
  lemma WriterWins(l: Launch, b: nat, t: nat, ph: nat, c: Cell)
    requires l.Ok() && l.In(b, t) && ph <= l.Last() && c in Writes(l.K().code(b, t, ph))
    ensures Read(l.MemAt(b, ph + 1), c) == Read(Solo(l.p.o, l.Rest(b, t, ph), l.Start(b, t, ph)).mem, c)
  {
    hide Solo;
    KernelRaceFree(l.shape, l.p, l.tl);
    var k := l.K();
    assert WrittenBy(k, b, t, ph, c);
    forall t': nat | t' < k.threads && t' != t
      ensures c !in Writes(k.code(b, t', ph))
    {
      assert c in Writes(k.code(b, t', ph)) ==> TouchedBy(k, b, t', ph, c);
    }
    MergeWritten(k, l.p.o, l.mem, b, ph, k.threads, t, c);
    SplitPhase(l, b, t, ph);
  }

  lemma RestWrites(l: Launch, b: nat, t: nat, ph: nat, c: Cell)
    requires l.tl.Sane() && ph <= l.Last() && c in Writes(l.Rest(b, t, ph))
    ensures c in Writes(l.K().code(b, t, ph))
  {
    hide Writes, InitCode, StoreCode, CopyTiles, TileCode, PrefetchTiles, CommitTiles;
    var init := if ph == 0 then InitCode(l.X(b, t), l.tl.Size()) else [];
    assert CodeOf(l.shape, l.X(b, t), ph) == init + l.Rest(b, t, ph);
    WritesRight(init, l.Rest(b, t, ph), c);
  }

  // ----- tiles

  /** `after` holds at every tile position this thread copies what `before` holds at its source. */
  ghost predicate Filled(x: Ctx, buf: int, bk: int, before: Mem, after: Mem)
    requires x.Ok()
  {
    forall side, k, xx :: CopiedAt(x, side, bk, x.tl.vecs(side, x.t), k, xx) ==>
      Read(after, x.TileCell(side, buf, k, xx)) == Read(before, x.Source(side, bk, k, xx))
  }

  lemma CopyTilesEval(x: Ctx, buf: int, bk: int, v: View)
    requires x.Ok()
    ensures Filled(x, buf, bk, v.mem, Solo(x.p.o, CopyTiles(x, buf, bk), v).mem)
    ensures forall n :: Read(Solo(x.p.o, CopyTiles(x, buf, bk), v).regs, Acc(n)) == Read(v.regs, Acc(n))
    ensures forall side, k, xx :: CopiedAt(x, side, bk, x.tl.vecs(side, x.t), k, xx) ==>
              x.TileCell(side, buf, k, xx) in Writes(CopyTiles(x, buf, bk))
  {
    hide Solo, CopyCode, Writes;
    var a, b := CopyCode(x, A, buf, bk, x.tl.vecs(A, x.t)), CopyCode(x, B, buf, bk, x.tl.vecs(B, x.t));
    SoloConcat(x.p.o, a, b, v);
    CopyEval(x, A, buf, bk, x.tl.vecs(A, x.t), v);
    CopyEval(x, B, buf, bk, x.tl.vecs(B, x.t), Solo(x.p.o, a, v));
    FilledBoth(x, buf, bk, x.tl.vecs(A, x.t), x.tl.vecs(B, x.t), v.mem, Solo(x.p.o, a, v).mem,
        Solo(x.p.o, a + b, v).mem);
    forall side, k, xx | CopiedAt(x, side, bk, x.tl.vecs(side, x.t), k, xx)
      ensures x.TileCell(side, buf, k, xx) in Writes(CopyTiles(x, buf, bk))
    {
      CopyWrites(x, side, buf, bk, x.tl.vecs(side, x.t), k, xx);
      if side == A {
        WritesLeft(a, b, x.TileCell(side, buf, k, xx));
      } else {
        WritesRight(a, b, x.TileCell(side, buf, k, xx));
      }
    }
  }

  lemma FilledBoth(x: Ctx, buf: int, bk: int, va: seq<Vec>, vb: seq<Vec>, m0: Mem, m1: Mem, m2: Mem)
    requires x.Ok() && TileUpdated(x, A, buf, bk, va, m0, m1) && TileUpdated(x, B, buf, bk, vb, m1, m2)
    ensures forall k, xx :: CopiedAt(x, A, bk, va, k, xx) ==>
      Read(m2, x.TileCell(A, buf, k, xx)) == Read(m0, x.Source(A, bk, k, xx))
    ensures forall k, xx :: CopiedAt(x, B, bk, vb, k, xx) ==>
      Read(m2, x.TileCell(B, buf, k, xx)) == Read(m0, x.Source(B, bk, k, xx))
  {
    forall k, xx
      ensures CopiedAt(x, A, bk, va, k, xx) ==> Read(m2, x.TileCell(A, buf, k, xx)) == Read(m0, x.Source(A, bk, k, xx))
      ensures CopiedAt(x, B, bk, vb, k, xx) ==> Read(m2, x.TileCell(B, buf, k, xx)) == Read(m0, x.Source(B, bk, k, xx))
    {
      assert !IsTile(x, B, buf, x.TileCell(A, buf, k, xx));
      assert !IsTile(x, A, buf, x.Source(B, bk, k, xx));
    }
  }

  lemma CommitTilesEval(x: Ctx, buf: int, bk: int, v: View)
    requires x.Ok() && x.tl.Stages() && InLaunch(x)
    requires StageHolds(x, A, bk, |x.tl.slots(A, x.t)|, v.mem, v.regs)
      && StageHolds(x, B, bk, |x.tl.slots(B, x.t)|, v.mem, v.regs)
    ensures var w := Solo(x.p.o, CommitTiles(x, buf, bk), v);
      w.regs == v.regs && (bk < x.p.K ==> Filled(x, buf, bk, v.mem, w.mem))
    ensures bk < x.p.K ==> forall side, k, xx :: CopiedAt(x, side, bk, x.tl.vecs(side, x.t), k, xx) ==>
              x.TileCell(side, buf, k, xx) in Writes(CommitTiles(x, buf, bk))
  {
    hide Solo, CommitCode, Writes, StagedVecs;
    var na, nb := |x.tl.slots(A, x.t)|, |x.tl.slots(B, x.t)|;
    var a, b := CommitCode(x, A, buf, bk, na), CommitCode(x, B, buf, bk, nb);
    SoloConcat(x.p.o, a, b, v);
    CommitEval(x, A, buf, bk, na, v);
    var u := Solo(x.p.o, a, v);
    StageStillHolds(x, buf, bk, nb, v, u.mem);
    CommitEval(x, B, buf, bk, nb, u);
    var va, vb := StagedVecs(x, A, bk, na), StagedVecs(x, B, bk, nb);
    var w := Solo(x.p.o, a + b, v);
    FilledBoth(x, buf, bk, va, vb, v.mem, u.mem, w.mem);
    if bk < x.p.K {
      forall side, k, xx | CopiedAt(x, side, bk, x.tl.vecs(side, x.t), k, xx)
        ensures Read(w.mem, x.TileCell(side, buf, k, xx)) == Read(v.mem, x.Source(side, bk, k, xx))
        ensures x.TileCell(side, buf, k, xx) in Writes(CommitTiles(x, buf, bk))
      {
        StagedAsCopied(x, side, bk, k, xx);
        CommitWrites(x, side, buf, bk, |x.tl.slots(side, x.t)|, k, xx);
        if side == A {
          WritesLeft(a, b, x.TileCell(side, buf, k, xx));
        } else {
          WritesRight(a, b, x.TileCell(side, buf, k, xx));
        }
      }
    }
  }

  lemma StageStillHolds(x: Ctx, buf: int, bk: int, n: nat, v: View, after: Mem)
    requires x.Ok() && n <= |x.tl.slots(B, x.t)| && StageHolds(x, B, bk, n, v.mem, v.regs)
    requires forall c :: !IsTile(x, A, buf, c) ==> Read(after, c) == Read(v.mem, c)
    ensures StageHolds(x, B, bk, n, after, v.regs)
  {
    forall s, q | 0 <= s < n && 0 <= q < x.tl.width && Staged(x, B, bk, x.tl.slots(B, x.t)[s])
      ensures Read(v.regs, Stage(B, s, q)) == Read(after, x.LaneSource(B, bk, x.tl.slots(B, x.t)[s].vec, q))
    {
      assert !IsTile(x, A, buf, x.LaneSource(B, bk, x.tl.slots(B, x.t)[s].vec, q));
    }
  }

  lemma PrefetchTilesEval(x: Ctx, bk: int, v: View)
    requires x.Ok()
    ensures var w := Solo(x.p.o, PrefetchTiles(x, bk), v);
      && w.mem == v.mem
      && StageHolds(x, A, bk, |x.tl.slots(A, x.t)|, v.mem, w.regs)
        && StageHolds(x, B, bk, |x.tl.slots(B, x.t)|, v.mem, w.regs)
      && forall n :: Read(w.regs, Acc(n)) == Read(v.regs, Acc(n))
  {
    hide Solo, PrefetchCode, Staged;
    var na, nb := |x.tl.slots(A, x.t)|, |x.tl.slots(B, x.t)|;
    var a, b := PrefetchCode(x, A, bk, na), PrefetchCode(x, B, bk, nb);
    SoloConcat(x.p.o, a, b, v);
    PrefetchEval(x, A, bk, na, v);
    PrefetchEval(x, B, bk, nb, Solo(x.p.o, a, v));
  }

  /** What a consuming phase does to one thread: its accumulators advance by the tile in the
      phase's buffer and, with two buffers, the next tile goes to the other one. */
  lemma ConsumeEval(l: Launch, b: nat, t: nat, ph: nat, v: View)
    requires l.Ok() && l.In(b, t) && ph <= l.Last() && l.Consumes(ph)
    ensures var x, w := l.X(b, t), Solo(l.p.o, l.Rest(b, t, ph), v);
      && (forall n :: 0 <= n < l.tl.Size() ==>
        Read(w.regs, Acc(n)) == TileFold(x, l.BufOf(ph), n, v.mem, Read(v.regs, Acc(n)), l.tl.BK))
      && (l.shape == Double && ph * l.tl.BK < l.p.K ==>
            && Filled(x, 1 - l.BufOf(ph), ph * l.tl.BK, v.mem, w.mem)
            && forall side, k, xx :: CopiedAt(x, side, ph * l.tl.BK, l.tl.vecs(side, t), k, xx) ==>
                 x.TileCell(side, 1 - l.BufOf(ph), k, xx) in Writes(l.Rest(b, t, ph)))
  {
    hide Solo, PrefetchTiles, TileCode, CommitTiles, TileFold, Writes;
    var x := l.X(b, t);
    var buf := l.BufOf(ph);
    if l.shape == Single {
      TileEval(x, buf, l.tl.BK, v);
    } else {
      var bk := ph * l.tl.BK;
      var p, c, m := PrefetchTiles(x, bk), TileCode(x, buf, l.tl.BK), CommitTiles(x, 1 - buf, bk);
      SoloConcat(l.p.o, p + c, m, v);
      SoloConcat(l.p.o, p, c, v);
      PrefetchTilesEval(x, bk, v);
      var v1 := Solo(l.p.o, p, v);
      TileEval(x, buf, l.tl.BK, v1);
      var v2 := Solo(l.p.o, c, v1);
      assert forall side, s, q :: Read(v2.regs, Stage(side, s, q)) == Read(v1.regs, Stage(side, s, q));
      CommitTilesEval(x, 1 - buf, bk, v2);
      forall side, k, xx | bk < l.p.K && CopiedAt(x, side, bk, l.tl.vecs(side, t), k, xx)
        ensures x.TileCell(side, 1 - buf, k, xx) in Writes(l.Rest(b, t, ph))
      {
        WritesRight(p + c, m, x.TileCell(side, 1 - buf, k, xx));
      }
    }
  }

  /** K-tile i is in buffer buf: every in-range position holds its operand element. */
  ghost predicate Holds(l: Launch, b: nat, buf: int, i: nat, mem: Mem)
    requires l.tl.Sane()
  {
    forall side, k, xx ::
      0 <= k < l.tl.BK && 0 <= xx < (if side == A then l.tl.BM else l.tl.BN)
          && l.X(b, 0).InOperand(side, i * l.tl.BK, k, xx) ==>
        Read(mem, l.X(b, 0).TileCell(side, buf, k, xx)) == Read(l.mem, l.X(b, 0).Source(side, i * l.tl.BK, k, xx))
  }

  /** Some thread of the block copies every in-range tile position. */
  lemma PositionCopied(l: Launch, b: nat, side: Side, bk: nat, k: int, xx: int) returns (t: nat)
    requires l.Ok() && b < Blocks(l.p, l.tl) && bk % l.tl.width == 0
    requires 0 <= k < l.tl.BK && 0 <= xx < (if side == A then l.tl.BM else l.tl.BN)
    requires l.X(b, 0).InOperand(side, bk, k, xx)
    ensures l.In(b, t) && CopiedAt(l.X(b, t), side, bk, l.tl.vecs(side, t), k, xx)
  {
    var w := l.tl.width;
    var v := if side == A then Vec(k - k % w, xx) else Vec(k, xx - xx % w);
    var q := if side == A then k % w else xx % w;
    if side == A { VectorOf(k, l.tl.BK, w); } else { VectorOf(xx, l.tl.BN, w); }
    assert l.tl.Aligned(side, v);
    var t0 :| 0 <= t0 < l.tl.threads && v in l.tl.vecs(side, t0);
    t := t0;
    var x := l.X(b, t);
    GuardLanes(x, side, bk, v, q);
    assert v in l.tl.vecs(side, t) && k == x.LaneK(side, v, q) && xx == x.LaneX(side, v, q);
  }

  lemma VectorOf(k: int, n: int, w: int)
    requires w > 0 && n % w == 0 && 0 <= k < n
    ensures 0 <= k - k % w && (k - k % w) % w == 0 && k - k % w + w <= n
  {
    assert k - k % w == k / w * w;
    ModOfMultiple(k / w, w);
    MulMono(0, k / w, w);
    MultipleGap(k - k % w, n, w);
  }

  /** The copy that fills buffer buf with K-tile i: in phase ph, by all threads together. */
  lemma FilledHolds(l: Launch, b: nat, ph: nat, buf: int, i: nat)
    requires l.Ok() && b < Blocks(l.p, l.tl) && ph < l.Last()
    requires i * l.tl.BK < l.p.K
    requires forall t: nat :: t < l.tl.threads ==> Delivers(l, b, t, ph, buf, i)
    ensures Holds(l, b, buf, i, l.MemAt(b, ph + 1))
  {
    hide Solo, Delivers, CopiedAt;
    var bk := i * l.tl.BK;
    MulMono(0, i, l.tl.BK);
    MultipleMod(i, l.tl.BK, l.tl.width);
    forall side, k, xx |
      0 <= k < l.tl.BK && 0 <= xx < (if side == A then l.tl.BM else l.tl.BN) && l.X(b, 0).InOperand(side, bk, k, xx)
      ensures Read(l.MemAt(b, ph + 1), l.X(b, 0).TileCell(side, buf, k, xx)) ==
        Read(l.mem, l.X(b, 0).Source(side, bk, k, xx))
    {
      var t := PositionCopied(l, b, side, bk, k, xx);
      FilledPosition(l, b, t, ph, buf, i, bk, side, k, xx);
    }
  }

  lemma FilledPosition(l: Launch, b: nat, t: nat, ph: nat, buf: int, i: nat, bk: int, side: Side, k: int, xx: int)
    requires l.Ok() && l.In(b, t) && ph < l.Last()
    requires bk == i * l.tl.BK && Delivers(l, b, t, ph, buf, i)
    requires CopiedAt(l.X(b, t), side, bk, l.tl.vecs(side, t), k, xx)
    ensures Read(l.MemAt(b, ph + 1), l.X(b, 0).TileCell(side, buf, k, xx)) ==
      Read(l.mem, l.X(b, 0).Source(side, bk, k, xx))
  {
    hide Solo, Filled, CopiedAt, Writes, CodeOf;
    var x := l.X(b, t);
    var c := x.TileCell(side, buf, k, xx);
    RestWrites(l, b, t, ph, c);
    WriterWins(l, b, t, ph, c);
    FilledAt(x, buf, bk, l.MemAt(b, ph), Solo(l.p.o, l.Rest(b, t, ph), l.Start(b, t, ph)).mem, side, k, xx);
    GlobalsKept(l, b, ph, x.Source(side, bk, k, xx));
  }

  lemma FilledAt(x: Ctx, buf: int, bk: int, before: Mem, after: Mem, side: Side, k: int, xx: int)
    requires x.Ok() && Filled(x, buf, bk, before, after) && CopiedAt(x, side, bk, x.tl.vecs(side, x.t), k, xx)
    ensures Read(after, x.TileCell(side, buf, k, xx)) == Read(before, x.Source(side, bk, k, xx))
  {}

  lemma CeilDivBounds(n: nat, d: nat)
    requires d > 0
    ensures CeilDiv(n, d) * d >= n
    ensures n > 0 ==> CeilDiv(n, d) > 0 && (CeilDiv(n, d) - 1) * d < n
    ensures n % d == 0 ==> CeilDiv(n, d) * d == n
    ensures n == 0 ==> CeilDiv(n, d) == 0
  {
    var q := CeilDiv(n, d);
    assert n + d - 1 == q * d + (n + d - 1) % d;
    if n > 0 && q <= 0 { MulMono(q, 0, d); }
    if n % d == 0 {
      var e := n / d;
      assert n + d - 1 == e * d + (d - 1);
      DivModUnique(e, d - 1, d);
    }
    if n == 0 { DivModUnique(0, d - 1, d); }
  }

  lemma TileBegins(l: Launch, ph: nat)
    requires l.tl.Sane() && ph <= l.Last() && l.Consumes(ph)
    ensures l.TilesDone(ph) * l.tl.BK < l.p.K
  {
    CeilDivBounds(l.p.K, l.tl.BK);
    MulMono(l.TilesDone(ph), Tiles(l.p, l.tl) - 1, l.tl.BK);
  }

  /** A thread delivers its share of tile i in phase ph: it fills buffer buf there. */
  ghost predicate Delivers(l: Launch, b: nat, t: nat, ph: nat, buf: int, i: nat)
    requires l.tl.Sane()
  {
    && Filled(l.X(b, t), buf, i * l.tl.BK, l.MemAt(b, ph), Solo(l.p.o, l.Rest(b, t, ph), l.Start(b, t, ph)).mem)
    && forall side, k, xx :: CopiedAt(l.X(b, t), side, i * l.tl.BK, l.tl.vecs(side, t), k, xx) ==>
         l.X(b, t).TileCell(side, buf, k, xx) in Writes(l.Rest(b, t, ph))
  }

  lemma CopyDelivers(l: Launch, b: nat, t: nat, ph: nat)
    requires l.Ok() && l.In(b, t) && ph < l.Last() && !l.Consumes(ph)
    ensures Delivers(l, b, t, ph, 0, l.TilesDone(ph))
  {
    hide Solo, Filled, CopiedAt, Writes, CopyTiles, CodeOf, CeilDiv;
    StartMem(l, b, t, ph);
    CopyTilesEval(l.X(b, t), 0, l.TilesDone(ph) * l.tl.BK, l.Start(b, t, ph));
  }

  lemma CommitDelivers(l: Launch, b: nat, t: nat, ph: nat)
    requires l.Ok() && l.In(b, t) && ph < l.Last() && l.Consumes(ph) && l.shape == Double && ph * l.tl.BK < l.p.K
    ensures Delivers(l, b, t, ph, 1 - l.BufOf(ph), ph)
  {
    hide Solo, Filled, CopiedAt, TileFold, Writes, Launch.Rest, CodeOf, CeilDiv;
    StartMem(l, b, t, ph);
    ConsumeEval(l, b, t, ph, l.Start(b, t, ph));
  }

  /** The phase before a consuming one fills the buffer it consumes. */
  lemma PhaseBefore(l: Launch, ph: nat)
    requires l.tl.Sane() && 0 < ph <= l.Last() && l.Consumes(ph)
    ensures ph - 1 < l.Last()
    ensures if l.Consumes(ph - 1)
            then l.shape == Double && l.BufOf(ph) == 1 - l.BufOf(ph - 1) && l.TilesDone(ph) == ph - 1
            else l.BufOf(ph) == 0 && l.TilesDone(ph - 1) == l.TilesDone(ph)
  {
    hide Phases;
  }

  /** Each thread delivers its share of a tile in the phase before the tile is consumed. */
  lemma ShareArrives(l: Launch, b: nat, t: nat, ph: nat)
    requires l.Ok() && l.In(b, t) && 0 < ph <= l.Last() && l.Consumes(ph)
    ensures Delivers(l, b, t, ph - 1, l.BufOf(ph), l.TilesDone(ph))
  {
    TileBegins(l, ph);
    PhaseBefore(l, ph);
    hide Delivers, Launch.Ok, Launch.Last, Launch.Consumes, Launch.BufOf, Launch.TilesDone, Launch.In;
    if l.Consumes(ph - 1) {
      CommitDelivers(l, b, t, ph - 1);
    } else {
      CopyDelivers(l, b, t, ph - 1);
    }
  }

  /** Double-buffer safety: the buffer a phase consumes holds exactly that phase's K-tile. */
  lemma TileInPlace(l: Launch, b: nat, ph: nat)
    requires l.Ok() && b < Blocks(l.p, l.tl) && ph <= l.Last() && l.Consumes(ph)
    ensures Holds(l, b, l.BufOf(ph), l.TilesDone(ph), l.MemAt(b, ph))
  {
    hide Delivers, CeilDiv, Holds;
    TileBegins(l, ph);
    var i, prev := l.TilesDone(ph), ph - 1;
    forall t: nat | t < l.tl.threads
      ensures Delivers(l, b, t, prev, l.BufOf(ph), i)
    {
      ShareArrives(l, b, t, ph);
    }
    FilledHolds(l, b, prev, l.BufOf(ph), i);
  }

  // ----- accumulators

  lemma AccStart(l: Launch, b: nat, t: nat, n: nat)
    requires l.Ok() && l.In(b, t) && n < l.tl.Size()
    ensures Stored(l.X(b, t), n) ==>
              l.AccOf(b, t, 0, n) == Read(l.mem, GC(l.X(b, t).GRow(n), l.X(b, t).GCol(n)))
  {
    hide Solo;
    InitEval(l.X(b, t), l.tl.Size(), View(l.MemAt(b, 0), l.RegsAt(b, t, 0)));
  }

  lemma AccNext(l: Launch, b: nat, t: nat, ph: nat, n: nat)
    requires l.Ok() && l.In(b, t) && ph < l.Last() && n < l.tl.Size()
    ensures l.AccOf(b, t, ph + 1, n) ==
            if l.Consumes(ph) then TileFold(l.X(b, t), l.BufOf(ph), n, l.MemAt(b, ph), l.AccOf(b, t, ph, n), l.tl.BK)
            else l.AccOf(b, t, ph, n)
  {
    hide Solo, TileFold, CopyTiles, CodeOf, Writes, Filled;
    var v := l.Start(b, t, ph);
    StartMem(l, b, t, ph);
    StartMem(l, b, t, ph + 1);
    SplitPhase(l, b, t, ph);
    if l.Consumes(ph) {
      ConsumeEval(l, b, t, ph, v);
    } else {
      CopyTilesEval(l.X(b, t), 0, l.TilesDone(ph) * l.tl.BK, v);
    }
  }

  lemma {:induction false} FoldIsDot(l: Launch, b: nat, t: nat, ph: nat, m: nat, n: nat)
    requires l.Ok() && l.In(b, t) && ph <= l.Last() && l.Consumes(ph) && m < l.tl.Size() && Stored(l.X(b, t), m)
    requires n <= l.tl.BK && l.KBase(ph) + n <= l.p.K
    requires Holds(l, b, l.BufOf(ph), l.TilesDone(ph), l.MemAt(b, ph))
    ensures var x, k0 := l.X(b, t), l.KBase(ph);
      TileFold(x, l.BufOf(ph), m, l.MemAt(b, ph), Dot(l.p, l.mem, x.GRow(m), x.GCol(m), k0), n) ==
      Dot(l.p, l.mem, x.GRow(m), x.GCol(m), k0 + n)
  {
    if n > 0 {
      FoldIsDot(l, b, t, ph, m, n - 1);
      assert l.tl.InThread(t, m);
      ProductInPlace(l, b, t, l.BufOf(ph), l.TilesDone(ph), m, n - 1, l.MemAt(b, ph));
    }
  }

  lemma ProductInPlace(l: Launch, b: nat, t: nat, buf: int, i: nat, m: nat, k: nat, mem: Mem)
    requires l.tl.Sane() && Holds(l, b, buf, i, mem) && Stored(l.X(b, t), m)
    requires k < l.tl.BK && i * l.tl.BK + k < l.p.K
    requires 0 <= l.tl.RowOf(t, m) < l.tl.BM && 0 <= l.tl.ColOf(t, m) < l.tl.BN
    ensures var x := l.X(b, t);
      Product(x, buf, k, m, mem) ==
      l.p.o.mul(Read(l.mem, GA(x.GRow(m), i * l.tl.BK + k)), Read(l.mem, GB(i * l.tl.BK + k, x.GCol(m))))
  {
    hide Holds;
    HoldsAt(l, b, buf, i, mem, A, k, l.tl.RowOf(t, m));
    HoldsAt(l, b, buf, i, mem, B, k, l.tl.ColOf(t, m));
  }

  lemma HoldsAt(l: Launch, b: nat, buf: int, i: nat, mem: Mem, side: Side, k: int, xx: int)
    requires l.tl.Sane() && Holds(l, b, buf, i, mem)
    requires 0 <= k < l.tl.BK && 0 <= xx < (if side == A then l.tl.BM else l.tl.BN)
      && l.X(b, 0).InOperand(side, i * l.tl.BK, k, xx)
    ensures Read(mem, l.X(b, 0).TileCell(side, buf, k, xx)) == Read(l.mem, l.X(b, 0).Source(side, i * l.tl.BK, k, xx))
  {}

  lemma KBaseNext(l: Launch, ph: nat)
    requires l.tl.Sane() && ph < l.Last()
    ensures l.KBase(ph + 1) == l.KBase(ph) + if l.Consumes(ph) then l.tl.BK else 0
  {
    if l.Consumes(ph) {
      assert l.TilesDone(ph + 1) == l.TilesDone(ph) + 1;
    } else {
      assert l.TilesDone(ph + 1) == l.TilesDone(ph);
    }
  }

  lemma WholeTiles(l: Launch, ph: nat)
    requires l.tl.Sane() && ph <= l.Last() && l.p.K % l.tl.BK == 0
    ensures l.KBase(ph) <= l.p.K
    ensures l.Consumes(ph) ==> l.KBase(ph) + l.tl.BK <= l.p.K
    ensures l.KBase(l.Last()) == l.p.K
  {
    CeilDivBounds(l.p.K, l.tl.BK);
    var n := Tiles(l.p, l.tl);
    assert l.TilesDone(l.Last()) == n;
    MulMono(l.TilesDone(ph), n, l.tl.BK);
    if l.Consumes(ph) { MulMono(l.TilesDone(ph) + 1, n, l.tl.BK); }
  }

  lemma {:induction false} AccIsDot(l: Launch, b: nat, t: nat, ph: nat, n: nat)
    requires l.Ok() && l.In(b, t) && ph <= l.Last() && n < l.tl.Size() && Stored(l.X(b, t), n) && l.p.K % l.tl.BK == 0
    ensures l.AccOf(b, t, ph, n) == Dot(l.p, l.mem, l.X(b, t).GRow(n), l.X(b, t).GCol(n), l.KBase(ph))
  {
    if ph == 0 {
      AccStart(l, b, t, n);
    } else {
      hide *;
      AccIsDot(l, b, t, ph - 1, n);
      AccDotNext(l, b, t, ph - 1, n);
    }
  }

  lemma AccDotNext(l: Launch, b: nat, t: nat, ph: nat, n: nat)
    requires l.Ok() && l.In(b, t) && ph < l.Last() && n < l.tl.Size() && Stored(l.X(b, t), n) && l.p.K % l.tl.BK == 0
    requires l.AccOf(b, t, ph, n) == Dot(l.p, l.mem, l.X(b, t).GRow(n), l.X(b, t).GCol(n), l.KBase(ph))
    ensures l.AccOf(b, t, ph + 1, n) == Dot(l.p, l.mem, l.X(b, t).GRow(n), l.X(b, t).GCol(n), l.KBase(ph + 1))
  {
    hide Solo, CodeOf, TileFold, Holds, Dot, Stored, Launch.KBase, Launch.AccOf, Launch.TilesDone, Ctx.GRow, Ctx.GCol;
    AccNext(l, b, t, ph, n);
    KBaseNext(l, ph);
    if l.Consumes(ph) {
      WholeTiles(l, ph);
      TileInPlace(l, b, ph);
      FoldIsDot(l, b, t, ph, n, l.tl.BK);
    }
  }

  // ----- C

  lemma CStored(l: Launch, b: nat, t: nat, n: nat)
    requires l.Ok() && l.In(b, t) && n < l.tl.Size() && Stored(l.X(b, t), n)
    ensures var x := l.X(b, t);
      Read(l.MemAt(b, l.Last() + 1), GC(x.GRow(n), x.GCol(n))) ==
          Epilogue(l.p, l.mem, x.GCol(n), l.AccOf(b, t, l.Last(), n))
  {
    hide Solo, CodeOf, Writes, StoreCode;
    var x, ph := l.X(b, t), l.Last();
    var c := GC(x.GRow(n), x.GCol(n));
    StoreWrites(x, l.tl.Size(), n);
    RestWrites(l, b, t, ph, c);
    WriterWins(l, b, t, ph, c);
    StartMem(l, b, t, ph);
    StoreEval(x, l.tl.Size(), l.Start(b, t, ph));
    GlobalsKept(l, b, ph, Bias(x.GCol(n)));
  }

  /** The block that covers row r and column c. */
  lemma BlockOf(l: Launch, r: int, c: int) returns (b: nat)
    requires l.tl.Sane() && InC(l.p, r, c)
    ensures b < Blocks(l.p, l.tl)
    ensures l.X(b, 0).RowBase() + r % l.tl.BM == r && l.X(b, 0).ColBase() + c % l.tl.BN == c
  {
    var BM, BN := l.tl.BM, l.tl.BN;
    var gx, gy := CeilDiv(l.p.N, BN), CeilDiv(l.p.M, BM);
    CeilDivBounds(l.p.N, BN);
    CeilDivBounds(l.p.M, BM);
    DivBounds(r, gy, BM);
    DivBounds(c, gx, BN);
    b := GridIndex(r / BM, c / BN, gx, gy);
    assert l.X(b, 0).GridX() == gx;
  }

  lemma GridIndex(row: int, col: int, gx: nat, gy: nat) returns (b: nat)
    requires 0 <= row < gy && 0 <= col < gx
    ensures b < gx * gy && b / gx == row && b % gx == col
  {
    MulMono(0, row, gx);
    b := row * gx + col;
    DivModUnique(row, col, gx);
    MulMono(row + 1, gy, gx);
  }

  /** Every element of C has exactly one owner: block, thread and accumulator. */
  lemma OwnerOf(l: Launch, r: int, c: int) returns (b: nat, t: nat, n: nat)
    requires l.tl.Owns() && InC(l.p, r, c)
    ensures l.In(b, t) && n < l.tl.Size() && l.X(b, t).GRow(n) == r && l.X(b, t).GCol(n) == c
    ensures forall b': nat, t': nat, n': nat ::
              l.In(b', t') && n' < l.tl.Size() && l.X(b', t').GRow(n') == r && l.X(b', t').GCol(n') == c ==>
                b' == b && t' == t && n' == n
  {
    b := BlockOf(l, r, c);
    assert l.tl.Covers(r % l.tl.BM, c % l.tl.BN);
    var t0, n0 :| l.tl.InThread(t0, n0) && l.tl.RowOf(t0, n0) == r % l.tl.BM && l.tl.ColOf(t0, n0) == c % l.tl.BN;
    t, n := t0, n0;
    forall b': nat, t': nat, n': nat |
      l.In(b', t') && n' < l.tl.Size() && l.X(b', t').GRow(n') == r && l.X(b', t').GCol(n') == c
      ensures b' == b && t' == t && n' == n
    {
      OwnersAgree(l, b, t, n, b', t', n');
    }
  }

  lemma OwnersAgree(l: Launch, b: nat, t: nat, n: nat, b': nat, t': nat, n': nat)
    requires l.tl.Owns() && l.In(b, t) && l.In(b', t') && n < l.tl.Size() && n' < l.tl.Size()
    requires l.X(b, t).GRow(n) == l.X(b', t').GRow(n') && l.X(b, t).GCol(n) == l.X(b', t').GCol(n')
    requires InC(l.p, l.X(b, t).GRow(n), l.X(b, t).GCol(n))
    ensures b' == b && t' == t && n' == n
  {
    var r, c := l.X(b, t).GRow(n), l.X(b, t).GCol(n);
    assert OwnsC(l.X(b, t), r, c) && OwnsC(l.X(b', t'), r, c);
    SameOwner(l.p, l.tl, b, t, b', t', r, c);
    assert l.tl.InThread(t, n) && l.tl.InThread(t', n');
  }

  lemma FinalC(l: Launch, final: Mem, b: nat, t: nat, n: nat)
    requires l.Ok() && Settled(l.K(), l.p.o, l.mem, final)
    requires l.In(b, t) && n < l.tl.Size() && Stored(l.X(b, t), n)
    ensures var x := l.X(b, t);
      Read(final, GC(x.GRow(n), x.GCol(n))) == Epilogue(l.p, l.mem, x.GCol(n), l.AccOf(b, t, l.Last(), n))
  {
    hide Solo, CodeOf, StoreCode, Epilogue;
    var x, ph, k := l.X(b, t), l.Last(), l.K();
    var c := GC(x.GRow(n), x.GCol(n));
    KernelRaceFree(l.shape, l.p, l.tl);
    CStored(l, b, t, n);
    assert c in Writes(k.code(b, t, ph)) by {
      hide Writes;
      StoreWrites(x, l.tl.Size(), n);
      RestWrites(l, b, t, ph, c);
    }
    assert TouchedBy(k, b, t, ph, c);
    assert !ForeignWrites(k, b, c);
  }

  /** A cell that is not an in-range element of C is never written. */
  lemma FinalElsewhere(l: Launch, final: Mem, c: Cell)
    requires l.Ok() && Settled(l.K(), l.p.o, l.mem, final)
    requires !c.SA? && !c.SB? && !(c.GC? && InC(l.p, c.r, c.c))
    ensures Read(final, c) == Read(l.mem, c)
  {
    hide Solo, CodeOf;
    var k := l.K();
    if k.blocks > 0 {
      forall b: nat, t: nat, ph: nat
        ensures !WrittenBy(k, b, t, ph, c)
      {
        if WrittenBy(k, b, t, ph, c) { WriteOk(l.shape, l.p, l.tl, b, t, ph, c); }
      }
      assert !ForeignWrites(k, 0, c);
      forall t: nat, ph: nat | t < k.threads && ph < k.phases
        ensures c !in Writes(k.code(0, t, ph))
      {
        assert !WrittenBy(k, 0, t, ph, c);
      }
      PhaseMemUnwritten(k, l.p.o, l.mem, 0, k.phases, c);
    }
  }

  /** The memory every schedule of the kernel ends in holds the GEMM, and nothing else changed. */
  lemma KernelComputesGemm(l: Launch, final: Mem)
    requires l.Ok() && l.p.K % l.tl.BK == 0 && Settled(l.K(), l.p.o, l.mem, final)
    ensures IsGemmOf(l.p, l.mem, final)
  {
    hide Solo, CodeOf, Settled, Epilogue, Dot;
    forall r, c | InC(l.p, r, c)
      ensures Read(final, GC(r, c)) == Gemm(l.p, l.mem, r, c)
    {
      var b, t, n := OwnerOf(l, r, c);
      FinalC(l, final, b, t, n);
      AccIsDot(l, b, t, l.Last(), n);
      WholeTiles(l, l.Last());
    }
    forall c: Cell | !c.SA? && !c.SB? && !(c.GC? && InC(l.p, c.r, c.c))
      ensures Read(final, c) == Read(l.mem, c)
    {
      FinalElsewhere(l, final, c);
    }
  }

  /** In every reachable state, a block inside a consuming phase still finds that phase's K-tile,
      whole, in the buffer it reads: no thread, however far ahead, has overwritten any of it. */
  lemma BufferStable(l: Launch, states: seq<State>, moves: seq<Move>, n: nat, b: nat)
    requires l.Ok() && IsRun(l.K(), l.p.o, l.mem, states, moves) && n < |states| && b < Blocks(l.p, l.tl)
    requires l.Consumes(states[n].blocks[b].phase)
    ensures Holds(l, b, l.BufOf(states[n].blocks[b].phase), l.TilesDone(states[n].blocks[b].phase), states[n].mem)
  {
    hide Solo, CodeOf, Holds;
    var s, ph, k := states[n], states[n].blocks[b].phase, l.K();
    KernelRaceFree(l.shape, l.p, l.tl);
    RunInv(k, l.p.o, l.mem, states, moves, n);
    TileInPlace(l, b, ph);
    forall side, kk, xx
      ensures Read(s.mem, l.X(b, 0).TileCell(side, l.BufOf(ph), kk, xx)) ==
        Read(l.MemAt(b, ph), l.X(b, 0).TileCell(side, l.BufOf(ph), kk, xx))
    {
      var c := l.X(b, 0).TileCell(side, l.BufOf(ph), kk, xx);
      ReadBufferUnwritten(l, b, ph, side, kk, xx);
      assert BlockOk(k, l.p.o, l.mem, s, b);
    }
    SameTile(l, b, l.BufOf(ph), l.TilesDone(ph), l.MemAt(b, ph), s.mem);
  }

  lemma SameTile(l: Launch, b: nat, buf: int, i: nat, m0: Mem, m1: Mem)
    requires l.tl.Sane() && Holds(l, b, buf, i, m0)
    requires forall side, k, xx ::
      Read(m1, l.X(b, 0).TileCell(side, buf, k, xx)) == Read(m0, l.X(b, 0).TileCell(side, buf, k, xx))
    ensures Holds(l, b, buf, i, m1)
  {}

  lemma ReadBufferUnwritten(l: Launch, b: nat, ph: nat, side: Side, k: int, xx: int)
    requires l.Ok() && b < Blocks(l.p, l.tl) && ph <= l.Last() && l.Consumes(ph)
    ensures var c := l.X(b, 0).TileCell(side, l.BufOf(ph), k, xx);
      !ForeignWrites(l.K(), b, c) && !PhaseWrites(l.K(), b, ph, c)
  {
    hide CodeOf;
    var c := l.X(b, 0).TileCell(side, l.BufOf(ph), k, xx);
    forall b': nat, t: nat, ph': nat | WrittenBy(l.K(), b', t, ph', c)
      ensures b' == b && ph' != ph
    {
      WriteOk(l.shape, l.p, l.tl, b', t, ph', c);
    }
  }

  // ----- exactly when the tail of K is harmless

  /** An arithmetic that counts the additions an element has been through. */
  function Counting(): Arith {
    Arith((x: Elem, y: Elem) => Elem(x.code + 1), (x: Elem, y: Elem) => x,
          (x: Elem, y: Elem) => Elem(x.code + 1), Elem(0))
  }

  function EpilogueSteps(p: Problem): nat {
    (if p.bias then 1 else 0) + (if p.relu then 1 else 0)
  }

  lemma {:induction false} DotCounts(p: Problem, mem: Mem, r: int, c: int, n: nat)
    requires p.o == Counting()
    ensures Dot(p, mem, r, c, n).code == Read(mem, GC(r, c)).code + n
  {
    if n > 0 { DotCounts(p, mem, r, c, n - 1); }
  }

  lemma {:induction false} TileFoldCounts(x: Ctx, buf: int, m: int, mem: Mem, acc: Elem, n: nat)
    requires x.Ok() && x.p.o == Counting()
    ensures TileFold(x, buf, m, mem, acc, n).code == acc.code + n
  {
    if n > 0 { TileFoldCounts(x, buf, m, mem, acc, n - 1); }
  }

  lemma AccCountNext(l: Launch, b: nat, t: nat, ph: nat, n: nat)
    requires l.Ok() && l.In(b, t) && ph < l.Last() && n < l.tl.Size() && l.p.o == Counting()
    ensures l.AccOf(b, t, ph + 1, n).code == l.AccOf(b, t, ph, n).code + l.KBase(ph + 1) - l.KBase(ph)
  {
    hide Solo, CodeOf, TileFold, Counting, Launch.KBase, Launch.AccOf, Launch.TilesDone;
    AccNext(l, b, t, ph, n);
    KBaseNext(l, ph);
    if l.Consumes(ph) {
      TileFoldCounts(l.X(b, t), l.BufOf(ph), n, l.MemAt(b, ph), l.AccOf(b, t, ph, n), l.tl.BK);
    }
  }

  lemma {:induction false} AccCounts(l: Launch, b: nat, t: nat, ph: nat, n: nat)
    requires l.Ok() && l.In(b, t) && ph <= l.Last() && n < l.tl.Size() && Stored(l.X(b, t), n) && l.p.o == Counting()
    ensures l.AccOf(b, t, ph, n).code == Read(l.mem, GC(l.X(b, t).GRow(n), l.X(b, t).GCol(n))).code + l.KBase(ph)
  {
    if ph == 0 {
      AccStart(l, b, t, n);
    } else {
      hide *;
      AccCounts(l, b, t, ph - 1, n);
      AccCountNext(l, b, t, ph - 1, n);
    }
  }

  /** The kernel computes the GEMM whatever the arithmetic, under every schedule. */
  ghost predicate AlwaysGemm(shape: Shape, p: Problem, tl: Tiling, mem: Mem)
    requires tl.Sane()
  {
    forall o: Arith, states: seq<State>, moves: seq<Move> ::
      var k := KernelOf(shape, p.(o := o), tl);
      IsRun(k, o, mem, states, moves) && Done(k, states[|moves|]) ==> IsGemmOf(p.(o := o), mem, states[|moves|].mem)
  }

  /** A counting arithmetic sees the whole K-tiles that a kernel adds. */
  lemma TailShows(l: Launch, final: Mem)
    requires l.Ok() && Settled(l.K(), l.p.o, l.mem, final) && l.p.o == Counting()
    requires l.p.K % l.tl.BK != 0 && l.p.M > 0 && l.p.N > 0
    ensures !IsGemmOf(l.p, l.mem, final)
  {
    hide Solo, CodeOf, Settled, Dot, Launch.AccOf;
    var b, t, n := OwnerOf(l, 0, 0);
    FinalC(l, final, b, t, n);
    AccCounts(l, b, t, l.Last(), n);
    DotCounts(l.p, l.mem, 0, 0, l.p.K);
    DivModUnique(Tiles(l.p, l.tl), 0, l.tl.BK);
    assert l.TilesDone(l.Last()) == Tiles(l.p, l.tl);
    assert Read(final, GC(0, 0)).code != Gemm(l.p, l.mem, 0, 0).code;
  }

  lemma EmptyIsGemm(l: Launch, final: Mem)
    requires l.Ok() && Settled(l.K(), l.p.o, l.mem, final) && (l.p.M == 0 || l.p.N == 0)
    ensures IsGemmOf(l.p, l.mem, final)
  {
    hide Solo, CodeOf, Settled;
    forall c: Cell | !c.SA? && !c.SB?
      ensures Read(final, c) == Read(l.mem, c)
    {
      FinalElsewhere(l, final, c);
    }
  }

  /** Every tiled kernel always adds whole K-tiles, so it computes the GEMM for every arithmetic
      exactly when BK divides K or C is empty. */
  lemma KTailExact(shape: Shape, p: Problem, tl: Tiling, mem: Mem)
    requires Legal(shape, p, tl)
    ensures AlwaysGemm(shape, p, tl, mem) <==> p.K % tl.BK == 0 || p.M == 0 || p.N == 0
  {
    hide Solo, CodeOf, Settled, IsGemmOf;
    forall o: Arith ensures Launch(shape, p.(o := o), tl, mem).Ok() { LegalForAll(shape, p, tl, o); }
    if p.K % tl.BK == 0 || p.M == 0 || p.N == 0 {
      forall o: Arith, states: seq<State>, moves: seq<Move> |
        var k := KernelOf(shape, p.(o := o), tl); IsRun(k, o, mem, states, moves) && Done(k, states[|moves|])
        ensures IsGemmOf(p.(o := o), mem, states[|moves|].mem)
      {
        var l, final := Launch(shape, p.(o := o), tl, mem), states[|moves|].mem;
        KernelRaceFree(shape, l.p, tl);
        ScheduleIndependence(l.K(), o, mem, states, moves);
        if p.K % tl.BK == 0 { KernelComputesGemm(l, final); } else { EmptyIsGemm(l, final); }
      }
    } else {
      var l := Launch(shape, p.(o := Counting()), tl, mem);
      KernelRaceFree(shape, l.p, tl);
      var states, moves := FinishedRun(l.K(), l.p.o, mem);
      ScheduleIndependence(l.K(), l.p.o, mem, states, moves);
      TailShows(l, states[|moves|].mem);
    }
  }

  /** Nothing a kernel needs of its problem depends on the arithmetic. */
  lemma LegalForAll(shape: Shape, p: Problem, tl: Tiling, o: Arith)
    requires Legal(shape, p, tl)
    ensures Legal(shape, p.(o := o), tl)
  {}
}
