/** What one thread's code between barriers computes when nobody interferes. */
module ThreadMeaning {
  import opened Elements
  import opened Machine
  import opened GemmSpec
  import opened Kernels
  import opened KernelRaces

  lemma SoloSnoc(o: Arith, p: seq<Instr>, ins: Instr, v: View)
    ensures Solo(o, p + [ins], v) == Do(o, ins, Solo(o, p, v))
  {
    assert (p + [ins])[..|p + [ins]| - 1] == p;
  }

  lemma SoloNone(o: Arith, v: View)
    ensures Solo(o, [], v) == v
  {}

  lemma {:induction false} InitEval(x: Ctx, n: nat, v: View)
    requires x.Ok()
    ensures var w := Solo(x.p.o, InitCode(x, n), v);
      && w.mem == v.mem
      && forall m :: 0 <= m < n ==>
           Read(w.regs, Acc(m)) ==
           if x.GRow(m) < x.p.M && x.GCol(m) < x.p.N then Read(v.mem, GC(x.GRow(m), x.GCol(m))) else x.p.o.zero
  {
    if n > 0 {
      InitEval(x, n - 1, v);
      SoloSnoc(x.p.o, InitCode(x, n - 1), InitCode(x, n)[|InitCode(x, n)| - 1], v);
    }
  }

  // ----- copying a tile

  /** Position (k, xx) of the tile is one this list of vectors copies. */
  ghost predicate CopiedAt(x: Ctx, side: Side, bk: int, vs: seq<Vec>, k: int, xx: int)
    requires x.Ok()
  {
    exists v, q :: v in vs && Guard(x, side, bk, v) && 0 <= q < x.tl.width && k == x.LaneK(side, v, q)
      && xx == x.LaneX(side, v, q)
  }

  predicate IsTile(x: Ctx, side: Side, buf: int, c: Cell) {
    match side
    case A => c.SA? && c.block == x.b && c.buf == buf
    case B => c.SB? && c.block == x.b && c.buf == buf
  }

  lemma {:induction false} LaneLoadsEval(x: Ctx, side: Side, bk: int, vec: Vec, s: int, n: nat, v: View)
    requires x.Ok()
    ensures var w := Solo(x.p.o, LaneLoads(x, side, bk, vec, s, n), v);
      && w.mem == v.mem
      && (forall q :: 0 <= q < n ==> Read(w.regs, Stage(side, s, q)) == Read(v.mem, x.LaneSource(side, bk, vec, q)))
      && (forall r: Reg :: !(r.Stage? && r.side == side && r.s == s) ==> Read(w.regs, r) == Read(v.regs, r))
  {
    if n > 0 {
      LaneLoadsEval(x, side, bk, vec, s, n - 1, v);
      SoloSnoc(x.p.o, LaneLoads(x, side, bk, vec, s, n - 1),
          Load(Stage(side, s, n - 1), x.LaneSource(side, bk, vec, n - 1)), v);
    }
  }

  lemma {:induction false} LaneZerosEval(x: Ctx, side: Side, s: int, n: nat, v: View)
    ensures var w := Solo(x.p.o, LaneZeros(x, side, s, n), v);
      && w.mem == v.mem
      && (forall r: Reg :: !(r.Stage? && r.side == side && r.s == s) ==> Read(w.regs, r) == Read(v.regs, r))
  {
    if n > 0 {
      LaneZerosEval(x, side, s, n - 1, v);
      SoloSnoc(x.p.o, LaneZeros(x, side, s, n - 1), Const(Stage(side, s, n - 1), x.p.o.zero), v);
    }
  }

  ghost predicate IsLane(x: Ctx, side: Side, buf: int, vec: Vec, n: nat, c: Cell) {
    exists q :: 0 <= q < n && c == x.LaneCell(side, buf, vec, q)
  }

  lemma {:induction false} LaneStoresEval(x: Ctx, side: Side, buf: int, vec: Vec, s: int, n: nat, v: View)
    ensures LanesStored(x, side, buf, vec, s, n, v, Solo(x.p.o, LaneStores(x, side, buf, vec, s, n), v))
  {
    hide Solo, LanesStored;
    if n == 0 {
      SoloNone(x.p.o, v);
      NoLanesStored(x, side, buf, vec, s, v);
    } else {
      LaneStoresEval(x, side, buf, vec, s, n - 1, v);
      var p := LaneStores(x, side, buf, vec, s, n - 1);
      var last := Store(x.LaneCell(side, buf, vec, n - 1), Stage(side, s, n - 1));
      SoloSnoc(x.p.o, p, last, v);
      LanesStoredSnoc(x, side, buf, vec, s, n, v, Solo(x.p.o, p, v));
    }
  }

  ghost predicate LanesStored(x: Ctx, side: Side, buf: int, vec: Vec, s: int, n: nat, v: View, w: View) {
    && w.regs == v.regs
    && (forall q :: 0 <= q < n ==> Read(w.mem, x.LaneCell(side, buf, vec, q)) == Read(v.regs, Stage(side, s, q)))
    && (forall c :: !IsLane(x, side, buf, vec, n, c) ==> Read(w.mem, c) == Read(v.mem, c))
  }

  lemma NoLanesStored(x: Ctx, side: Side, buf: int, vec: Vec, s: int, v: View)
    ensures LanesStored(x, side, buf, vec, s, 0, v, v)
  {}

  lemma LanesStoredSnoc(x: Ctx, side: Side, buf: int, vec: Vec, s: int, n: nat, v: View, u: View)
    requires n > 0 && LanesStored(x, side, buf, vec, s, n - 1, v, u)
    ensures LanesStored(x, side, buf, vec, s, n, v,
      Do(x.p.o, Store(x.LaneCell(side, buf, vec, n - 1), Stage(side, s, n - 1)), u))
  {
    forall c | !IsLane(x, side, buf, vec, n, c)
      ensures c != x.LaneCell(side, buf, vec, n - 1) && !IsLane(x, side, buf, vec, n - 1, c)
    {}
  }

  /** `after` is `before` with the listed vectors copied into one shared tile. */
  ghost predicate TileUpdated(x: Ctx, side: Side, buf: int, bk: int, vs: seq<Vec>, before: Mem, after: Mem)
    requires x.Ok()
  {
    && (forall k, xx :: CopiedAt(x, side, bk, vs, k, xx) ==>
          Read(after, x.TileCell(side, buf, k, xx)) == Read(before, x.Source(side, bk, k, xx)))
    && (forall k, xx :: !CopiedAt(x, side, bk, vs, k, xx) ==>
          Read(after, x.TileCell(side, buf, k, xx)) == Read(before, x.TileCell(side, buf, k, xx)))
    && (forall c :: !IsTile(x, side, buf, c) ==> Read(after, c) == Read(before, c))
  }

  lemma CopiedAtSnoc(x: Ctx, side: Side, bk: int, init: seq<Vec>, vec: Vec, k: int, xx: int)
    requires x.Ok()
    ensures CopiedAt(x, side, bk, init + [vec], k, xx) <==>
            CopiedAt(x, side, bk, init, k, xx) || CopiedAt(x, side, bk, [vec], k, xx)
  {
    if v, q :|
      && v in init + [vec] && Guard(x, side, bk, v) && 0 <= q < x.tl.width
      && k == x.LaneK(side, v, q) && xx == x.LaneX(side, v, q)
    {
      assert v in init || v in [vec];
    }
    if v, q :|
      && v in init && Guard(x, side, bk, v) && 0 <= q < x.tl.width
      && k == x.LaneK(side, v, q) && xx == x.LaneX(side, v, q)
    {
      assert v in init + [vec];
    }
    if v, q :|
      && v in [vec] && Guard(x, side, bk, v) && 0 <= q < x.tl.width
      && k == x.LaneK(side, v, q) && xx == x.LaneX(side, v, q)
    {
      assert v in init + [vec];
    }
  }

  lemma TileUpdatedSnoc(x: Ctx, side: Side, buf: int, bk: int, init: seq<Vec>, vec: Vec, m0: Mem, m1: Mem, m2: Mem)
    requires x.Ok() && Guard(x, side, bk, vec) && TileUpdated(x, side, buf, bk, init, m0, m1)
    requires forall q :: 0 <= q < x.tl.width ==>
      Read(m2, x.LaneCell(side, buf, vec, q)) == Read(m0, x.LaneSource(side, bk, vec, q))
    requires forall c :: !IsLane(x, side, buf, vec, x.tl.width, c) ==> Read(m2, c) == Read(m1, c)
    ensures TileUpdated(x, side, buf, bk, init + [vec], m0, m2)
  {
    forall k, xx
      ensures CopiedAt(x, side, bk, init + [vec], k, xx) ==>
                Read(m2, x.TileCell(side, buf, k, xx)) == Read(m0, x.Source(side, bk, k, xx))
      ensures !CopiedAt(x, side, bk, init + [vec], k, xx) ==>
                Read(m2, x.TileCell(side, buf, k, xx)) == Read(m0, x.TileCell(side, buf, k, xx))
    {
      CopiedAtSnoc(x, side, bk, init, vec, k, xx);
      assert vec in [vec];
      if CopiedAt(x, side, bk, [vec], k, xx) {
        var v, q :| v in [vec] && Guard(x, side, bk, v) && 0 <= q < x.tl.width && k == x.LaneK(side, v, q)
          && xx == x.LaneX(side, v, q);
        assert x.TileCell(side, buf, k, xx) == x.LaneCell(side, buf, vec, q);
      } else {
        forall q | 0 <= q < x.tl.width
          ensures x.TileCell(side, buf, k, xx) != x.LaneCell(side, buf, vec, q)
        {
          assert k != x.LaneK(side, vec, q) || xx != x.LaneX(side, vec, q);
        }
        assert !IsLane(x, side, buf, vec, x.tl.width, x.TileCell(side, buf, k, xx));
      }
    }
    forall c | !IsTile(x, side, buf, c)
      ensures Read(m2, c) == Read(m0, c)
    {
      assert !IsLane(x, side, buf, vec, x.tl.width, c);
    }
  }

  lemma TileUpdatedSkip(x: Ctx, side: Side, buf: int, bk: int, init: seq<Vec>, vec: Vec, m0: Mem, m1: Mem)
    requires x.Ok() && !Guard(x, side, bk, vec) && TileUpdated(x, side, buf, bk, init, m0, m1)
    ensures TileUpdated(x, side, buf, bk, init + [vec], m0, m1)
  {
    forall k, xx
      ensures CopiedAt(x, side, bk, init + [vec], k, xx) <==> CopiedAt(x, side, bk, init, k, xx)
    {
      CopiedAtSnoc(x, side, bk, init, vec, k, xx);
    }
  }

  lemma {:induction false} CopyEval(x: Ctx, side: Side, buf: int, bk: int, vs: seq<Vec>, v: View)
    requires x.Ok()
    ensures var w := Solo(x.p.o, CopyCode(x, side, buf, bk, vs), v);
      && TileUpdated(x, side, buf, bk, vs, v.mem, w.mem)
      && (forall r: Reg :: !r.Stage? ==> Read(w.regs, r) == Read(v.regs, r))
  {
    if vs != [] {
      var vec := vs[|vs| - 1];
      var init := vs[..|vs| - 1];
      assert vs == init + [vec];
      var code := CopyCode(x, side, buf, bk, init);
      CopyEval(x, side, buf, bk, init, v);
      var u := Solo(x.p.o, code, v);
      if Guard(x, side, bk, vec) {
        var ld, st := LaneLoads(x, side, bk, vec, 0, x.tl.width), LaneStores(x, side, buf, vec, 0, x.tl.width);
        SoloConcat(x.p.o, code, ld + st, v);
        SoloConcat(x.p.o, ld, st, u);
        LaneLoadsEval(x, side, bk, vec, 0, x.tl.width, u);
        LaneStoresEval(x, side, buf, vec, 0, x.tl.width, Solo(x.p.o, ld, u));
        TileUpdatedSnoc(x, side, buf, bk, init, vec, v.mem, u.mem, Solo(x.p.o, CopyCode(x, side, buf, bk, vs), v).mem);
      } else {
        assert code + [] == code;
        TileUpdatedSkip(x, side, buf, bk, init, vec, v.mem, u.mem);
      }
    }
  }

  lemma {:induction false} CopyWrites(x: Ctx, side: Side, buf: int, bk: int, vs: seq<Vec>, k: int, xx: int)
    requires x.Ok() && CopiedAt(x, side, bk, vs, k, xx)
    ensures x.TileCell(side, buf, k, xx) in Writes(CopyCode(x, side, buf, bk, vs))
  {
    var init, vec := vs[..|vs| - 1], vs[|vs| - 1];
    assert vs == init + [vec];
    CopiedAtSnoc(x, side, bk, init, vec, k, xx);
    var p := CopyCode(x, side, buf, bk, init);
    if CopiedAt(x, side, bk, init, k, xx) {
      CopyWrites(x, side, buf, bk, init, k, xx);
      WritesLeft(p, CopyCode(x, side, buf, bk, vs)[|p|..], x.TileCell(side, buf, k, xx));
      assert CopyCode(x, side, buf, bk, vs) == p + CopyCode(x, side, buf, bk, vs)[|p|..];
    } else {
      var v, q :| v in [vec] && Guard(x, side, bk, v) && 0 <= q < x.tl.width && k == x.LaneK(side, v, q)
        && xx == x.LaneX(side, v, q);
      var ld, st := LaneLoads(x, side, bk, vec, 0, x.tl.width), LaneStores(x, side, buf, vec, 0, x.tl.width);
      LaneStoresAt(x, side, buf, vec, 0, x.tl.width, q);
      WritesRight(ld, st, x.LaneCell(side, buf, vec, q));
      WritesRight(p, ld + st, x.LaneCell(side, buf, vec, q));
    }
  }

  lemma {:induction false} LaneStoresAt(x: Ctx, side: Side, buf: int, vec: Vec, s: int, n: nat, q: nat)
    requires q < n
    ensures x.LaneCell(side, buf, vec, q) in Writes(LaneStores(x, side, buf, vec, s, n))
  {
    var p, last := LaneStores(x, side, buf, vec, s, n - 1),
      [Store(x.LaneCell(side, buf, vec, n - 1), Stage(side, s, n - 1))];
    if q < n - 1 {
      LaneStoresAt(x, side, buf, vec, s, n - 1, q);
      WritesLeft(p, last, x.LaneCell(side, buf, vec, q));
    } else {
      assert last[0].Store? && last[0].cell == x.LaneCell(side, buf, vec, q);
      WritesRight(p, last, x.LaneCell(side, buf, vec, q));
    }
  }

  lemma WritesLeft(p: seq<Instr>, q: seq<Instr>, c: Cell)
    requires c in Writes(p)
    ensures c in Writes(p + q)
  {
    var n :| 0 <= n < |p| && p[n].Store? && p[n].cell == c;
    assert (p + q)[n] == p[n];
  }

  lemma WritesRight(p: seq<Instr>, q: seq<Instr>, c: Cell)
    requires c in Writes(q)
    ensures c in Writes(p + q)
  {
    var n :| 0 <= n < |q| && q[n].Store? && q[n].cell == c;
    assert (p + q)[|p| + n] == q[n];
  }

  // ----- staging a tile in registers and committing it

  /** The vectors the first n slots really stage. */
  function StagedVecs(x: Ctx, side: Side, bk: int, n: nat): seq<Vec>
    requires x.Ok() && n <= |x.tl.slots(side, x.t)|
  {
    if n == 0 then []
    else
      var slot := x.tl.slots(side, x.t)[n - 1];
      StagedVecs(x, side, bk, n - 1) + if Staged(x, side, bk, slot) then [slot.vec] else []
  }

  ghost predicate StageHolds(x: Ctx, side: Side, bk: int, n: nat, mem: Mem, regs: Regs)
    requires x.Ok() && n <= |x.tl.slots(side, x.t)|
  {
    forall s, q :: 0 <= s < n && 0 <= q < x.tl.width && Staged(x, side, bk, x.tl.slots(side, x.t)[s]) ==>
      Read(regs, Stage(side, s, q)) == Read(mem, x.LaneSource(side, bk, x.tl.slots(side, x.t)[s].vec, q))
  }

  ghost predicate Prefetched(x: Ctx, side: Side, bk: int, n: nat, v: View, w: View)
    requires x.Ok() && n <= |x.tl.slots(side, x.t)|
  {
    && w.mem == v.mem
    && StageHolds(x, side, bk, n, v.mem, w.regs)
    && (forall r: Reg :: !(r.Stage? && r.side == side) ==> Read(w.regs, r) == Read(v.regs, r))
  }

  lemma PrefetchedSnoc(x: Ctx, side: Side, bk: int, m: nat, v: View, u: View, w: View)
    requires x.Ok() && m < |x.tl.slots(side, x.t)| && Prefetched(x, side, bk, m, v, u)
    requires w.mem == u.mem
    requires forall q :: Staged(x, side, bk, x.tl.slots(side, x.t)[m]) && 0 <= q < x.tl.width ==>
               Read(w.regs, Stage(side, m, q)) == Read(u.mem, x.LaneSource(side, bk, x.tl.slots(side, x.t)[m].vec, q))
    requires forall r: Reg :: !(r.Stage? && r.side == side && r.s == m) ==> Read(w.regs, r) == Read(u.regs, r)
    ensures Prefetched(x, side, bk, m + 1, v, w)
  {
    forall s, q | 0 <= s < m + 1 && 0 <= q < x.tl.width && Staged(x, side, bk, x.tl.slots(side, x.t)[s])
      ensures Read(w.regs, Stage(side, s, q)) == Read(v.mem, x.LaneSource(side, bk, x.tl.slots(side, x.t)[s].vec, q))
    {
      if s < m { assert Read(w.regs, Stage(side, s, q)) == Read(u.regs, Stage(side, s, q)); }
    }
  }

  lemma PrefetchedNone(x: Ctx, side: Side, bk: int, v: View)
    requires x.Ok()
    ensures Prefetched(x, side, bk, 0, v, Solo(x.p.o, [], v))
  {}

  lemma {:induction false} PrefetchEval(x: Ctx, side: Side, bk: int, n: nat, v: View)
    requires x.Ok() && n <= |x.tl.slots(side, x.t)|
    ensures Prefetched(x, side, bk, n, v, Solo(x.p.o, PrefetchCode(x, side, bk, n), v))
  {
    hide Solo, Prefetched, LaneLoads, LaneZeros, Staged;
    if n == 0 {
      PrefetchedNone(x, side, bk, v);
    } else {
      PrefetchEval(x, side, bk, n - 1, v);
      var p := PrefetchCode(x, side, bk, n - 1);
      var slot := x.tl.slots(side, x.t)[n - 1];
      var u := Solo(x.p.o, p, v);
      if Staged(x, side, bk, slot) {
        var more := LaneLoads(x, side, bk, slot.vec, n - 1, x.tl.width);
        SoloConcat(x.p.o, p, more, v);
        LaneLoadsEval(x, side, bk, slot.vec, n - 1, x.tl.width, u);
        PrefetchedSnoc(x, side, bk, n - 1, v, u, Solo(x.p.o, more, u));
      } else {
        var more := LaneZeros(x, side, n - 1, x.tl.width);
        SoloConcat(x.p.o, p, more, v);
        LaneZerosEval(x, side, n - 1, x.tl.width, u);
        PrefetchedSnoc(x, side, bk, n - 1, v, u, Solo(x.p.o, more, u));
      }
    }
  }

  lemma TileUpdatedNone(x: Ctx, side: Side, buf: int, bk: int, mem: Mem)
    requires x.Ok()
    ensures TileUpdated(x, side, buf, bk, [], mem, mem)
  {}

  lemma {:induction false} CommitEval(x: Ctx, side: Side, buf: int, bk: int, n: nat, v: View)
    requires x.Ok() && n <= |x.tl.slots(side, x.t)|
    requires StageHolds(x, side, bk, n, v.mem, v.regs)
    ensures var w := Solo(x.p.o, CommitCode(x, side, buf, bk, n), v);
      && w.regs == v.regs
      && TileUpdated(x, side, buf, bk, StagedVecs(x, side, bk, n), v.mem, w.mem)
  {
    hide Solo, TileUpdated, LaneStores, IsLane;
    if n == 0 {
      SoloNone(x.p.o, v);
      TileUpdatedNone(x, side, buf, bk, v.mem);
    } else {
      CommitEval(x, side, buf, bk, n - 1, v);
      var p := CommitCode(x, side, buf, bk, n - 1);
      var slot := x.tl.slots(side, x.t)[n - 1];
      var u := Solo(x.p.o, p, v);
      if Staged(x, side, bk, slot) {
        var more := LaneStores(x, side, buf, slot.vec, n - 1, x.tl.width);
        assert CommitCode(x, side, buf, bk, n) == p + more;
        SoloConcat(x.p.o, p, more, v);
        LaneStoresEval(x, side, buf, slot.vec, n - 1, x.tl.width, u);
        var w := Solo(x.p.o, more, u);
        StagedLanes(x, side, buf, bk, n, v, w.mem);
        TileUpdatedSnoc(x, side, buf, bk, StagedVecs(x, side, bk, n - 1), slot.vec, v.mem, u.mem, w.mem);
      } else {
        assert CommitCode(x, side, buf, bk, n) == p + [] == p;
        assert StagedVecs(x, side, bk, n) == StagedVecs(x, side, bk, n - 1) + [] == StagedVecs(x, side, bk, n - 1);
      }
    }
  }

  lemma StagedLanes(x: Ctx, side: Side, buf: int, bk: int, n: nat, v: View, after: Mem)
    requires x.Ok() && 0 < n <= |x.tl.slots(side, x.t)| && StageHolds(x, side, bk, n, v.mem, v.regs)
    requires Staged(x, side, bk, x.tl.slots(side, x.t)[n - 1])
    requires var vec := x.tl.slots(side, x.t)[n - 1].vec;
      forall q :: 0 <= q < x.tl.width ==>
        Read(after, x.LaneCell(side, buf, vec, q)) == Read(v.regs, Stage(side, n - 1, q))
    ensures var vec := x.tl.slots(side, x.t)[n - 1].vec;
      forall q :: 0 <= q < x.tl.width ==>
        Read(after, x.LaneCell(side, buf, vec, q)) == Read(v.mem, x.LaneSource(side, bk, vec, q))
  {
    var slot := n - 1;
    var vec := x.tl.slots(side, x.t)[slot].vec;
    forall q | 0 <= q < x.tl.width
      ensures Read(v.regs, Stage(side, slot, q)) == Read(v.mem, x.LaneSource(side, bk, vec, q))
    {}
  }

  lemma {:induction false} StagedVecsIn(x: Ctx, side: Side, bk: int, n: nat, v: Vec)
    requires x.Ok() && n <= |x.tl.slots(side, x.t)|
    ensures v in StagedVecs(x, side, bk, n) <==>
            bk < x.p.K && Guard(x, side, bk, v) && Slot(v, true) in x.tl.slots(side, x.t)[..n]
  {
    if n > 0 {
      StagedVecsIn(x, side, bk, n - 1, v);
      assert x.tl.slots(side, x.t)[..n] == x.tl.slots(side, x.t)[..n - 1] + [x.tl.slots(side, x.t)[n - 1]];
    }
  }

  /** The slots commit exactly the positions the prologue's strided loop would copy. */
  lemma StagedAsCopied(x: Ctx, side: Side, bk: int, k: int, xx: int)
    requires x.Ok() && x.tl.Stages() && InLaunch(x) && bk < x.p.K
    ensures CopiedAt(x, side, bk, StagedVecs(x, side, bk, |x.tl.slots(side, x.t)|), k, xx) <==>
            CopiedAt(x, side, bk, x.tl.vecs(side, x.t), k, xx)
  {
    var n := |x.tl.slots(side, x.t)|;
    assert x.tl.slots(side, x.t)[..n] == x.tl.slots(side, x.t);
    forall v
      ensures v in StagedVecs(x, side, bk, n) <==> Guard(x, side, bk, v) && v in x.tl.vecs(side, x.t)
    {
      StagedVecsIn(x, side, bk, n, v);
    }
  }

  lemma {:induction false} CommitWrites(x: Ctx, side: Side, buf: int, bk: int, n: nat, k: int, xx: int)
    requires x.Ok() && n <= |x.tl.slots(side, x.t)|
    requires CopiedAt(x, side, bk, StagedVecs(x, side, bk, n), k, xx)
    ensures x.TileCell(side, buf, k, xx) in Writes(CommitCode(x, side, buf, bk, n))
  {
    var slot := x.tl.slots(side, x.t)[n - 1];
    var init := StagedVecs(x, side, bk, n - 1);
    var p := CommitCode(x, side, buf, bk, n - 1);
    if CopiedAt(x, side, bk, init, k, xx) {
      CommitWrites(x, side, buf, bk, n - 1, k, xx);
      WritesLeft(p, CommitCode(x, side, buf, bk, n)[|p|..], x.TileCell(side, buf, k, xx));
      assert CommitCode(x, side, buf, bk, n) == p + CommitCode(x, side, buf, bk, n)[|p|..];
    } else {
      CopiedAtSnoc(x, side, bk, init, slot.vec, k, xx);
      var v, q :| v in [slot.vec] && Guard(x, side, bk, v) && 0 <= q < x.tl.width && k == x.LaneK(side, v, q)
        && xx == x.LaneX(side, v, q);
      LaneStoresAt(x, side, buf, slot.vec, n - 1, x.tl.width, q);
      WritesRight(p, LaneStores(x, side, buf, slot.vec, n - 1, x.tl.width), x.LaneCell(side, buf, slot.vec, q));
    }
  }

  // ----- consuming a tile

  /** The product that tile position k contributes to accumulator n. */
  function Product(x: Ctx, buf: int, k: int, n: int, mem: Mem): Elem
    requires x.Ok()
  {
    x.p.o.mul(Read(mem, x.TileCell(A, buf, k, x.tl.RowOf(x.t, n))),
        Read(mem, x.TileCell(B, buf, k, x.tl.ColOf(x.t, n))))
  }

  function TileFold(x: Ctx, buf: int, m: int, mem: Mem, acc: Elem, n: nat): Elem
    requires x.Ok()
  {
    if n == 0 then acc else x.p.o.add(TileFold(x, buf, m, mem, acc, n - 1), Product(x, buf, n - 1, m, mem))
  }

  ghost predicate FragsHold(x: Ctx, side: Side, buf: int, k: int, n: nat, mem: Mem, regs: Regs) {
    forall i :: 0 <= i < n ==> Read(regs, Frag(side, i)) == Read(mem, FragLoad(x, side, buf, k, i).src)
  }

  /** The first n fragments are loaded, and nothing else changed. */
  ghost predicate Fragged(x: Ctx, side: Side, buf: int, k: int, n: nat, v: View, w: View) {
    && w.mem == v.mem
    && FragsHold(x, side, buf, k, n, v.mem, w.regs)
    && (forall r: Reg :: !(r.Frag? && r.side == side) ==> Read(w.regs, r) == Read(v.regs, r))
  }

  lemma FraggedNone(x: Ctx, side: Side, buf: int, k: int, v: View)
    ensures Fragged(x, side, buf, k, 0, v, v)
  {}

  lemma FraggedSnoc(x: Ctx, side: Side, buf: int, k: int, n: nat, v: View, u: View)
    requires Fragged(x, side, buf, k, n, v, u)
    ensures Fragged(x, side, buf, k, n + 1, v, Do(x.p.o, FragLoad(x, side, buf, k, n), u))
  {
    hide Ctx.TileCell;
  }

  lemma {:induction false} FragEval(x: Ctx, side: Side, buf: int, k: int, n: nat, v: View)
    ensures Fragged(x, side, buf, k, n, v, Solo(x.p.o, FragCode(x, side, buf, k, n), v))
  {
    hide Solo, Fragged, FragLoad, Do;
    if n == 0 {
      SoloNone(x.p.o, v);
      FraggedNone(x, side, buf, k, v);
    } else {
      FragEval(x, side, buf, k, n - 1, v);
      SoloSnoc(x.p.o, FragCode(x, side, buf, k, n - 1), FragLoad(x, side, buf, k, n - 1), v);
      FraggedSnoc(x, side, buf, k, n - 1, v, Solo(x.p.o, FragCode(x, side, buf, k, n - 1), v));
    }
  }

  lemma FmaEval(x: Ctx, n: int, v: View)
    requires x.Ok()
    ensures var w := Solo(x.p.o, Fma(x, n), v);
      && w.mem == v.mem
      && Read(w.regs, Acc(n)) ==
        x.p.o.add(Read(v.regs, Acc(n)),
            x.p.o.mul(Read(v.regs, Frag(A, n / x.tl.cols)), Read(v.regs, Frag(B, n % x.tl.cols))))
      && (forall r: Reg :: r != Acc(n) && r != Tmp ==> Read(w.regs, r) == Read(v.regs, r))
  {
    var f := Fma(x, n);
    SoloSnoc(x.p.o, [f[0]], f[1], v);
    SoloSnoc(x.p.o, [], f[0], v);
    assert [] + [f[0]] == [f[0]];
  }

  ghost predicate Advanced(x: Ctx, buf: int, k: int, n: nat, v: View, w: View)
    requires x.Ok()
  {
    && w.mem == v.mem
    && (forall m :: 0 <= m < n ==>
      Read(w.regs, Acc(m)) == x.p.o.add(Read(v.regs, Acc(m)), Product(x, buf, k, m, v.mem)))
    && (forall m :: !(0 <= m < n) ==> Read(w.regs, Acc(m)) == Read(v.regs, Acc(m)))
    && (forall r: Reg :: r.Stage? ==> Read(w.regs, r) == Read(v.regs, r))
  }

  lemma AdvancedSnoc(x: Ctx, buf: int, k: int, n: nat, v: View, u: View, w: View)
    requires x.Ok() && n > 0 && Advanced(x, buf, k, n - 1, v, u) && w.mem == u.mem
    requires Read(w.regs, Acc(n - 1)) == x.p.o.add(Read(u.regs, Acc(n - 1)), Product(x, buf, k, n - 1, v.mem))
    requires forall r: Reg :: r != Acc(n - 1) && r != Tmp && !r.Frag? ==> Read(w.regs, r) == Read(u.regs, r)
    ensures Advanced(x, buf, k, n, v, w)
  {}

  lemma {:induction false} FmaCodeEval(x: Ctx, buf: int, k: int, n: nat, v: View)
    requires x.Ok() && n <= x.tl.Size()
    requires FragsHold(x, A, buf, k, x.tl.rows, v.mem, v.regs) && FragsHold(x, B, buf, k, x.tl.cols, v.mem, v.regs)
    ensures AdvancedFrom(x, buf, k, n, v, Solo(x.p.o, FmaCode(x, n), v))
  {
    hide Solo, AdvancedFrom, Fma;
    if n == 0 {
      AdvancedNone(x, buf, k, v);
    } else {
      FmaCodeEval(x, buf, k, n - 1, v);
      var p, q := FmaCode(x, n - 1), Fma(x, n - 1);
      var u := Solo(x.p.o, p, v);
      SoloConcat(x.p.o, p, q, v);
      FmaEval(x, n - 1, u);
      FmaStep(x, buf, k, n, v, u, Solo(x.p.o, q, u));
    }
  }

  ghost predicate AdvancedFrom(x: Ctx, buf: int, k: int, n: nat, v: View, w: View)
    requires x.Ok()
  {
    Advanced(x, buf, k, n, v, w) && forall r: Reg :: r.Frag? ==> Read(w.regs, r) == Read(v.regs, r)
  }

  lemma AdvancedNone(x: Ctx, buf: int, k: int, v: View)
    requires x.Ok()
    ensures AdvancedFrom(x, buf, k, 0, v, Solo(x.p.o, [], v))
  {}

  lemma FmaStep(x: Ctx, buf: int, k: int, n: nat, v: View, u: View, w: View)
    requires x.Ok() && 0 < n <= x.tl.Size() && AdvancedFrom(x, buf, k, n - 1, v, u)
    requires FragsHold(x, A, buf, k, x.tl.rows, v.mem, v.regs) && FragsHold(x, B, buf, k, x.tl.cols, v.mem, v.regs)
    requires w.mem == u.mem
    requires Read(w.regs, Acc(n - 1)) ==
             x.p.o.add(Read(u.regs, Acc(n - 1)),
                 x.p.o.mul(Read(u.regs, Frag(A, (n - 1) / x.tl.cols)), Read(u.regs, Frag(B, (n - 1) % x.tl.cols))))
    requires forall r: Reg :: r != Acc(n - 1) && r != Tmp ==> Read(w.regs, r) == Read(u.regs, r)
    ensures AdvancedFrom(x, buf, k, n, v, w)
  {
    DivBounds(n - 1, x.tl.rows, x.tl.cols);
    var i, j := (n - 1) / x.tl.cols, (n - 1) % x.tl.cols;
    assert Read(u.regs, Frag(A, i)) == Read(v.mem, FragLoad(x, A, buf, k, i).src);
    assert Read(u.regs, Frag(B, j)) == Read(v.mem, FragLoad(x, B, buf, k, j).src);
    AdvancedSnoc(x, buf, k, n, v, u, w);
  }

  lemma {:induction false} RowwiseEval(x: Ctx, buf: int, k: int, n: nat, v: View)
    requires x.Ok() && x.tl.cols == 1 && n <= x.tl.rows
    requires FragsHold(x, B, buf, k, 1, v.mem, v.regs)
    ensures RowwiseFrom(x, buf, k, n, v, Solo(x.p.o, RowwiseCode(x, buf, k, n), v))
  {
    hide Solo, RowwiseFrom, Fma, FragLoad;
    if n == 0 {
      RowwiseNone(x, buf, k, v);
    } else {
      RowwiseEval(x, buf, k, n - 1, v);
      var p := RowwiseCode(x, buf, k, n - 1);
      var u := Solo(x.p.o, p, v);
      var ld := FragLoad(x, A, buf, k, n - 1);
      SoloConcat(x.p.o, p, [ld] + Fma(x, n - 1), v);
      SoloConcat(x.p.o, [ld], Fma(x, n - 1), u);
      SoloSnoc(x.p.o, [], ld, u);
      SoloNone(x.p.o, u);
      assert [] + [ld] == [ld];
      FmaEval(x, n - 1, Solo(x.p.o, [ld], u));
      RowwiseStep(x, buf, k, n, v, u, Solo(x.p.o, Fma(x, n - 1), Solo(x.p.o, [ld], u)));
    }
  }

  ghost predicate RowwiseFrom(x: Ctx, buf: int, k: int, n: nat, v: View, w: View)
    requires x.Ok()
  {
    Advanced(x, buf, k, n, v, w) && forall r: Reg :: r.Frag? && r.side == B ==> Read(w.regs, r) == Read(v.regs, r)
  }

  lemma RowwiseNone(x: Ctx, buf: int, k: int, v: View)
    requires x.Ok()
    ensures RowwiseFrom(x, buf, k, 0, v, Solo(x.p.o, [], v))
  {}

  lemma RowwiseStep(x: Ctx, buf: int, k: int, n: nat, v: View, u: View, w: View)
    requires x.Ok() && x.tl.cols == 1 && 0 < n <= x.tl.rows && RowwiseFrom(x, buf, k, n - 1, v, u)
    requires FragsHold(x, B, buf, k, 1, v.mem, v.regs)
    requires var u1 := Do(x.p.o, FragLoad(x, A, buf, k, n - 1), u);
      && w.mem == u1.mem
      && Read(w.regs, Acc(n - 1)) ==
           x.p.o.add(Read(u1.regs, Acc(n - 1)),
               x.p.o.mul(Read(u1.regs, Frag(A, (n - 1) / x.tl.cols)), Read(u1.regs, Frag(B, (n - 1) % x.tl.cols))))
      && (forall r: Reg :: r != Acc(n - 1) && r != Tmp ==> Read(w.regs, r) == Read(u1.regs, r))
    ensures RowwiseFrom(x, buf, k, n, v, w)
  {
    assert (n - 1) / 1 == n - 1 && (n - 1) % 1 == 0;
    assert Read(u.regs, Frag(B, 0)) == Read(v.mem, FragLoad(x, B, buf, k, 0).src);
    AdvancedSnoc(x, buf, k, n, v, u, w);
  }

  lemma InnerEval(x: Ctx, buf: int, k: int, v: View)
    requires x.Ok() && (x.tl.rowwise ==> x.tl.cols == 1)
    ensures Advanced(x, buf, k, x.tl.Size(), v, Solo(x.p.o, InnerCode(x, buf, k), v))
  {
    hide Solo, FragCode, FmaCode, RowwiseCode, FragLoad;
    if x.tl.rowwise {
      var b := FragCode(x, B, buf, k, 1);
      SoloConcat(x.p.o, b, RowwiseCode(x, buf, k, x.tl.rows), v);
      FragEval(x, B, buf, k, 1, v);
      RowwiseEval(x, buf, k, x.tl.rows, Solo(x.p.o, b, v));
    } else {
      var a, b, f := FragCode(x, A, buf, k, x.tl.rows), FragCode(x, B, buf, k, x.tl.cols), FmaCode(x, x.tl.Size());
      SoloConcat(x.p.o, a + b, f, v);
      SoloConcat(x.p.o, a, b, v);
      FragEval(x, A, buf, k, x.tl.rows, v);
      FragEval(x, B, buf, k, x.tl.cols, Solo(x.p.o, a, v));
      FmaCodeEval(x, buf, k, x.tl.Size(), Solo(x.p.o, a + b, v));
    }
  }

  ghost predicate Consumed(x: Ctx, buf: int, n: nat, v: View, w: View)
    requires x.Ok()
  {
    && w.mem == v.mem
    && (forall m :: 0 <= m < x.tl.Size() ==>
      Read(w.regs, Acc(m)) == TileFold(x, buf, m, v.mem, Read(v.regs, Acc(m)), n))
    && (forall r: Reg :: r.Stage? ==> Read(w.regs, r) == Read(v.regs, r))
  }

  lemma ConsumedSnoc(x: Ctx, buf: int, n: nat, v: View, u: View, w: View)
    requires x.Ok() && n > 0 && Consumed(x, buf, n - 1, v, u) && Advanced(x, buf, n - 1, x.tl.Size(), u, w)
    ensures Consumed(x, buf, n, v, w)
  {}

  lemma {:induction false} TileEval(x: Ctx, buf: int, n: nat, v: View)
    requires x.Ok() && (x.tl.rowwise ==> x.tl.cols == 1)
    ensures Consumed(x, buf, n, v, Solo(x.p.o, TileCode(x, buf, n), v))
  {
    hide InnerCode, Solo, Advanced, Consumed;
    if n == 0 {
      ConsumedNone(x, buf, v);
    } else {
      TileEval(x, buf, n - 1, v);
      var p, q := TileCode(x, buf, n - 1), InnerCode(x, buf, n - 1);
      var u := Solo(x.p.o, p, v);
      SoloConcat(x.p.o, p, q, v);
      InnerEval(x, buf, n - 1, u);
      ConsumedSnoc(x, buf, n, v, u, Solo(x.p.o, q, u));
    }
  }

  lemma ConsumedNone(x: Ctx, buf: int, v: View)
    requires x.Ok()
    ensures Consumed(x, buf, 0, v, Solo(x.p.o, [], v))
  {}

  // ----- storing C

  predicate Stored(x: Ctx, n: int)
    requires x.Ok()
  {
    x.GRow(n) < x.p.M && x.GCol(n) < x.p.N
  }

  lemma StoreAtEval(x: Ctx, n: int, v: View)
    requires x.Ok() && Stored(x, n)
    ensures var w := Solo(x.p.o, StoreAt(x, n), v);
      && Read(w.mem, GC(x.GRow(n), x.GCol(n))) == Epilogue(x.p, v.mem, x.GCol(n), Read(v.regs, Acc(n)))
      && (forall c :: c != GC(x.GRow(n), x.GCol(n)) ==> Read(w.mem, c) == Read(v.mem, c))
      && (forall m :: Read(w.regs, Acc(m)) == Read(v.regs, Acc(m)))
  {
    hide Solo;
    var o, c := x.p.o, GC(x.GRow(n), x.GCol(n));
    var out := if x.p.bias || x.p.relu then Out else Acc(n);
    var b := if x.p.bias then [Load(Tmp, Bias(x.GCol(n))), Add(Out, Acc(n), Tmp)] else [];
    var r := if x.p.relu then [Const(Zero, o.zero), Max(Out, if x.p.bias then Out else Acc(n), Zero)] else [];
    SoloConcat(o, b + r, [Store(c, out)], v);
    SoloConcat(o, b, r, v);
    var u := Solo(o, b, v);
    if x.p.bias { TwoSteps(o, b, v); } else { SoloNone(o, v); }
    var w := Solo(o, r, u);
    if x.p.relu { TwoSteps(o, r, u); } else { SoloNone(o, u); }
    SoloSnoc(o, [], Store(c, out), w);
    SoloNone(o, w);
    assert [] + [Store(c, out)] == [Store(c, out)];
    assert w.mem == v.mem && Read(w.regs, out) == Epilogue(x.p, v.mem, x.GCol(n), Read(v.regs, Acc(n)));
  }

  lemma TwoSteps(o: Arith, p: seq<Instr>, v: View)
    requires |p| == 2
    ensures Solo(o, p, v) == Do(o, p[1], Do(o, p[0], v))
  {
    assert p == ([] + [p[0]]) + [p[1]];
    SoloSnoc(o, [] + [p[0]], p[1], v);
    SoloSnoc(o, [], p[0], v);
  }

  ghost predicate StoredUpTo(x: Ctx, n: nat, v: View, w: View)
    requires x.Ok()
  {
    && (forall m :: 0 <= m < n && Stored(x, m) ==>
          Read(w.mem, GC(x.GRow(m), x.GCol(m))) == Epilogue(x.p, v.mem, x.GCol(m), Read(v.regs, Acc(m))))
    && (forall c: Cell :: !c.GC? ==> Read(w.mem, c) == Read(v.mem, c))
    && (forall m :: Read(w.regs, Acc(m)) == Read(v.regs, Acc(m)))
  }

  lemma DistinctPlaces(x: Ctx, m: nat, n: nat)
    requires x.Ok() && x.tl.Owns() && InLaunch(x) && m < n < x.tl.Size()
    ensures GC(x.GRow(m), x.GCol(m)) != GC(x.GRow(n), x.GCol(n))
  {
    assert x.tl.InThread(x.t, m) && x.tl.InThread(x.t, n);
  }

  lemma StoredSnoc(x: Ctx, n: nat, v: View, u: View, w: View)
    requires x.Ok() && x.tl.Owns() && InLaunch(x) && 0 < n <= x.tl.Size() && StoredUpTo(x, n - 1, v, u)
      && Stored(x, n - 1)
    requires Read(w.mem, GC(x.GRow(n - 1), x.GCol(n - 1))) ==
      Epilogue(x.p, u.mem, x.GCol(n - 1), Read(u.regs, Acc(n - 1)))
    requires forall c :: c != GC(x.GRow(n - 1), x.GCol(n - 1)) ==> Read(w.mem, c) == Read(u.mem, c)
    requires forall m :: Read(w.regs, Acc(m)) == Read(u.regs, Acc(m))
    ensures StoredUpTo(x, n, v, w)
  {
    forall m | 0 <= m < n && Stored(x, m)
      ensures Read(w.mem, GC(x.GRow(m), x.GCol(m))) == Epilogue(x.p, v.mem, x.GCol(m), Read(v.regs, Acc(m)))
    {
      if m < n - 1 { DistinctPlaces(x, m, n - 1); }
    }
  }

  lemma {:induction false} StoreEval(x: Ctx, n: nat, v: View)
    requires x.Ok() && x.tl.Owns() && InLaunch(x) && n <= x.tl.Size()
    ensures StoredUpTo(x, n, v, Solo(x.p.o, StoreCode(x, n), v))
  {
    hide Solo, StoredUpTo, StoreAt, Epilogue;
    if n == 0 {
      StoredNone(x, v);
    } else {
      StoreEval(x, n - 1, v);
      var p, q := StoreCode(x, n - 1), StoreAt(x, n - 1);
      var u := Solo(x.p.o, p, v);
      SoloConcat(x.p.o, p, q, v);
      if Stored(x, n - 1) {
        StoreAtEval(x, n - 1, u);
        StoredSnoc(x, n, v, u, Solo(x.p.o, q, u));
      } else {
        StoredSkip(x, n, v, u);
      }
    }
  }

  lemma StoredNone(x: Ctx, v: View)
    requires x.Ok()
    ensures StoredUpTo(x, 0, v, Solo(x.p.o, [], v))
  {}

  lemma StoredSkip(x: Ctx, n: nat, v: View, u: View)
    requires x.Ok() && n > 0 && StoredUpTo(x, n - 1, v, u) && !Stored(x, n - 1)
    ensures StoredUpTo(x, n, v, Solo(x.p.o, StoreAt(x, n - 1), u))
  {}

  lemma {:induction false} StoreWrites(x: Ctx, n: nat, m: nat)
    requires x.Ok() && m < n && Stored(x, m)
    ensures GC(x.GRow(m), x.GCol(m)) in Writes(StoreCode(x, n))
  {
    if m < n - 1 {
      StoreWrites(x, n - 1, m);
      WritesLeft(StoreCode(x, n - 1), StoreAt(x, n - 1), GC(x.GRow(m), x.GCol(m)));
    } else {
      var s := StoreAt(x, m);
      assert s[|s| - 1].Store? && s[|s| - 1].cell == GC(x.GRow(m), x.GCol(m));
      WritesRight(StoreCode(x, n - 1), s, GC(x.GRow(m), x.GCol(m)));
    }
  }
}
