/** Exactly when recognising a matrix product is right: the matcher looks neither at loop bounds nor
    at whether C stands in the place of A or B. */
module MatMulAliasing {
  import opened LoopIR
  import opened Nests
  import opened Elements
  import opened GemmSpec
  import opened MatMulRecognition
  import M = Machine

  /** Arithmetic that marks what has been read after a change: every product is 1, or 2 when a factor
      is not zero any more, and sums keep the greater mark. */
  function Marking(f: Meaning): Meaning {
    (k: nat, xs: seq<int>) =>
      if k == ADDF && |xs| == 2 then if xs[0] >= xs[1] then xs[0] else xs[1]
      else if k == MULF && |xs| == 2 then if xs[0] == 0 && xs[1] == 0 then 1 else 2
      else f(k, xs)
  }

  lemma MarkingMeaning(f: Meaning)
    ensures AgreeButArithmetic(f, Marking(f)) && Commutes(Marking(f), ADDF) && Commutes(Marking(f), MULF)
  {}

  lemma MarkingAdd(f: Meaning, v: Elem, x: Elem, y: Elem)
    ensures var o := ArithOf(Marking(f));
      o.add(v, o.mul(x, y)).code == if x.code != 0 || y.code != 0 then if v.code >= 2 then v.code else 2
                                    else if v.code >= 1 then v.code else 1
  {}

  /** From a memory of zeros the GEMM marks every element 1. */
  lemma {:induction false} DotMarks(f: Meaning, p: Problem, g: GemmOp, r: int, c: int, n: nat)
    requires p.o == ArithOf(Marking(f))
    ensures Dot(p, Matrices(p, g, map[]), r, c, n).code == if n == 0 then 0 else 1
  {
    MatricesRead(p, g, map[]);
    hide Matrices, ArithOf;
    if n > 0 {
      DotMarks(f, p, g, r, c, n - 1);
      var mem := Matrices(p, g, map[]);
      MarkingAdd(f, Dot(p, mem, r, c, n - 1), Read(mem, M.GA(r, n - 1)), Read(mem, M.GB(n - 1, c)));
    }
  }

  ghost predicate Rises(h: Heap, h': Heap) {
    forall a :: At(h, a) <= At(h', a)
  }

  /** A factor of product (i, j, k) has been marked. */
  predicate Marked(g: GemmOp, h: Heap, i: int, j: int, k: int) {
    At(h, Addr(g.A, [i, k])) >= 1 || At(h, Addr(g.B, [k, j])) >= 1
  }

  /** Marks only grow, and product (i, j, k) leaves its own: 2 when a factor was marked before. */
  ghost predicate Marks(g: GemmOp, i: int, j: int, k: int, h: Heap, h': Heap) {
    var v := At(h', Addr(g.C, [i, j]));
    Rises(h, h') && v >= 1 && (Marked(g, h, i, j, k) ==> v >= 2)
  }

  lemma MarksEarlier(g: GemmOp, i: int, j: int, k: int, h0: Heap, h: Heap, h': Heap)
    requires Rises(h0, h) && Marks(g, i, j, k, h, h')
    ensures Marks(g, i, j, k, h0, h')
  {}

  lemma MarksLater(g: GemmOp, i: int, j: int, k: int, h0: Heap, h: Heap, h': Heap)
    requires Marks(g, i, j, k, h0, h) && Rises(h, h')
    ensures Marks(g, i, j, k, h0, h')
  {}

  lemma RisesTrans(h0: Heap, h: Heap, h': Heap)
    requires Rises(h0, h) && Rises(h, h')
    ensures Rises(h0, h')
  {}

  lemma StepMarks(f: Meaning, x: Nest, s: Parts, p: Problem, t: Extent, env: Env, h: Heap, i: int, j: int, k: int)
    requires Accepted(Marking(f), x, s, p, t) && t.Visits(i, j, k)
    ensures Marks(GemmOf(s), i, j, k, h, Run(Marking(f), x.K().body, EnvK(Marking(f), x, env, i, j, k), h).heap)
  {
    hide Matched, EnvK, Run, Extent.Visits, Area.Visits, Span.Visits;
    assert InC(p, i, j) by { VisitsInside(t, p, i, j, k); }
    assert x.Shaped() by { MatchedShaped(x, s); }
    var g := GemmOf(s);
    BodyStep(Marking(f), x, s, env, h, i, j, k);
    MarkingAdd(f, Elem(At(h, Addr(g.C, [i, j]))), Elem(At(h, Addr(g.A, [i, k]))), Elem(At(h, Addr(g.B, [k, j]))));
  }

  lemma MatchedShaped(x: Nest, s: Parts)
    requires Matched(x, s)
    ensures x.Shaped()
  {}

  lemma VisitsInside(t: Extent, p: Problem, i: int, j: int, k: int)
    requires Inside(t, p) && t.Visits(i, j, k)
    ensures InC(p, i, j) && 0 <= k < p.K
  {}

  // ----- the three loops

  /** The k loop from k on: marks grow, and a depth n still to come leaves its own. */
  lemma {:induction false} LoopKMarks(f: Meaning, x: Nest, s: Parts, p: Problem, t: Extent, env: Env, h: Heap, i: int,
          j: int, k: int, n: int)
    requires x.Shaped() && Accepted(Marking(f), x, s, p, t) && t.area.Visits(i, j) && t.depths(i, j).Reaches(k)
    ensures var d, e := t.depths(i, j), EnvJ(Marking(f), x, env, i, j);
      var h' := Loop(Marking(f), x.K().iv, k, d.hi, d.step, x.K().body, e, h).heap;
      Rises(h, h') && (k <= n && d.Visits(n) ==> Marks(GemmOf(s), i, j, n, h, h'))
    decreases t.depths(i, j).hi - k
  {
    hide Accepted, EnvJ, Run, Rises, Marks, Marking;
    var d, g, e := t.depths(i, j), GemmOf(s), EnvJ(Marking(f), x, env, i, j);
    if d.Over(k) {
      RisesSelf(h);
    } else {
      assert t.Visits(i, j, k);
      var h1 := Run(Marking(f), x.K().body, EnvK(Marking(f), x, env, i, j, k), h).heap;
      StepMarks(f, x, s, p, t, env, h, i, j, k);
      MarksRise(g, i, j, k, h, h1);
      NextVisit(d, k);
      LoopKMarks(f, x, s, p, t, env, h1, i, j, k + d.step, n);
      var h' := Loop(Marking(f), x.K().iv, k, d.hi, d.step, x.K().body, e, h).heap;
      RisesTrans(h, h1, h');
      if k == n {
        MarksLater(g, i, j, n, h, h1, h');
      } else if k < n && d.Visits(n) {
        MarksEarlier(g, i, j, n, h, h1, h');
      }
    }
  }

  lemma RisesSelf(h: Heap)
    ensures Rises(h, h)
  {}

  lemma MarksRise(g: GemmOp, i: int, j: int, k: int, h: Heap, h': Heap)
    requires Marks(g, i, j, k, h, h')
    ensures Rises(h, h')
  {}

  /** One element: its whole k loop. */
  lemma ElementMarks(f: Meaning, x: Nest, s: Parts, p: Problem, t: Extent, env: Env, h: Heap, i: int, j: int, n: int)
    requires x.Shaped() && Accepted(Marking(f), x, s, p, t) && Ranges(Marking(f), x, env, t) && t.area.Visits(i, j)
    ensures var h' := Run(Marking(f), x.J().body, EnvI(Marking(f), x, env, i)[x.J().iv := j], h).heap;
      Rises(h, h') && (t.depths(i, j).Visits(n) ==> Marks(GemmOf(s), i, j, n, h, h'))
  {
    hide Accepted, EnvI, EnvJ, Run, Loop, Rises, Marks, Marking, Ranges;
    InnerRuns(Marking(f), x, t, env, i, j, h);
    LoopKMarks(f, x, s, p, t, env, h, i, j, t.depths(i, j).lo, n);
  }

  /** The j loop from j on, and an element (i, c) still to come. */
  lemma {:induction false} LoopJMarks(f: Meaning, x: Nest, s: Parts, p: Problem, t: Extent, env: Env, h: Heap, i: int,
          j: int, c: int, n: int)
    requires x.Shaped() && Accepted(Marking(f), x, s, p, t) && Ranges(Marking(f), x, env, t)
    requires t.area.rows.Visits(i) && t.area.cols(i).Reaches(j)
    ensures var d, e := t.area.cols(i), EnvI(Marking(f), x, env, i);
      var h' := Loop(Marking(f), x.J().iv, j, d.hi, d.step, x.J().body, e, h).heap;
      Rises(h, h') && (j <= c && t.Visits(i, c, n) ==> Marks(GemmOf(s), i, c, n, h, h'))
    decreases t.area.cols(i).hi - j
  {
    hide Accepted, EnvI, Run, Rises, Marks, Marking, Ranges;
    var d, g, e := t.area.cols(i), GemmOf(s), EnvI(Marking(f), x, env, i);
    if d.Over(j) {
      RisesSelf(h);
    } else {
      var h1 := Run(Marking(f), x.J().body, e[x.J().iv := j], h).heap;
      ElementMarks(f, x, s, p, t, env, h, i, j, n);
      NextVisit(d, j);
      LoopJMarks(f, x, s, p, t, env, h1, i, j + d.step, c, n);
      var h' := Loop(Marking(f), x.J().iv, j, d.hi, d.step, x.J().body, e, h).heap;
      RisesTrans(h, h1, h');
      if j == c && t.Visits(i, c, n) {
        MarksLater(g, i, c, n, h, h1, h');
      } else if j < c && t.Visits(i, c, n) {
        MarksEarlier(g, i, c, n, h, h1, h');
      }
    }
  }

  /** One row. */
  lemma RowMarks(f: Meaning, x: Nest, s: Parts, p: Problem, t: Extent, env: Env, h: Heap, i: int, c: int, n: int)
    requires x.Shaped() && Accepted(Marking(f), x, s, p, t) && Ranges(Marking(f), x, env, t) && t.area.rows.Visits(i)
    ensures var h' := Run(Marking(f), x.l.body, env[x.l.iv := i], h).heap;
      Rises(h, h') && (t.Visits(i, c, n) ==> Marks(GemmOf(s), i, c, n, h, h'))
  {
    hide Accepted, EnvI, Run, Loop, Rises, Marks, Marking, Ranges;
    OuterRuns(Marking(f), x, t, env, i, h);
    LoopJMarks(f, x, s, p, t, env, h, i, t.area.cols(i).lo, c, n);
  }

  /** The i loop from i on, and an element (r, c) still to come. */
  lemma {:induction false} LoopIMarks(f: Meaning, x: Nest, s: Parts, p: Problem, t: Extent, env: Env, h: Heap, i: int,
          r: int, c: int, n: int)
    requires x.Shaped() && Accepted(Marking(f), x, s, p, t) && Ranges(Marking(f), x, env, t) && t.area.rows.Reaches(i)
    ensures var d := t.area.rows;
      var h' := Loop(Marking(f), x.l.iv, i, d.hi, d.step, x.l.body, env, h).heap;
      Rises(h, h') && (i <= r && t.Visits(r, c, n) ==> Marks(GemmOf(s), r, c, n, h, h'))
    decreases t.area.rows.hi - i
  {
    hide Accepted, Run, Rises, Marks, Marking, Ranges;
    var d, g := t.area.rows, GemmOf(s);
    if d.Over(i) {
      RisesSelf(h);
    } else {
      var h1 := Run(Marking(f), x.l.body, env[x.l.iv := i], h).heap;
      RowMarks(f, x, s, p, t, env, h, i, c, n);
      NextVisit(d, i);
      LoopIMarks(f, x, s, p, t, env, h1, i + d.step, r, c, n);
      var h' := Loop(Marking(f), x.l.iv, i, d.hi, d.step, x.l.body, env, h).heap;
      RisesTrans(h, h1, h');
      if i == r && t.Visits(r, c, n) {
        MarksLater(g, r, c, n, h, h1, h');
      } else if i < r && t.Visits(r, c, n) {
        MarksEarlier(g, r, c, n, h, h1, h');
      }
    }
  }

  // ----- an element read after its change

  /** C[0, 1] reads C[0, 0] in the place of A[0, 0]. */
  lemma RowPair(f: Meaning, x: Nest, s: Parts, p: Problem, t: Extent, env: Env, h: Heap)
    requires x.Shaped() && Accepted(Marking(f), x, s, p, t) && Ranges(Marking(f), x, env, t)
    requires GemmOf(s).A == GemmOf(s).C && t.Visits(0, 0, 0) && t.Visits(0, 1, 0)
    ensures At(Run(Marking(f), x.l.body, env[x.l.iv := 0], h).heap, Addr(GemmOf(s).C, [0, 1])) >= 2
  {
    var d, g, e := t.area.cols(0), GemmOf(s), EnvI(Marking(f), x, env, 0);
    assert d.lo == 0 by {
      assert t.area.Visits(0, d.lo);
      assert InC(p, 0, d.lo);
    }
    hide Accepted, EnvI, Run, Marking, Ranges;
    OuterRuns(Marking(f), x, t, env, 0, h);
    var h1 := Run(Marking(f), x.J().body, e[x.J().iv := 0], h).heap;
    ElementMarks(f, x, s, p, t, env, h, 0, 0, 0);
    assert Marked(g, h1, 0, 1, 0);
    NextVisit(d, 0);
    LoopJMarks(f, x, s, p, t, env, h1, 0, d.step, 1, 0);
  }

  /** The i loop from a row before 0, or 0: some later row reads C[0, 0], or the row itself does. */
  lemma {:induction false} PairMarked(f: Meaning, x: Nest, s: Parts, p: Problem, t: Extent, env: Env, h: Heap, i: int,
          r: int, c: int)
    requires x.Shaped() && Accepted(Marking(f), x, s, p, t) && Ranges(Marking(f), x, env, t) && t.area.rows.Reaches(i)
    requires i <= 0 && t.Visits(0, 0, 0) && t.Visits(r, c, 0)
    requires (r == 0 && c == 1 && GemmOf(s).A == GemmOf(s).C) || (r == 1 && c == 0 && GemmOf(s).B == GemmOf(s).C)
    ensures var d := t.area.rows;
      At(Loop(Marking(f), x.l.iv, i, d.hi, d.step, x.l.body, env, h).heap, Addr(GemmOf(s).C, [r, c])) >= 2
    decreases t.area.rows.hi - i
  {
    hide Accepted, Run, Marking, Ranges, EnvI;
    var d, g := t.area.rows, GemmOf(s);
    assert !d.Over(i);
    var h1 := Run(Marking(f), x.l.body, env[x.l.iv := i], h).heap;
    NextVisit(d, i);
    if i < 0 {
      PairMarked(f, x, s, p, t, env, h1, i + d.step, r, c);
    } else if r == 0 {
      RowPair(f, x, s, p, t, env, h);
      LoopIMarks(f, x, s, p, t, env, h1, i + d.step, 0, 0, 0);
    } else {
      RowMarks(f, x, s, p, t, env, h, 0, 0, 0);
      assert Marked(g, h1, 1, 0, 0);
      LoopIMarks(f, x, s, p, t, env, h1, i + d.step, 1, 0, 0);
    }
  }

  /** A whole nest that reads changed elements reads C[0, 0] in C[0, 1] or in C[1, 0]. */
  lemma StalePair(t: Extent, p: Problem, g: GemmOp) returns (r: int, c: int)
    requires Inside(t, p) && Whole(t, p) && !Fresh(t, g)
    ensures InC(p, r, c) && p.K > 0 && t.Visits(0, 0, 0) && t.Visits(r, c, 0)
    ensures (r == 0 && c == 1 && g.A == g.C) || (r == 1 && c == 0 && g.B == g.C)
  {
    hide Span.Visits, Area.Visits;
    var i, j, k :| t.Visits(i, j, k)
      && !((g.A == g.C ==> Unchanged(t, i, j, k, i, k)) && (g.B == g.C ==> Unchanged(t, i, j, k, k, j)));
    VisitsInside(t, p, i, j, k);
    if g.A == g.C && !Unchanged(t, i, j, k, i, k) {
      r, c := 0, 1;
    } else {
      r, c := 1, 0;
    }
    assert InC(p, 0, 0) && InC(p, r, c);
  }

  /** The nest is its i loop. */
  lemma NestRuns(f: Meaning, x: Nest, t: Extent, env: Env, h: Heap)
    requires x.Shaped() && Ranges(f, x, env, t)
    ensures var d := t.area.rows;
      Run(f, [x.l], env, h).heap == Loop(f, x.l.iv, d.lo, d.hi, d.step, x.l.body, env, h).heap
  {
    RunOne(f, x.l, env, h);
    hide Run, Loop;
  }

  lemma StartsAtZero(t: Extent)
    requires t.area.Visits(0, 0)
    ensures t.area.rows.lo <= 0 && t.area.rows.Reaches(t.area.rows.lo)
  {}

  lemma StaleDiffers(f: Meaning, x: Nest, s: Parts, p: Problem, t: Extent, env: Env)
    requires x.Shaped() && Accepted(Marking(f), x, s, p, t) && Ranges(Marking(f), x, env, t) && !p.bias && !p.relu
    requires Whole(t, p) && !Fresh(t, GemmOf(s))
    ensures !DoesGemm(p, GemmOf(s), map[], Run(Marking(f), [x.l], env, map[]).heap)
  {
    assert Inside(t, p) && p.o == ArithOf(Marking(f));
    hide Accepted, Run, Loop, Ranges, Fresh, Whole, Inside, Marking, Matrices, Dot, Gemm, Area.Visits, Nest.Shaped;
    var g := GemmOf(s);
    var r, c := StalePair(t, p, g);
    StartsAtZero(t);
    PairMarked(f, x, s, p, t, env, map[], t.area.rows.lo, r, c);
    NestRuns(Marking(f), x, t, env, map[]);
    GemmMarks(f, p, g, r, c);
    NotGemmAt(p, g, map[], Run(Marking(f), [x.l], env, map[]).heap, r, c);
  }

  lemma NotGemmAt(p: Problem, g: GemmOp, h: Heap, h': Heap, r: int, c: int)
    requires InC(p, r, c) && At(h', Addr(g.C, [r, c])) != Gemm(p, Matrices(p, g, h), r, c).code
    ensures !DoesGemm(p, g, h, h')
  {
    hide Matrices, Gemm;
    assert IsCellOfC(p, g, Addr(g.C, [r, c]));
  }

  lemma GemmMarks(f: Meaning, p: Problem, g: GemmOp, r: int, c: int)
    requires p.o == ArithOf(Marking(f)) && !p.bias && !p.relu
    ensures Gemm(p, Matrices(p, g, map[]), r, c).code <= 1
  {
    DotMarks(f, p, g, r, c, p.K);
    hide Matrices, Dot, ArithOf;
  }

  /** Recognition, whatever the bounds and whatever memrefs are equal: the nest is the GEMM for every
      arithmetic and memory exactly when it visits every product of every element of C, and no product
      reads an element of C that the nest has changed. */
  lemma RecognitionExact(f: Meaning, x: Nest, s: Parts, p: Problem, env: Env)
    requires x.Shaped() && Accepted(f, x, s, p, ExtentOf(f, x, env)) && !p.bias && !p.relu
    ensures var t := ExtentOf(f, x, env); AlwaysGemm(f, x, s, p, env) <==> Whole(t, p) && Fresh(t, GemmOf(s))
  {
    var t := ExtentOf(f, x, env);
    ExtentRanges(f, x, env);
    hide ExtentOf, Accepted, Ranges, Run, Whole, Fresh, DoesGemm, Marking, AgreeButArithmetic, Commutes;
    if !Whole(t, p) {
      PartIsNotGemm(f, x, s, p, t, env);
    } else if Fresh(t, GemmOf(s)) {
      WholeIsGemm(f, x, s, p, t, env);
    } else {
      MarkingMeaning(f);
      AcceptedMeaning(f, Marking(f), x, s, p, t);
      RangesKept(f, Marking(f), x, s, p, env, t);
      StaleDiffers(f, x, s, p.(o := ArithOf(Marking(f))), t, env);
    }
  }

  lemma RangesKept(f: Meaning, f': Meaning, x: Nest, s: Parts, p: Problem, env: Env, t: Extent)
    requires Accepted(f, x, s, p, t) && Ranges(f, x, env, t) && AgreeButArithmetic(f, f')
    ensures Ranges(f', x, env, t)
  {
    RangesMeaning(f, f', x, env, t);
  }

  /** In terms of sizes: a nest over whole matrices reads changed elements exactly when C stands for A
      and has two columns, or stands for B and has two rows. */
  lemma FreshSizes(t: Extent, p: Problem, g: GemmOp)
    requires Inside(t, p) && Whole(t, p)
    ensures Fresh(t, g) <==>
            p.M == 0 || p.N == 0 || p.K == 0 || ((g.A == g.C ==> p.N == 1) && (g.B == g.C ==> p.M == 1))
  {
    if !Fresh(t, g) {
      var r, c := StalePair(t, p, g);
    } else if p.M > 0 && p.N > 0 && p.K > 0 {
      hide Span.Visits;
      assert p.N > 1 ==> InC(p, 0, 1) && InC(p, 0, 0) && t.Visits(0, 1, 0) && t.Visits(0, 0, 0);
      assert p.M > 1 ==> InC(p, 1, 0) && InC(p, 0, 0) && t.Visits(1, 0, 0) && t.Visits(0, 0, 0);
      assert p.N > 1 && g.A == g.C ==> Unchanged(t, 0, 1, 0, 0, 0);
      assert p.M > 1 && g.B == g.C ==> Unchanged(t, 1, 0, 0, 0, 0);
    }
  }
}
