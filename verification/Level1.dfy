/** Level 1: the GEMM as three nested CPU loops over buffers. */
module LevelOne {
  import opened Elements
  import opened Machine
  import opened GemmSpec

  /** The global memory three matrices and a bias vector stand for. */
  function MemOf(A: array2<Elem>, B: array2<Elem>, C: array2<Elem>, bias: array<Elem>): (mem: Mem)
    reads A, B, C, bias
  {
    (map i: int, j: int | 0 <= i < A.Length0 && 0 <= j < A.Length1 :: GA(i, j) := A[i, j]) +
    (map i: int, j: int | 0 <= i < B.Length0 && 0 <= j < B.Length1 :: GB(i, j) := B[i, j]) +
    (map i: int, j: int | 0 <= i < C.Length0 && 0 <= j < C.Length1 :: GC(i, j) := C[i, j]) +
    (map j: int | 0 <= j < bias.Length :: Bias(j) := bias[j])
  }

  function CellOf(A: array2<Elem>, B: array2<Elem>, C: array2<Elem>, bias: array<Elem>, c: Cell): Elem
    reads A, B, C, bias
  {
    match c
    case GA(i, j) => if 0 <= i < A.Length0 && 0 <= j < A.Length1 then A[i, j] else Elem(0)
    case GB(i, j) => if 0 <= i < B.Length0 && 0 <= j < B.Length1 then B[i, j] else Elem(0)
    case GC(i, j) => if 0 <= i < C.Length0 && 0 <= j < C.Length1 then C[i, j] else Elem(0)
    case Bias(j) => if 0 <= j < bias.Length then bias[j] else Elem(0)
    case _ => Elem(0)
  }

  lemma MemOfReads(A: array2<Elem>, B: array2<Elem>, C: array2<Elem>, bias: array<Elem>)
    ensures forall c :: Read(MemOf(A, B, C, bias), c) == CellOf(A, B, C, bias, c)
  {}

  predicate Conform(p: Problem, A: array2<Elem>, B: array2<Elem>, C: array2<Elem>, bias: array<Elem>) {
    && A.Length0 == p.M && A.Length1 == p.K && B.Length0 == p.K && B.Length1 == p.N
    && C.Length0 == p.M && C.Length1 == p.N && (p.bias ==> bias.Length == p.N)
  }

  /** Rows before i, and the first j elements of row i, are done; the rest of C is as it was. */
  ghost predicate DoneUpTo(p: Problem, mem: Mem, C: array2<Elem>, i: nat, j: nat)
    requires C.Length0 == p.M && C.Length1 == p.N
    reads C
  {
    forall r, c :: 0 <= r < p.M && 0 <= c < p.N ==>
      C[r, c] == if r < i || (r == i && c < j) then Gemm(p, mem, r, c) else Read(mem, GC(r, c))
  }

  method Level1(p: Problem, A: array2<Elem>, B: array2<Elem>, C: array2<Elem>, bias: array<Elem>)
    requires Conform(p, A, B, C, bias) && C != A && C != B
    modifies C
    ensures IsGemmOf(p, old(MemOf(A, B, C, bias)), MemOf(A, B, C, bias))
  {
    hide MemOf, Dot, Epilogue, IsGemmOf, Gemm;
    ghost var mem := MemOf(A, B, C, bias);
    MemOfReads(A, B, C, bias);
    assert forall c: Cell :: Read(mem, c) == old(CellOf(A, B, C, bias, c));
    for i := 0 to p.M
      invariant DoneUpTo(p, mem, C, i, 0)
    {
      for j := 0 to p.N
        invariant DoneUpTo(p, mem, C, i, j)
      {
        var acc := C[i, j];
        DotStart(p, mem, i, j);
        for k := 0 to p.K
          invariant DoneUpTo(p, mem, C, i, j) && acc == Dot(p, mem, i, j, k)
        {
          assert Read(mem, GA(i, k)) == A[i, k] && Read(mem, GB(k, j)) == B[k, j];
          DotNext(p, mem, i, j, k);
          acc := p.o.add(acc, p.o.mul(A[i, k], B[k, j]));
        }
        if p.bias {
          assert Read(mem, Bias(j)) == bias[j];
          acc := p.o.add(acc, bias[j]);
        }
        if p.relu { acc := p.o.max(acc, p.o.zero); }
        GemmIs(p, mem, i, j);
        C[i, j] := acc;
      }
    }
    DoneIsGemm(p, mem, A, B, C, bias);
  }

  /** Once every element of C is done, memory holds the GEMM. */
  lemma DoneIsGemm(p: Problem, mem: Mem, A: array2<Elem>, B: array2<Elem>, C: array2<Elem>, bias: array<Elem>)
    requires Conform(p, A, B, C, bias) && DoneUpTo(p, mem, C, p.M, 0)
    requires forall c: Cell :: !c.GC? || !InC(p, c.r, c.c) ==> Read(mem, c) == CellOf(A, B, C, bias, c)
    ensures IsGemmOf(p, mem, MemOf(A, B, C, bias))
  {
    hide MemOf, Gemm;
    MemOfReads(A, B, C, bias);
  }

  lemma DotStart(p: Problem, mem: Mem, r: int, c: int)
    ensures Dot(p, mem, r, c, 0) == Read(mem, GC(r, c))
  {}

  lemma GemmIs(p: Problem, mem: Mem, r: int, c: int)
    ensures var v := Dot(p, mem, r, c, p.K);
      var w := if p.bias then p.o.add(v, Read(mem, Bias(c))) else v;
      Gemm(p, mem, r, c) == if p.relu then p.o.max(w, p.o.zero) else w
  {}
}
