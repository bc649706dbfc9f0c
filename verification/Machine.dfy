/** Matrix elements and the arithmetic every kernel is parametric in.  Nothing is assumed of
    `add`, `mul` and `max`: not associativity, not commutativity, not rounding. */
module Elements {
  datatype Elem = Elem(code: int)

  datatype Arith = Arith(add: (Elem, Elem) -> Elem, mul: (Elem, Elem) -> Elem,
                         max: (Elem, Elem) -> Elem, zero: Elem)

  function Read<K>(m: map<K, Elem>, k: K): Elem {
    if k in m then m[k] else Elem(0)
  }
}

/** A GPU launch: blocks of threads that run straight-line code between barriers.  Within one
    barrier interval ("phase") the threads of a block, and the blocks of the grid, interleave one
    memory access at a time in any order. */
module Machine {
  import opened Elements

  /** Global operands, and the shared tiles of one block: `SA`/`SB` with a buffer index. */
  datatype Cell =
    | GA(r: int, c: int) | GB(r: int, c: int) | GC(r: int, c: int) | Bias(c: int)
    | SA(block: nat, buf: int, x: int, y: int) | SB(block: nat, buf: int, x: int, y: int)

  datatype Side = A | B

  /** SSA values of one thread: accumulators, tile fragments, staged vectors, temporaries. */
  datatype Reg =
    | Acc(n: int) | Frag(side: Side, i: int) | Stage(side: Side, s: int, q: int)
    | Tmp | Zero | Out

  datatype Instr =
    | Load(dst: Reg, src: Cell) | Store(cell: Cell, val: Reg) | Const(dst: Reg, lit: Elem)
    | Add(dst: Reg, x: Reg, y: Reg) | Mul(dst: Reg, x: Reg, y: Reg) | Max(dst: Reg, x: Reg, y: Reg)

  type Mem = map<Cell, Elem>
  type Regs = map<Reg, Elem>
  datatype View = View(mem: Mem, regs: Regs)

  function Do(o: Arith, ins: Instr, v: View): View {
    match ins
    case Load(d, c) => v.(regs := v.regs[d := Read(v.mem, c)])
    case Store(c, r) => v.(mem := v.mem[c := Read(v.regs, r)])
    case Const(d, e) => v.(regs := v.regs[d := e])
    case Add(d, x, y) => v.(regs := v.regs[d := o.add(Read(v.regs, x), Read(v.regs, y))])
    case Mul(d, x, y) => v.(regs := v.regs[d := o.mul(Read(v.regs, x), Read(v.regs, y))])
    case Max(d, x, y) => v.(regs := v.regs[d := o.max(Read(v.regs, x), Read(v.regs, y))])
  }

  /** One thread running `code` with nobody else writing. */
  function Solo(o: Arith, code: seq<Instr>, v: View): View {
    if code == [] then v else Do(o, code[|code| - 1], Solo(o, code[..|code| - 1], v))
  }

  lemma {:induction false} SoloConcat(o: Arith, p: seq<Instr>, q: seq<Instr>, v: View)
    ensures Solo(o, p + q, v) == Solo(o, q, Solo(o, p, v))
    decreases |q|
  {
    if q == [] {
      assert p + q == p;
    } else {
      var n := |q| - 1;
      assert (p + q)[..|p + q| - 1] == p + q[..n];
      SoloConcat(o, p, q[..n], v);
    }
  }

  function Writes(code: seq<Instr>): set<Cell> {
    set n | 0 <= n < |code| && code[n].Store? :: code[n].cell
  }

  function Touches(code: seq<Instr>): set<Cell> {
    Writes(code) + set n | 0 <= n < |code| && code[n].Load? :: code[n].src
  }

  lemma {:induction false} SoloFrame(o: Arith, code: seq<Instr>, v: View, c: Cell)
    requires c !in Writes(code)
    ensures Read(Solo(o, code, v).mem, c) == Read(v.mem, c)
  {
    if code != [] {
      var n := |code| - 1;
      assert forall m :: 0 <= m < n ==> code[..n][m] == code[m];
      assert c !in Writes(code[..n]);
      SoloFrame(o, code[..n], v, c);
    }
  }

  // ----- kernels, states, moves

  datatype Kernel = Kernel(blocks: nat, threads: nat, phases: nat, code: (nat, nat, nat) -> seq<Instr>)

  datatype ThreadState = ThreadState(pos: nat, regs: Regs)
  datatype BlockState = BlockState(phase: nat, threads: seq<ThreadState>)
  datatype State = State(mem: Mem, blocks: seq<BlockState>)

  /** One thread executes one instruction, or one block passes a barrier. */
  datatype Move = Step(b: nat, t: nat) | Barrier(b: nat)

  predicate Shaped(k: Kernel, s: State) {
    && |s.blocks| == k.blocks
    && forall b :: 0 <= b < k.blocks ==> |s.blocks[b].threads| == k.threads && s.blocks[b].phase <= k.phases
  }

  function Initial(k: Kernel, mem: Mem): (s: State)
    ensures Shaped(k, s)
  {
    State(mem, seq(k.blocks, _ => BlockState(0, seq(k.threads, _ => ThreadState(0, map[])))))
  }

  predicate Enabled(k: Kernel, s: State, m: Move)
    requires Shaped(k, s)
  {
    && m.b < k.blocks
    && s.blocks[m.b].phase < k.phases
    && match m
       case Step(b, t) =>
         && t < k.threads
         && s.blocks[b].threads[t].pos < |k.code(b, t, s.blocks[b].phase)|
       case Barrier(b) =>
         forall t :: 0 <= t < k.threads ==>
           s.blocks[b].threads[t].pos == |k.code(b, t, s.blocks[b].phase)|
  }

  function Next(k: Kernel, o: Arith, s: State, m: Move): (s': State)
    requires Shaped(k, s) && Enabled(k, s, m)
    ensures Shaped(k, s')
  {
    match m
    case Step(b, t) =>
      var B := s.blocks[b];
      var th := B.threads[t];
      var v := Do(o, k.code(b, t, B.phase)[th.pos], View(s.mem, th.regs));
      State(v.mem, s.blocks[b := B.(threads := B.threads[t := ThreadState(th.pos + 1, v.regs)])])
    case Barrier(b) =>
      var B := s.blocks[b];
      State(s.mem, s.blocks[b := BlockState(B.phase + 1,
        seq(k.threads, t requires 0 <= t < k.threads => ThreadState(0, B.threads[t].regs)))])
  }

  predicate Done(k: Kernel, s: State)
    requires Shaped(k, s)
  {
    forall b :: 0 <= b < k.blocks ==> s.blocks[b].phase == k.phases
  }

  /** `states` is a run of the launch from `mem`: every interleaving is one. */
  ghost predicate IsRun(k: Kernel, o: Arith, mem: Mem, states: seq<State>, moves: seq<Move>) {
    && |states| == |moves| + 1
    && states[0] == Initial(k, mem)
    && (forall n :: 0 <= n < |states| ==> Shaped(k, states[n]))
    && (forall n :: 0 <= n < |moves| ==>
          Enabled(k, states[n], moves[n]) && states[n + 1] == Next(k, o, states[n], moves[n]))
  }

  // ----- freedom from races, and the reference the runs are compared with

  predicate InGrid(k: Kernel, b: nat, t: nat, ph: nat) {
    b < k.blocks && t < k.threads && ph < k.phases
  }

  ghost predicate WrittenBy(k: Kernel, b: nat, t: nat, ph: nat, c: Cell) {
    InGrid(k, b, t, ph) && c in Writes(k.code(b, t, ph))
  }

  ghost predicate TouchedBy(k: Kernel, b: nat, t: nat, ph: nat, c: Cell) {
    InGrid(k, b, t, ph) && c in Touches(k.code(b, t, ph))
  }

  /** A cell one thread writes is not accessed by another thread of its block in the same phase,
      nor by any other block in any phase. */
  ghost predicate RaceFree(k: Kernel) {
    && (forall b: nat, t: nat, t': nat, ph: nat, c: Cell ::
          WrittenBy(k, b, t, ph, c) && TouchedBy(k, b, t', ph, c) ==> t == t')
    && (forall b: nat, b': nat, t: nat, t': nat, ph: nat, ph': nat, c: Cell ::
          WrittenBy(k, b, t, ph, c) && TouchedBy(k, b', t', ph', c) ==> b == b')
  }

  /** What thread `t` of block `b` sees after `pos` instructions of phase `ph` when it runs alone
      from the block's reference memory at the start of that phase. */
  function SoloAt(k: Kernel, o: Arith, mem: Mem, b: nat, t: nat, ph: nat, pos: nat): View
    requires pos <= |k.code(b, t, ph)|
    decreases ph, 2, 0
  {
    Solo(o, k.code(b, t, ph)[..pos], View(PhaseMem(k, o, mem, b, ph), PhaseRegs(k, o, mem, b, t, ph)))
  }

  function SoloEnd(k: Kernel, o: Arith, mem: Mem, b: nat, t: nat, ph: nat): View
    decreases ph, 2, 0
  {
    Solo(o, k.code(b, t, ph), View(PhaseMem(k, o, mem, b, ph), PhaseRegs(k, o, mem, b, t, ph)))
  }

  function PhaseRegs(k: Kernel, o: Arith, mem: Mem, b: nat, t: nat, ph: nat): Regs
    decreases ph, 0, 0
  {
    if ph == 0 then map[] else SoloEnd(k, o, mem, b, t, ph - 1).regs
  }

  function PhaseMem(k: Kernel, o: Arith, mem: Mem, b: nat, ph: nat): Mem
    decreases ph, 0, 0
  {
    if ph == 0 then mem else Merge(k, o, mem, b, ph - 1, k.threads)
  }

  /** The writes of threads 0..n-1 of one phase laid over the memory at its start. */
  function Merge(k: Kernel, o: Arith, mem: Mem, b: nat, ph: nat, n: nat): Mem
    decreases ph, 3, n
  {
    if n == 0 then PhaseMem(k, o, mem, b, ph)
    else
      var v := SoloEnd(k, o, mem, b, n - 1, ph);
      Merge(k, o, mem, b, ph, n - 1) + map c | c in Writes(k.code(b, n - 1, ph)) :: Read(v.mem, c)
  }

  lemma {:induction false} MergeUnwritten(k: Kernel, o: Arith, mem: Mem, b: nat, ph: nat, n: nat, c: Cell)
    requires forall t: nat :: t < n ==> c !in Writes(k.code(b, t, ph))
    ensures Read(Merge(k, o, mem, b, ph, n), c) == Read(PhaseMem(k, o, mem, b, ph), c)
  {
    if n > 0 {
      MergeUnwritten(k, o, mem, b, ph, n - 1, c);
    }
  }

  lemma {:induction false} MergeWritten(k: Kernel, o: Arith, mem: Mem, b: nat, ph: nat, n: nat, t: nat, c: Cell)
    requires t < n && c in Writes(k.code(b, t, ph))
    requires forall t': nat :: t' < n && t' != t ==> c !in Writes(k.code(b, t', ph))
    ensures Read(Merge(k, o, mem, b, ph, n), c) == Read(SoloEnd(k, o, mem, b, t, ph).mem, c)
  {
    if t < n - 1 {
      MergeWritten(k, o, mem, b, ph, n - 1, t, c);
    }
  }

  /** A cell no thread of the block writes keeps its initial value in the block's reference. */
  lemma {:induction false} PhaseMemUnwritten(k: Kernel, o: Arith, mem: Mem, b: nat, ph: nat, c: Cell)
    requires forall t: nat, ph': nat :: t < k.threads && ph' < ph ==> c !in Writes(k.code(b, t, ph'))
    ensures Read(PhaseMem(k, o, mem, b, ph), c) == Read(mem, c)
  {
    if ph > 0 {
      PhaseMemUnwritten(k, o, mem, b, ph - 1, c);
      MergeUnwritten(k, o, mem, b, ph - 1, k.threads, c);
    }
  }

  // ----- the invariant of every run

  ghost predicate ForeignWrites(k: Kernel, b: nat, c: Cell) {
    exists b': nat, t: nat, ph: nat :: b' != b && WrittenBy(k, b', t, ph, c)
  }

  ghost predicate PhaseWrites(k: Kernel, b: nat, ph: nat, c: Cell) {
    exists t: nat :: WrittenBy(k, b, t, ph, c)
  }

  ghost predicate ThreadOk(k: Kernel, o: Arith, mem: Mem, s: State, b: nat, t: nat)
    requires Shaped(k, s) && b < k.blocks && t < k.threads
  {
    var ph := s.blocks[b].phase;
    var th := s.blocks[b].threads[t];
    if ph < k.phases then
      && th.pos <= |k.code(b, t, ph)|
      && th.regs == SoloAt(k, o, mem, b, t, ph, th.pos).regs
      && forall c :: c in Writes(k.code(b, t, ph)) ==>
           Read(s.mem, c) == Read(SoloAt(k, o, mem, b, t, ph, th.pos).mem, c)
    else
      th.regs == PhaseRegs(k, o, mem, b, t, ph)
  }

  ghost predicate BlockOk(k: Kernel, o: Arith, mem: Mem, s: State, b: nat)
    requires Shaped(k, s) && b < k.blocks
  {
    var ph := s.blocks[b].phase;
    forall c :: !ForeignWrites(k, b, c) && !PhaseWrites(k, b, ph, c) ==>
      Read(s.mem, c) == Read(PhaseMem(k, o, mem, b, ph), c)
  }

  ghost predicate Inv(k: Kernel, o: Arith, mem: Mem, s: State) {
    && Shaped(k, s)
    && (forall b: nat, t: nat :: b < k.blocks && t < k.threads ==> ThreadOk(k, o, mem, s, b, t))
    && (forall b: nat :: b < k.blocks ==> BlockOk(k, o, mem, s, b))
  }

  lemma InitialInv(k: Kernel, o: Arith, mem: Mem)
    ensures Inv(k, o, mem, Initial(k, mem))
  {
    var s := Initial(k, mem);
    forall b: nat, t: nat | b < k.blocks && t < k.threads
      ensures ThreadOk(k, o, mem, s, b, t)
    {
      assert k.code(b, t, 0)[..0] == [];
    }
  }

  /** What a thread reads next is what it would read running alone. */
  lemma ReadsAsAlone(k: Kernel, o: Arith, mem: Mem, s: State, b: nat, t: nat, c: Cell)
    requires RaceFree(k) && Inv(k, o, mem, s)
    requires b < k.blocks && t < k.threads && TouchedBy(k, b, t, s.blocks[b].phase, c)
    ensures ThreadOk(k, o, mem, s, b, t)
    ensures Read(s.mem, c) == Read(SoloAt(k, o, mem, b, t, s.blocks[b].phase, s.blocks[b].threads[t].pos).mem, c)
  {
    var ph := s.blocks[b].phase;
    var pos := s.blocks[b].threads[t].pos;
    assert ThreadOk(k, o, mem, s, b, t);
    if c !in Writes(k.code(b, t, ph)) {
      assert !PhaseWrites(k, b, ph, c) && !ForeignWrites(k, b, c);
      assert BlockOk(k, o, mem, s, b);
      var code := k.code(b, t, ph);
      assert forall m :: 0 <= m < pos ==> code[..pos][m] == code[m];
      SoloFrame(o, code[..pos], View(PhaseMem(k, o, mem, b, ph), PhaseRegs(k, o, mem, b, t, ph)), c);
    }
  }

  lemma SoloAtSucc(k: Kernel, o: Arith, mem: Mem, b: nat, t: nat, ph: nat, pos: nat)
    requires pos < |k.code(b, t, ph)|
    ensures SoloAt(k, o, mem, b, t, ph, pos + 1) == Do(o, k.code(b, t, ph)[pos], SoloAt(k, o, mem, b, t, ph, pos))
  {
    var code := k.code(b, t, ph);
    assert code[..pos + 1][..pos] == code[..pos];
  }

  /** A step of one thread leaves the others as they were. */
  lemma StepKeepsOthers(k: Kernel, o: Arith, mem: Mem, s: State, b: nat, t: nat, b': nat, t': nat)
    requires RaceFree(k) && Inv(k, o, mem, s) && Enabled(k, s, Step(b, t))
    requires b' < k.blocks && t' < k.threads && (b', t') != (b, t)
    ensures ThreadOk(k, o, mem, Next(k, o, s, Step(b, t)), b', t')
  {
    var s' := Next(k, o, s, Step(b, t));
    var ph := s.blocks[b].phase;
    var ins := k.code(b, t, ph)[s.blocks[b].threads[t].pos];
    assert ThreadOk(k, o, mem, s, b', t');
    if s.blocks[b'].phase < k.phases {
      var ph' := s.blocks[b'].phase;
      forall c | c in Writes(k.code(b', t', ph'))
        ensures Read(s'.mem, c) == Read(s.mem, c)
      {
        assert WrittenBy(k, b', t', ph', c);
        assert ins.Store? && ins.cell == c ==> TouchedBy(k, b, t, ph, c);
      }
    }
  }

  /** A step of one thread is the next step of that thread running alone. */
  lemma StepAdvances(k: Kernel, o: Arith, mem: Mem, s: State, b: nat, t: nat)
    requires RaceFree(k) && Inv(k, o, mem, s) && Enabled(k, s, Step(b, t))
    ensures ThreadOk(k, o, mem, Next(k, o, s, Step(b, t)), b, t)
  {
    var ph := s.blocks[b].phase;
    var th := s.blocks[b].threads[t];
    var ins := k.code(b, t, ph)[th.pos];
    SoloAtSucc(k, o, mem, b, t, ph, th.pos);
    assert ThreadOk(k, o, mem, s, b, t);
    if ins.Load? {
      ReadsAsAlone(k, o, mem, s, b, t, ins.src);
    }
  }

  lemma StepInv(k: Kernel, o: Arith, mem: Mem, s: State, b: nat, t: nat)
    requires RaceFree(k) && Inv(k, o, mem, s) && Enabled(k, s, Step(b, t))
    ensures Inv(k, o, mem, Next(k, o, s, Step(b, t)))
  {
    var s' := Next(k, o, s, Step(b, t));
    var ins := k.code(b, t, s.blocks[b].phase)[s.blocks[b].threads[t].pos];
    forall b': nat, t': nat | b' < k.blocks && t' < k.threads
      ensures ThreadOk(k, o, mem, s', b', t')
    {
      if (b', t') == (b, t) { StepAdvances(k, o, mem, s, b, t); } else { StepKeepsOthers(k, o, mem, s, b, t, b', t'); }
    }
    forall b': nat | b' < k.blocks
      ensures BlockOk(k, o, mem, s', b')
    {
      assert BlockOk(k, o, mem, s, b');
      assert ins.Store? ==> WrittenBy(k, b, t, s.blocks[b].phase, ins.cell);
    }
  }

  lemma BarrierReads(k: Kernel, o: Arith, mem: Mem, s: State, b: nat, c: Cell)
    requires RaceFree(k) && Inv(k, o, mem, s) && Enabled(k, s, Barrier(b))
    requires !ForeignWrites(k, b, c)
    ensures Read(s.mem, c) == Read(PhaseMem(k, o, mem, b, s.blocks[b].phase + 1), c)
  {
    var ph := s.blocks[b].phase;
    if t: nat :| WrittenBy(k, b, t, ph, c) {
      assert ThreadOk(k, o, mem, s, b, t);
      var code := k.code(b, t, ph);
      assert code[..|code|] == code;
      forall t': nat | t' < k.threads && t' != t
        ensures c !in Writes(k.code(b, t', ph))
      {
        assert c in Writes(k.code(b, t', ph)) ==> TouchedBy(k, b, t', ph, c);
      }
      MergeWritten(k, o, mem, b, ph, k.threads, t, c);
    } else {
      assert BlockOk(k, o, mem, s, b);
      forall t: nat | t < k.threads
        ensures c !in Writes(k.code(b, t, ph))
      {
        assert !WrittenBy(k, b, t, ph, c);
      }
      MergeUnwritten(k, o, mem, b, ph, k.threads, c);
    }
  }

  lemma BarrierInv(k: Kernel, o: Arith, mem: Mem, s: State, b: nat)
    requires RaceFree(k) && Inv(k, o, mem, s) && Enabled(k, s, Barrier(b))
    ensures Inv(k, o, mem, Next(k, o, s, Barrier(b)))
  {
    var s' := Next(k, o, s, Barrier(b));
    var ph := s.blocks[b].phase;
    forall b': nat, t': nat | b' < k.blocks && t' < k.threads
      ensures ThreadOk(k, o, mem, s', b', t')
    {
      assert ThreadOk(k, o, mem, s, b', t');
      if b' == b {
        var code := k.code(b, t', ph);
        assert code[..|code|] == code;
        assert SoloAt(k, o, mem, b, t', ph, |code|) == SoloEnd(k, o, mem, b, t', ph);
        assert s'.blocks[b].threads[t'].regs == PhaseRegs(k, o, mem, b, t', ph + 1);
        if ph + 1 < k.phases {
          assert k.code(b, t', ph + 1)[..0] == [];
          forall c | c in Writes(k.code(b, t', ph + 1))
            ensures Read(s'.mem, c) == Read(PhaseMem(k, o, mem, b, ph + 1), c)
          {
            assert WrittenBy(k, b, t', ph + 1, c);
            forall b'': nat, t'': nat, ph'': nat | b'' != b
              ensures !WrittenBy(k, b'', t'', ph'', c)
            {
              assert WrittenBy(k, b'', t'', ph'', c) ==> TouchedBy(k, b, t', ph + 1, c);
            }
            BarrierReads(k, o, mem, s, b, c);
          }
        }
      }
    }
    forall b': nat | b' < k.blocks
      ensures BlockOk(k, o, mem, s', b')
    {
      assert BlockOk(k, o, mem, s, b');
      if b' == b {
        forall c | !ForeignWrites(k, b, c)
          ensures Read(s'.mem, c) == Read(PhaseMem(k, o, mem, b, ph + 1), c)
        {
          BarrierReads(k, o, mem, s, b, c);
        }
      }
    }
  }

  lemma {:induction false} RunInv(k: Kernel, o: Arith, mem: Mem, states: seq<State>, moves: seq<Move>, n: nat)
    requires RaceFree(k) && IsRun(k, o, mem, states, moves) && n < |states|
    ensures Inv(k, o, mem, states[n])
  {
    if n == 0 {
      InitialInv(k, o, mem);
    } else {
      RunInv(k, o, mem, states, moves, n - 1);
      match moves[n - 1]
      case Step(b, t) => StepInv(k, o, mem, states[n - 1], b, t);
      case Barrier(b) => BarrierInv(k, o, mem, states[n - 1], b);
    }
  }

  /** `final` is the reference memory: each cell as the only block that may write it leaves it. */
  ghost predicate Settled(k: Kernel, o: Arith, mem: Mem, final: Mem) {
    && (k.blocks == 0 ==> final == mem)
    && forall b: nat, c :: b < k.blocks && !ForeignWrites(k, b, c) ==>
         Read(final, c) == Read(PhaseMem(k, o, mem, b, k.phases), c)
  }

  lemma DoneSettles(k: Kernel, o: Arith, mem: Mem, s: State)
    requires Inv(k, o, mem, s) && Done(k, s) && (k.blocks == 0 ==> s.mem == mem)
    ensures Settled(k, o, mem, s.mem)
  {
    forall b: nat, c | b < k.blocks && !ForeignWrites(k, b, c)
      ensures Read(s.mem, c) == Read(PhaseMem(k, o, mem, b, k.phases), c)
    {
      assert BlockOk(k, o, mem, s, b);
    }
  }

  /** Schedule independence: whatever the interleaving, a finished race-free launch settles. */
  lemma ScheduleIndependence(k: Kernel, o: Arith, mem: Mem, states: seq<State>, moves: seq<Move>)
    requires RaceFree(k) && IsRun(k, o, mem, states, moves) && Done(k, states[|moves|])
    ensures Settled(k, o, mem, states[|moves|].mem)
  {
    RunInv(k, o, mem, states, moves, |moves|);
    assert moves != [] ==> Enabled(k, states[0], moves[0]);
    DoneSettles(k, o, mem, states[|moves|]);
  }

  // ----- every run ends, and ends finished

  function CodeLeft(k: Kernel, b: nat, t: nat, ph: nat): nat
    decreases k.phases - ph
  {
    if ph >= k.phases then 0 else |k.code(b, t, ph)| + CodeLeft(k, b, t, ph + 1)
  }

  /** Instructions the first `n` threads of a block have still to execute. */
  function ThreadsLeft(k: Kernel, b: nat, B: BlockState, n: nat): int
    requires n <= |B.threads|
  {
    if n == 0 then 0 else ThreadsLeft(k, b, B, n - 1) + CodeLeft(k, b, n - 1, B.phase) - B.threads[n - 1].pos
  }

  /** Moves the first `n` blocks have still to make. */
  function MovesLeft(k: Kernel, s: State, n: nat): int
    requires Shaped(k, s) && n <= k.blocks
  {
    if n == 0 then 0
    else MovesLeft(k, s, n - 1) + (k.phases - s.blocks[n - 1].phase) + ThreadsLeft(k, n - 1, s.blocks[n - 1], k.threads)
  }

  predicate InStep(k: Kernel, s: State)
    requires Shaped(k, s)
  {
    forall b: nat, t: nat :: b < k.blocks && t < k.threads ==>
      s.blocks[b].threads[t].pos <=
        if s.blocks[b].phase < k.phases then |k.code(b, t, s.blocks[b].phase)| else 0
  }

  lemma {:induction false} ThreadsLeftStep(k: Kernel, b: nat, B: BlockState, B': BlockState, t: nat, n: nat)
    requires |B'.threads| == |B.threads| && B'.phase == B.phase && t < |B.threads| && n <= |B.threads|
    requires B'.threads[t].pos == B.threads[t].pos + 1
    requires forall u :: 0 <= u < |B.threads| && u != t ==> B'.threads[u] == B.threads[u]
    ensures ThreadsLeft(k, b, B', n) == ThreadsLeft(k, b, B, n) - if t < n then 1 else 0
  {
    if n > 0 {
      ThreadsLeftStep(k, b, B, B', t, n - 1);
    }
  }

  lemma {:induction false} ThreadsLeftBarrier(k: Kernel, b: nat, B: BlockState, B': BlockState, n: nat)
    requires |B'.threads| == |B.threads| && B.phase < k.phases && B'.phase == B.phase + 1 && n <= |B.threads|
    requires forall u :: 0 <= u < |B.threads| ==> B.threads[u].pos == |k.code(b, u, B.phase)| && B'.threads[u].pos == 0
    ensures ThreadsLeft(k, b, B', n) == ThreadsLeft(k, b, B, n)
  {
    if n > 0 {
      ThreadsLeftBarrier(k, b, B, B', n - 1);
    }
  }

  lemma {:induction false} MovesLeftNext(k: Kernel, o: Arith, s: State, m: Move, n: nat)
    requires Shaped(k, s) && Enabled(k, s, m) && n <= k.blocks
    ensures MovesLeft(k, Next(k, o, s, m), n) == MovesLeft(k, s, n) - if m.b < n then 1 else 0
  {
    if n > 0 {
      MovesLeftNext(k, o, s, m, n - 1);
      var s' := Next(k, o, s, m);
      if m.b == n - 1 {
        match m
        case Step(b, t) => ThreadsLeftStep(k, b, s.blocks[b], s'.blocks[b], t, k.threads);
        case Barrier(b) => ThreadsLeftBarrier(k, b, s.blocks[b], s'.blocks[b], k.threads);
      }
    }
  }

  lemma {:induction false} ThreadsLeftNonNegative(k: Kernel, b: nat, B: BlockState, n: nat)
    requires n <= |B.threads|
    requires forall u :: 0 <= u < |B.threads| ==>
      B.threads[u].pos <= if B.phase < k.phases then |k.code(b, u, B.phase)| else 0
    ensures ThreadsLeft(k, b, B, n) >= 0
  {
    if n > 0 {
      ThreadsLeftNonNegative(k, b, B, n - 1);
    }
  }

  lemma {:induction false} MovesLeftNonNegative(k: Kernel, s: State, n: nat)
    requires Shaped(k, s) && InStep(k, s) && n <= k.blocks
    ensures MovesLeft(k, s, n) >= 0
  {
    if n > 0 {
      MovesLeftNonNegative(k, s, n - 1);
      ThreadsLeftNonNegative(k, n - 1, s.blocks[n - 1], k.threads);
    }
  }

  lemma InitialInStep(k: Kernel, mem: Mem)
    ensures InStep(k, Initial(k, mem))
  {}

  lemma NextInStep(k: Kernel, o: Arith, s: State, m: Move)
    requires Shaped(k, s) && InStep(k, s) && Enabled(k, s, m)
    ensures InStep(k, Next(k, o, s, m))
  {}

  /** Move `t` of block `b`: a step of thread `t`, or the barrier when `t` is past the threads. */
  function MoveOf(k: Kernel, b: nat, t: nat): Move {
    if t < k.threads then Step(b, t) else Barrier(b)
  }

  /** A launch that is not finished is never stuck at a barrier. */
  lemma NoDeadlock(k: Kernel, s: State)
    requires Shaped(k, s) && InStep(k, s) && !Done(k, s)
    ensures exists b: nat, t: nat :: b < k.blocks && t <= k.threads && Enabled(k, s, MoveOf(k, b, t))
  {
    var b: nat :| b < k.blocks && s.blocks[b].phase != k.phases;
    if t: nat :| t < k.threads && s.blocks[b].threads[t].pos < |k.code(b, t, s.blocks[b].phase)| {
      assert Enabled(k, s, MoveOf(k, b, t));
    } else {
      assert Enabled(k, s, MoveOf(k, b, k.threads));
    }
  }

  /** Runs are finite: a run makes exactly as many moves as its states have lost. */
  lemma {:induction false} RunLength(k: Kernel, o: Arith, mem: Mem, states: seq<State>, moves: seq<Move>, n: nat)
    requires IsRun(k, o, mem, states, moves) && n <= |moves|
    ensures InStep(k, states[n])
    ensures n + MovesLeft(k, states[n], k.blocks) == MovesLeft(k, Initial(k, mem), k.blocks)
    ensures n <= MovesLeft(k, Initial(k, mem), k.blocks)
  {
    if n == 0 {
      InitialInStep(k, mem);
    } else {
      RunLength(k, o, mem, states, moves, n - 1);
      MovesLeftNext(k, o, states[n - 1], moves[n - 1], k.blocks);
      NextInStep(k, o, states[n - 1], moves[n - 1]);
    }
    MovesLeftNonNegative(k, states[n], k.blocks);
  }

  /** A move of a state that is not finished: it keeps the invariants and leaves fewer to make. */
  lemma MoveOn(k: Kernel, o: Arith, mem: Mem, s: State, m: Move)
    requires RaceFree(k) && Inv(k, o, mem, s) && InStep(k, s) && Enabled(k, s, m)
    ensures var s' := Next(k, o, s, m);
      && Inv(k, o, mem, s') && InStep(k, s')
      && 0 <= MovesLeft(k, s', k.blocks) < MovesLeft(k, s, k.blocks)
  {
    hide ThreadOk, BlockOk, InStep, RaceFree, MovesLeft, Next;
    MovesLeftNext(k, o, s, m, k.blocks);
    NextInStep(k, o, s, m);
    match m {
      case Step(b, t) => StepInv(k, o, mem, s, b, t);
      case Barrier(b) => BarrierInv(k, o, mem, s, b);
    }
    MovesLeftNonNegative(k, Next(k, o, s, m), k.blocks);
  }

  /** A run with one more move. */
  lemma RunSnoc(k: Kernel, o: Arith, mem: Mem, states: seq<State>, moves: seq<Move>, m: Move)
    requires IsRun(k, o, mem, states, moves) && Enabled(k, states[|moves|], m)
    ensures IsRun(k, o, mem, states + [Next(k, o, states[|moves|], m)], moves + [m])
  {
    hide Next, Enabled;
    var states', moves' := states + [Next(k, o, states[|moves|], m)], moves + [m];
    forall n | 0 <= n < |moves'|
      ensures Enabled(k, states'[n], moves'[n]) && states'[n + 1] == Next(k, o, states'[n], moves'[n])
    {
      if n < |moves| { assert Enabled(k, states[n], moves[n]); }
    }
  }

  /** Every run can be driven on until the grid has finished. */
  lemma {:induction false} Finishes(k: Kernel, o: Arith, mem: Mem, states: seq<State>, moves: seq<Move>)
    returns (states': seq<State>, moves': seq<Move>)
    requires IsRun(k, o, mem, states, moves)
    ensures IsRun(k, o, mem, states', moves') && Done(k, states'[|moves'|])
    ensures states <= states' && moves <= moves'
    decreases MovesLeft(k, Initial(k, mem), k.blocks) - |moves|
  {
    hide MovesLeft, InStep, Next;
    states', moves' := states, moves;
    RunLength(k, o, mem, states, moves, |moves|);
    var s := states[|moves|];
    if !Done(k, s) {
      NoDeadlock(k, s);
      var b: nat, t: nat :| b < k.blocks && t <= k.threads && Enabled(k, s, MoveOf(k, b, t));
      var m := MoveOf(k, b, t);
      RunSnoc(k, o, mem, states, moves, m);
      RunLength(k, o, mem, states + [Next(k, o, s, m)], moves + [m], |moves| + 1);
      states', moves' := Finishes(k, o, mem, states + [Next(k, o, s, m)], moves + [m]);
    }
  }

  /** Some schedule runs the launch to its end. */
  lemma FinishedRun(k: Kernel, o: Arith, mem: Mem) returns (states: seq<State>, moves: seq<Move>)
    ensures IsRun(k, o, mem, states, moves) && Done(k, states[|moves|])
  {
    states, moves := Finishes(k, o, mem, [Initial(k, mem)], []);
  }

  /** The launch as it is driven: any enabled move, until the grid has finished. */
  method Launch(k: Kernel, o: Arith, mem: Mem) returns (final: Mem)
    requires RaceFree(k)
    ensures Settled(k, o, mem, final)
  {
    var s := Initial(k, mem);
    InitialInv(k, o, mem);
    InitialInStep(k, mem);
    MovesLeftNonNegative(k, s, k.blocks);
    while !Done(k, s)
      invariant Inv(k, o, mem, s) && InStep(k, s) && MovesLeft(k, s, k.blocks) >= 0
      invariant k.blocks == 0 ==> s.mem == mem
      decreases MovesLeft(k, s, k.blocks)
    {
      NoDeadlock(k, s);
      var b: nat, t: nat :| b < k.blocks && t <= k.threads && Enabled(k, s, MoveOf(k, b, t));
      MoveOn(k, o, mem, s, MoveOf(k, b, t));
      s := Next(k, o, s, MoveOf(k, b, t));
    }
    DoneSettles(k, o, mem, s);
    final := s.mem;
  }
}
