/** The peephole optimizer run over the translated statements before they
    are partitioned: it records and propagates constants moved into named
    registers, fuses a multiply followed by a dependent add into a
    multiply-add, pairs the base address of a load with the following store,
    and finally drops every statement it scheduled for erasure. */
module Optimizer {
  import opened Ptx
  import opened Vocabulary

  /** Constants are stored as `unsigned int`: the 64-bit immediate keeps its
      low 32 bits. */
  function ToUnsigned32(imm: int): (r: nat)
    ensures r < 0x1_0000_0000
    ensures 0 <= imm < 0x1_0000_0000 ==> r == imm
  {
    imm % 0x1_0000_0000
  }

  /** The scan state: the statements (edited in place), the persistent
      constants table, the statements scheduled for erasure, and the operand
      saved by a fusion that precedes a load. */
  datatype ScanState = ScanState(
    statements: seq<Statement>,
    constants: map<string, nat>,
    toErase: set<Statement>,
    saveOperands: bool,
    saved: Operand)

  /** A `mov` of an immediate into a name that is not a reserved function name. */
  predicate IsConstantMove(ins: Instruction) {
    ins.opcode == Mov && ins.Op(A).addressMode == Immediate && ins.Op(D).identifier !in FunctionNames
  }

  /** The opcodes whose source operands receive constants. */
  predicate IsFoldable(op: Opcode) {
    op == Mad || op == Add || op == Sub || op == Div || op == Mul || op == Shr || op == Shl || op == SetP
  }

  /** One source operand after constant propagation. */
  function FoldOperand(o: Operand, constants: map<string, nat>): Operand {
    if o.identifier in constants then o.(addressMode := Immediate, imm := constants[o.identifier]) else o
  }

  /** The source operands of a foldable instruction after constant propagation. */
  function Fold(ins: Instruction, constants: map<string, nat>): Instruction {
    if IsFoldable(ins.opcode) then
      ins.(operands := [FoldOperand(ins.Op(A), constants), FoldOperand(ins.Op(B), constants),
                        FoldOperand(ins.Op(C), constants), ins.Op(D), ins.Op(PG)])
    else ins
  }

  /** `mul d, a, b` followed by `add d, d, x`. */
  predicate Fusable(mul: Instruction, add: Instruction) {
    mul.opcode == Mul && add.opcode == Add
    && mul.Op(D).identifier == add.Op(D).identifier && mul.Op(D).identifier == add.Op(A).identifier
  }

  /** The multiply turned into `mad d, a, b, x`. */
  function Fuse(mul: Instruction, add: Instruction): Instruction {
    mul.(opcode := Mad).WithOp(C, mul.Op(C).(addressMode := add.Op(B).addressMode, identifier := add.Op(B).identifier))
  }

  /** The constant move at `i`, if it is one, recorded and scheduled for erasure. */
  function Record(st: ScanState, i: nat): (r: ScanState)
    requires i < |st.statements|
    ensures r.statements == st.statements && r.saveOperands == st.saveOperands && r.saved == st.saved
    ensures st.toErase <= r.toErase && st.constants.Keys <= r.constants.Keys
  {
    var s := st.statements[i];
    var ins := s.instruction;
    if IsConstantMove(ins) then
      st.(constants := st.constants[ins.Op(D).identifier := ToUnsigned32(ins.Op(A).imm)], toErase := st.toErase + {s})
    else st
  }

  /** Statement `i` with its sources folded against the current constants. */
  function FoldAt(st: ScanState, i: nat): (r: ScanState)
    requires i < |st.statements|
    ensures r.statements == st.statements[i := st.statements[i].(instruction := Fold(st.statements[i].instruction, st.constants))]
    ensures r.constants == st.constants && r.toErase == st.toErase
    ensures r.saveOperands == st.saveOperands && r.saved == st.saved
  {
    var s := st.statements[i];
    st.(statements := st.statements[i := s.(instruction := Fold(s.instruction, st.constants))])
  }

  /** The multiply at `i` fused with the add after it, and the add
      scheduled for erasure. */
  function Fused(st: ScanState, i: nat): (r: ScanState)
    requires i + 1 < |st.statements|
    ensures |r.statements| == |st.statements|
    ensures forall k :: 0 <= k < |st.statements| && k != i ==> r.statements[k] == st.statements[k]
    ensures r.constants == st.constants && r.toErase == st.toErase + {st.statements[i + 1]}
    ensures r.saveOperands == st.saveOperands && r.saved == st.saved
  {
    var s := st.statements[i];
    st.(statements := st.statements[i := s.(instruction := Fuse(s.instruction, st.statements[i + 1].instruction))],
        toErase := st.toErase + {st.statements[i + 1]})
  }

  /** The load/store pairing after a fusion at `i`: before a load the
      multiply-add's destination is saved; otherwise, when one is saved and
      a store follows, the store's address takes the saved name and the
      multiply-add is scheduled for erasure. */
  function Paired(st: ScanState, i: nat): (r: ScanState)
    requires i < |st.statements|
    ensures |r.statements| == |st.statements|
    ensures forall k :: 0 <= k < |st.statements| && k != i + 2 ==> r.statements[k] == st.statements[k]
    ensures i + 2 < |st.statements| ==> r.statements[i + 2].instruction.opcode == st.statements[i + 2].instruction.opcode
    ensures r.constants == st.constants
    ensures r.toErase == st.toErase || r.toErase == st.toErase + {st.statements[i]}
  {
    if i + 2 < |st.statements| && st.statements[i + 2].instruction.opcode == Ld then
      st.(saveOperands := true, saved := st.statements[i].instruction.Op(D))
    else if st.saveOperands && i + 2 < |st.statements| && st.statements[i + 2].instruction.opcode == St then
      var store := st.statements[i + 2].instruction;
      var renamed := st.statements[i + 2].(instruction := store.WithOp(D, store.Op(D).(identifier := st.saved.identifier)));
      st.(statements := st.statements[i + 2 := renamed], toErase := st.toErase + {st.statements[i]}, saveOperands := false)
    else st
  }

  /** One iteration of the scan, at statement `i`: record a constant move,
      fold the sources, then fuse a multiply with the add after it and pair
      a load with a store. A look-ahead past the end of the statements
      reads as no match, and past the last statement there is nothing left
      to do. */
  function Step(st: ScanState, i: nat): (r: ScanState)
    ensures |r.statements| == |st.statements|
  {
    if i < |st.statements| then
      var folded := FoldAt(Record(st, i), i);
      if i + 1 < |st.statements| && Fusable(folded.statements[i].instruction, folded.statements[i + 1].instruction)
      then Paired(Fused(folded, i), i)
      else folded
    else st
  }

  /** The iterations of a step function `f` at statements `i` up to, but not
      including, `n`. The scan of `optimize` is `Iterate(Step, ...)`; what
      the scan preserves is proved for every step with the properties of
      `IsScanStep`, and then of `Step` by `StepIsScanStep`. */
  function Iterate(f: (ScanState, nat) -> ScanState, st: ScanState, i: nat, n: nat): ScanState
    decreases n - i
  {
    if n <= i then st else Iterate(f, f(st, i), i + 1, n)
  }

  /** One round of the iteration, when `st'` is what `f` makes of `st`. */
  lemma IterateNext(f: (ScanState, nat) -> ScanState, st: ScanState, st': ScanState, i: nat, n: nat)
    requires i < n && st' == f(st, i)
    ensures Iterate(f, st, i, n) == Iterate(f, st', i + 1, n)
  {
  }

  /** The frame of one iteration at statement `j`: the statement count is
      kept, the scheduled statements and the recorded names only grow, the
      statements before `j` are untouched, and a statement after `j` keeps
      its opcode and is untouched unless it is a store. */
  ghost predicate IsScanStep(f: (ScanState, nat) -> ScanState) {
    && (forall s: ScanState, j: nat {:trigger f(s, j)} :: |f(s, j).statements| == |s.statements|)
    && (forall s: ScanState, j: nat {:trigger f(s, j)} :: s.toErase <= f(s, j).toErase && s.constants.Keys <= f(s, j).constants.Keys)
    && (forall s: ScanState, j: nat, k: nat {:trigger f(s, j).statements[k]} :: k < j && k < |s.statements| ==> f(s, j).statements[k] == s.statements[k])
    && (forall s: ScanState, j: nat, k: nat {:trigger f(s, j).statements[k]} :: j < k < |s.statements| ==>
          && f(s, j).statements[k].instruction.opcode == s.statements[k].instruction.opcode
          && (s.statements[k].instruction.opcode != St ==> f(s, j).statements[k] == s.statements[k]))
  }

  /** The scan state at the start of `optimize`. */
  function Start(statements: seq<Statement>, constants: map<string, nat>): ScanState {
    ScanState(statements, constants, {}, false, DefaultOperand)
  }

  /** The scan state after iterating `f` over the statements before `k`. */
  function Scan(f: (ScanState, nat) -> ScanState, statements: seq<Statement>, constants: map<string, nat>, k: nat): ScanState {
    Iterate(f, Start(statements, constants), 0, k)
  }

  /** The scan state of `optimize` when it reaches statement `k`. */
  function Reached(statements: seq<Statement>, constants: map<string, nat>, k: nat): ScanState {
    Scan(Step, statements, constants, k)
  }

  /** The statements of `xs` that equal no scheduled statement, in order. */
  function Filter(xs: seq<Statement>, toErase: set<Statement>): (r: seq<Statement>)
    ensures |r| <= |xs|
  {
    if |xs| == 0 then []
    else Filter(xs[..|xs| - 1], toErase) + (if xs[|xs| - 1] in toErase then [] else [xs[|xs| - 1]])
  }

  /** `optimize`: the final statement vector and the constants table after it. */
  function Optimize(statements: seq<Statement>, constants: map<string, nat>): (seq<Statement>, map<string, nat>) {
    var done := Reached(statements, constants, |statements|);
    (Filter(done.statements, done.toErase), done.constants)
  }

  /** The filter keeps exactly the statements that equal no scheduled one. */
  lemma {:induction false} FilterMembers(xs: seq<Statement>, toErase: set<Statement>)
    ensures forall x :: x in Filter(xs, toErase) <==> x in xs && x !in toErase
    decreases |xs|
  {
    if |xs| > 0 {
      var init := xs[..|xs| - 1];
      FilterMembers(init, toErase);
      assert xs == init + [xs[|xs| - 1]];
    }
  }

  /** The filter keeps the order: filtering a concatenation concatenates
      the filtered parts. */
  lemma {:induction false} FilterAppend(xs: seq<Statement>, ys: seq<Statement>, toErase: set<Statement>)
    ensures Filter(xs + ys, toErase) == Filter(xs, toErase) + Filter(ys, toErase)
    decreases |ys|
  {
    if |ys| == 0 {
      assert xs + ys == xs;
    } else {
      assert (xs + ys)[..|xs + ys| - 1] == xs + ys[..|ys| - 1];
      FilterAppend(xs, ys[..|ys| - 1], toErase);
    }
  }


  /** One iteration touches no statement other than its own and the one two
      ahead. */
  lemma StepFrame(st: ScanState, i: nat, k: nat)
    requires k < |st.statements| && k != i && k != i + 2
    ensures Step(st, i).statements[k] == st.statements[k]
  {
  }

  /** The statement two ahead keeps its opcode, and is left alone unless it
      is a store. */
  lemma StepAhead(st: ScanState, i: nat)
    requires i + 2 < |st.statements|
    ensures Step(st, i).statements[i + 2].instruction.opcode == st.statements[i + 2].instruction.opcode
    ensures st.statements[i + 2].instruction.opcode != St ==> Step(st, i).statements[i + 2] == st.statements[i + 2]
  {
  }

  /** One iteration only appends to the scheduled statements and only adds names to the constants table. */
  lemma StepGrows(st: ScanState, i: nat)
    ensures st.toErase <= Step(st, i).toErase && st.constants.Keys <= Step(st, i).constants.Keys
  {
  }

  /** Every iteration only grows the scheduled statements and the recorded names. */
  lemma StepsGrow()
    ensures forall s: ScanState, j: nat {:trigger Step(s, j)} ::
      s.toErase <= Step(s, j).toErase && s.constants.Keys <= Step(s, j).constants.Keys
  {
    forall s: ScanState, j: nat
      ensures s.toErase <= Step(s, j).toErase && s.constants.Keys <= Step(s, j).constants.Keys
    {
      StepGrows(s, j);
    }
  }

  /** No iteration touches a statement before its own. */
  lemma StepsKeepPassed()
    ensures forall s: ScanState, j: nat, k: nat {:trigger Step(s, j).statements[k]} :: k < j && k < |s.statements| ==>
      Step(s, j).statements[k] == s.statements[k]
  {
    forall s: ScanState, j: nat, k: nat | k < j && k < |s.statements|
      ensures Step(s, j).statements[k] == s.statements[k]
    {
      StepFrame(s, j, k);
    }
  }

  /** An iteration keeps the opcode of every later statement, and every
      later statement other than a store. */
  lemma StepsKeepPending()
    ensures forall s: ScanState, j: nat, k: nat {:trigger Step(s, j).statements[k]} :: j < k < |s.statements| ==>
      && Step(s, j).statements[k].instruction.opcode == s.statements[k].instruction.opcode
      && (s.statements[k].instruction.opcode != St ==> Step(s, j).statements[k] == s.statements[k])
  {
    forall s: ScanState, j: nat, k: nat | j < k < |s.statements|
      ensures Step(s, j).statements[k].instruction.opcode == s.statements[k].instruction.opcode
      ensures s.statements[k].instruction.opcode != St ==> Step(s, j).statements[k] == s.statements[k]
    {
      if k == j + 2 {
        StepAhead(s, j);
      } else {
        StepFrame(s, j, k);
      }
    }
  }

  /** The scan's own iteration has the frame of `IsScanStep`. */
  lemma StepIsScanStep()
    ensures IsScanStep(Step)
  {
    StepsGrow();
    StepsKeepPassed();
    StepsKeepPending();
  }

  /** Iterating a scan step keeps the statement count. */
  lemma {:induction false} IterateLength(f: (ScanState, nat) -> ScanState, st: ScanState, i: nat, n: nat)
    requires IsScanStep(f)
    ensures |Iterate(f, st, i, n).statements| == |st.statements|
    decreases n - i
  {
    if i < n {
      IterateLength(f, f(st, i), i + 1, n);
    }
  }

  /** The scheduled statements and the recorded names only grow during the scan. */
  lemma {:induction false} IterateGrows(f: (ScanState, nat) -> ScanState, st: ScanState, i: nat, n: nat)
    requires IsScanStep(f)
    ensures st.toErase <= Iterate(f, st, i, n).toErase
    ensures st.constants.Keys <= Iterate(f, st, i, n).constants.Keys
    decreases n - i
  {
    if i < n {
      IterateGrows(f, f(st, i), i + 1, n);
    }
  }

  /** A statement the scan has passed is never touched again. */
  lemma {:induction false} IterateFrozen(f: (ScanState, nat) -> ScanState, st: ScanState, i: nat, n: nat, k: nat)
    requires IsScanStep(f) && k < i && k < |st.statements|
    ensures k < |Iterate(f, st, i, n).statements| && Iterate(f, st, i, n).statements[k] == st.statements[k]
    decreases n - i
  {
    IterateLength(f, st, i, n);
    if i < n {
      IterateFrozen(f, f(st, i), i + 1, n, k);
    }
  }

  /** A statement the scan has not reached yet keeps its opcode, and is as
      given unless it is a store, whose address a pairing may rename. */
  lemma {:induction false} IteratePending(f: (ScanState, nat) -> ScanState, st: ScanState, i: nat, n: nat, k: nat)
    requires IsScanStep(f) && n <= k < |st.statements|
    ensures k < |Iterate(f, st, i, n).statements|
    ensures Iterate(f, st, i, n).statements[k].instruction.opcode == st.statements[k].instruction.opcode
    ensures st.statements[k].instruction.opcode != St ==> Iterate(f, st, i, n).statements[k] == st.statements[k]
    decreases n - i
  {
    IterateLength(f, st, i, n);
    if i < n {
      IteratePending(f, f(st, i), i + 1, n, k);
    }
  }

  /** Iterating up to `n` is iterating up to `n - 1` and then once more. */
  lemma {:induction false} IterateLast(f: (ScanState, nat) -> ScanState, st: ScanState, i: nat, n: nat)
    requires i < n
    ensures Iterate(f, st, i, n) == f(Iterate(f, st, i, n - 1), n - 1)
    decreases n - i
  {
    if i < n - 1 {
      IterateLast(f, f(st, i), i + 1, n);
    }
  }

  /** Iterating up to `n` is iterating up to `k` and then on from there. */
  lemma {:induction false} IterateSplit(f: (ScanState, nat) -> ScanState, st: ScanState, i: nat, k: nat, n: nat)
    requires i <= k <= n
    ensures Iterate(f, st, i, n) == Iterate(f, Iterate(f, st, i, k), k, n)
    decreases k - i
  {
    if i < k {
      IterateSplit(f, f(st, i), i + 1, k, n);
    }
  }

  /** One iteration records a constant move: the constant table maps its
      destination to the low 32 bits of its immediate, the move is
      scheduled for erasure, and the move itself is left as it is. */
  lemma StepRecordsConstant(st: ScanState, i: nat)
    requires i < |st.statements| && IsConstantMove(st.statements[i].instruction)
    ensures var ins := st.statements[i].instruction;
      Step(st, i).constants == st.constants[ins.Op(D).identifier := ToUnsigned32(ins.Op(A).imm)]
    ensures st.statements[i] in Step(st, i).toErase
    ensures Step(st, i).statements[i] == st.statements[i]
  {
  }

  /** An iteration over anything but a constant move leaves the constant table alone. */
  lemma StepKeepsConstants(st: ScanState, i: nat)
    requires i < |st.statements| && !IsConstantMove(st.statements[i].instruction)
    ensures Step(st, i).constants == st.constants
  {
  }

  /** One iteration propagates constants into the sources of a foldable
      instruction: a source naming a recorded constant becomes that
      immediate, any other is left alone. The third source is also the one a
      fusion rewrites, so it is stated for instructions that do not fuse. */
  lemma StepFolds(st: ScanState, i: nat, slot: Slot)
    requires i < |st.statements| && IsFoldable(st.statements[i].instruction.opcode)
    requires slot == A || slot == B || (slot == C && st.statements[i].instruction.opcode != Mul)
    ensures var o := st.statements[i].instruction.Op(slot);
      var r := Step(st, i).statements[i].instruction.Op(slot);
      && (o.identifier in st.constants ==>
            r == o.(addressMode := Immediate, imm := st.constants[o.identifier]))
      && (o.identifier !in st.constants ==> r == o)
  {
    var folded := FoldAt(Record(st, i), i);
    var fuses := i + 1 < |st.statements| && Fusable(folded.statements[i].instruction, folded.statements[i + 1].instruction);
    var r := if fuses then Paired(Fused(folded, i), i) else folded;
    assert Step(st, i) == r;
    assert Record(st, i) == st;
    if fuses {
      FusedKeepsSources(folded, i, slot);
    }
    FoldsOperand(st.statements[i].instruction, st.constants, slot, r.statements[i].instruction.Op(slot));
  }

  /** A folded source: a name with a recorded constant becomes that immediate. */
  lemma FoldsOperand(ins: Instruction, constants: map<string, nat>, slot: Slot, r: Operand)
    requires IsFoldable(ins.opcode) && slot != D && slot != PG && r == Fold(ins, constants).Op(slot)
    ensures var o := ins.Op(slot);
      && (o.identifier in constants ==> r == o.(addressMode := Immediate, imm := constants[o.identifier]))
      && (o.identifier !in constants ==> r == o)
  {
  }

  /** The fusion and the pairing leave the first two sources of the
      multiply as they are. */
  lemma FusedKeepsSources(st: ScanState, i: nat, slot: Slot)
    requires i + 1 < |st.statements| && (slot == A || slot == B)
    ensures Paired(Fused(st, i), i).statements[i].instruction.Op(slot) == st.statements[i].instruction.Op(slot)
  {
    var fused := Fused(st, i);
    assert fused.statements[i].instruction == Fuse(st.statements[i].instruction, st.statements[i + 1].instruction);
  }

  /** An instruction that is neither a constant move nor a multiply, and
      whose sources name no recorded constant, passes an iteration unchanged. */
  lemma StepKeeps(st: ScanState, i: nat)
    requires i < |st.statements|
    requires !IsConstantMove(st.statements[i].instruction) && st.statements[i].instruction.opcode != Mul
    requires st.statements[i].instruction.Op(A).identifier !in st.constants
    requires st.statements[i].instruction.Op(B).identifier !in st.constants
    requires st.statements[i].instruction.Op(C).identifier !in st.constants
    ensures Step(st, i).statements[i] == st.statements[i]
  {
    var ins := st.statements[i].instruction;
    assert Fold(ins, st.constants).operands == ins.operands;
  }

  /** One iteration fuses `mul d, a, b` followed by `add d, d, x` into
      `mad d, a, b, x` (only the mode and name of `x` are carried over),
      leaves the add in place and schedules it for erasure. */
  lemma StepFuses(st: ScanState, i: nat)
    requires i + 1 < |st.statements|
    requires Fusable(st.statements[i].instruction, st.statements[i + 1].instruction)
    ensures var mul := st.statements[i].instruction;
      var add := st.statements[i + 1];
      var r := Step(st, i);
      var mad := r.statements[i].instruction;
      && mad.opcode == Mad
      && mad.Op(C).addressMode == add.instruction.Op(B).addressMode
      && mad.Op(C).identifier == add.instruction.Op(B).identifier
      && mad.Op(D) == mul.Op(D)
      && r.statements[i + 1] == add
      && r.constants == st.constants
      && add in r.toErase
  {
  }

  /** After a fusion with a load two ahead, the multiply-add's destination
      is saved and nothing but the add is scheduled. */
  lemma StepSavesBeforeLoad(st: ScanState, i: nat)
    requires i + 2 < |st.statements| && st.statements[i + 2].instruction.opcode == Ld
    requires Fusable(st.statements[i].instruction, st.statements[i + 1].instruction)
    ensures var r := Step(st, i);
      r.saveOperands && r.saved == st.statements[i].instruction.Op(D) && r.toErase == st.toErase + {st.statements[i + 1]}
  {
  }

  /** After a fusion with a store two ahead while a destination is saved,
      the store's address takes the saved name, the saving ends and the
      multiply-add is scheduled after the add. */
  lemma StepPairsStore(st: ScanState, i: nat)
    requires i + 2 < |st.statements| && st.statements[i + 2].instruction.opcode == St && st.saveOperands
    requires Fusable(st.statements[i].instruction, st.statements[i + 1].instruction)
    ensures var r := Step(st, i);
      && !r.saveOperands && r.statements[i + 2].instruction.Op(D).identifier == st.saved.identifier
      && r.toErase == st.toErase + {st.statements[i + 1], r.statements[i]}
  {
    var fused := Fused(FoldAt(Record(st, i), i), i);
    StepIsPaired(st, i);
    assert fused.statements[i + 2] == st.statements[i + 2];
    PairsStore(fused, i);
  }

  /** The pairing, when a destination is saved and a store follows two
      ahead, gives the store the saved name and schedules statement `i`. */
  lemma PairsStore(st: ScanState, i: nat)
    requires i + 2 < |st.statements| && st.statements[i + 2].instruction.opcode == St && st.saveOperands
    ensures var r := Paired(st, i);
      && !r.saveOperands && r.statements[i + 2].instruction.Op(D).identifier == st.saved.identifier
      && r.statements[i] == st.statements[i] && r.toErase == st.toErase + {st.statements[i]}
  {
  }

  /** A multiply that fuses with the add after it goes through the fusion
      and the pairing. */
  lemma StepIsPaired(st: ScanState, i: nat)
    requires i + 1 < |st.statements| && Fusable(st.statements[i].instruction, st.statements[i + 1].instruction)
    ensures Step(st, i) == Paired(Fused(FoldAt(Record(st, i), i), i), i)
  {
  }

  /** An iteration `f` records a constant move, which it schedules and
      leaves as it is, and leaves the constant table alone otherwise. */
  ghost predicate RecordsConstants(f: (ScanState, nat) -> ScanState)
    requires IsScanStep(f)
  {
    && (forall s: ScanState, j: nat {:trigger f(s, j)} :: j < |s.statements| && IsConstantMove(s.statements[j].instruction) ==>
          var ins := s.statements[j].instruction;
          && f(s, j).constants == s.constants[ins.Op(D).identifier := ToUnsigned32(ins.Op(A).imm)]
          && s.statements[j] in f(s, j).toErase
          && f(s, j).statements[j] == s.statements[j])
    && (forall s: ScanState, j: nat {:trigger f(s, j)} :: j < |s.statements| && !IsConstantMove(s.statements[j].instruction) ==>
          f(s, j).constants == s.constants)
  }

  /** An iteration `f` folds the recorded constants into the sources of a
      foldable instruction (the third source of a multiply excepted). */
  ghost predicate FoldsConstants(f: (ScanState, nat) -> ScanState)
    requires IsScanStep(f)
  {
    forall s: ScanState, j: nat, slot: Slot {:trigger f(s, j), s.statements[j].instruction.Op(slot)} ::
      && j < |s.statements| && IsFoldable(s.statements[j].instruction.opcode)
      && (slot == A || slot == B || (slot == C && s.statements[j].instruction.opcode != Mul))
      ==>
      var o := s.statements[j].instruction.Op(slot);
      var r := f(s, j).statements[j].instruction.Op(slot);
      && (o.identifier in s.constants ==> r == o.(addressMode := Immediate, imm := s.constants[o.identifier]))
      && (o.identifier !in s.constants ==> r == o)
  }

  /** An iteration `f` fuses a multiply with the add after it, which it
      schedules and leaves as it is. */
  ghost predicate FusesMultiplyAdds(f: (ScanState, nat) -> ScanState)
    requires IsScanStep(f)
  {
    forall s: ScanState, j: nat {:trigger f(s, j)} ::
      j + 1 < |s.statements| && Fusable(s.statements[j].instruction, s.statements[j + 1].instruction) ==>
      var mad := f(s, j).statements[j].instruction;
      var add := s.statements[j + 1];
      && mad.opcode == Mad && mad.Op(D) == s.statements[j].instruction.Op(D)
      && mad.Op(C).addressMode == add.instruction.Op(B).addressMode
      && mad.Op(C).identifier == add.instruction.Op(B).identifier
      && f(s, j).statements[j + 1] == add && f(s, j).constants == s.constants && add in f(s, j).toErase
  }

  /** An iteration `f` leaves alone an instruction that is neither a
      constant move nor a multiply and names no recorded constant. */
  ghost predicate KeepsOthers(f: (ScanState, nat) -> ScanState)
    requires IsScanStep(f)
  {
    forall s: ScanState, j: nat {:trigger f(s, j)} ::
      && j < |s.statements| && !IsConstantMove(s.statements[j].instruction)
      && s.statements[j].instruction.opcode != Mul
      && s.statements[j].instruction.Op(A).identifier !in s.constants
      && s.statements[j].instruction.Op(B).identifier !in s.constants
      && s.statements[j].instruction.Op(C).identifier !in s.constants
      ==> f(s, j).statements[j] == s.statements[j]
  }

  lemma StepsRecord()
    ensures forall s: ScanState, j: nat {:trigger Step(s, j)} :: j < |s.statements| && IsConstantMove(s.statements[j].instruction) ==>
      var ins := s.statements[j].instruction;
      && Step(s, j).constants == s.constants[ins.Op(D).identifier := ToUnsigned32(ins.Op(A).imm)]
      && s.statements[j] in Step(s, j).toErase
      && Step(s, j).statements[j] == s.statements[j]
    ensures forall s: ScanState, j: nat {:trigger Step(s, j)} :: j < |s.statements| && !IsConstantMove(s.statements[j].instruction) ==>
      Step(s, j).constants == s.constants
  {
    forall s: ScanState, j: nat | j < |s.statements| && IsConstantMove(s.statements[j].instruction)
      ensures var ins := s.statements[j].instruction;
        && Step(s, j).constants == s.constants[ins.Op(D).identifier := ToUnsigned32(ins.Op(A).imm)]
        && s.statements[j] in Step(s, j).toErase
        && Step(s, j).statements[j] == s.statements[j]
    {
      StepRecordsConstant(s, j);
    }
    forall s: ScanState, j: nat | j < |s.statements| && !IsConstantMove(s.statements[j].instruction)
      ensures Step(s, j).constants == s.constants
    {
      StepKeepsConstants(s, j);
    }
  }

  lemma StepsFold()
    ensures forall s: ScanState, j: nat, slot: Slot {:trigger Step(s, j), s.statements[j].instruction.Op(slot)} ::
      && j < |s.statements| && IsFoldable(s.statements[j].instruction.opcode)
      && (slot == A || slot == B || (slot == C && s.statements[j].instruction.opcode != Mul))
      ==>
      var o := s.statements[j].instruction.Op(slot);
      var r := Step(s, j).statements[j].instruction.Op(slot);
      && (o.identifier in s.constants ==> r == o.(addressMode := Immediate, imm := s.constants[o.identifier]))
      && (o.identifier !in s.constants ==> r == o)
  {
    forall s: ScanState, j: nat, slot: Slot |
      && j < |s.statements| && IsFoldable(s.statements[j].instruction.opcode)
      && (slot == A || slot == B || (slot == C && s.statements[j].instruction.opcode != Mul))
      ensures var o := s.statements[j].instruction.Op(slot);
        var r := Step(s, j).statements[j].instruction.Op(slot);
        && (o.identifier in s.constants ==> r == o.(addressMode := Immediate, imm := s.constants[o.identifier]))
        && (o.identifier !in s.constants ==> r == o)
    {
      StepFolds(s, j, slot);
    }
  }

  lemma StepsFuse()
    ensures forall s: ScanState, j: nat {:trigger Step(s, j)} ::
      j + 1 < |s.statements| && Fusable(s.statements[j].instruction, s.statements[j + 1].instruction) ==>
      var mad := Step(s, j).statements[j].instruction;
      var add := s.statements[j + 1];
      && mad.opcode == Mad && mad.Op(D) == s.statements[j].instruction.Op(D)
      && mad.Op(C).addressMode == add.instruction.Op(B).addressMode
      && mad.Op(C).identifier == add.instruction.Op(B).identifier
      && Step(s, j).statements[j + 1] == add && Step(s, j).constants == s.constants && add in Step(s, j).toErase
  {
    forall s: ScanState, j: nat | j + 1 < |s.statements| && Fusable(s.statements[j].instruction, s.statements[j + 1].instruction)
      ensures var mad := Step(s, j).statements[j].instruction;
        var add := s.statements[j + 1];
        && mad.opcode == Mad && mad.Op(D) == s.statements[j].instruction.Op(D)
        && mad.Op(C).addressMode == add.instruction.Op(B).addressMode
        && mad.Op(C).identifier == add.instruction.Op(B).identifier
        && Step(s, j).statements[j + 1] == add && Step(s, j).constants == s.constants && add in Step(s, j).toErase
    {
      StepFuses(s, j);
    }
  }

  lemma StepsKeep()
    ensures forall s: ScanState, j: nat {:trigger Step(s, j)} ::
      && j < |s.statements| && !IsConstantMove(s.statements[j].instruction)
      && s.statements[j].instruction.opcode != Mul
      && s.statements[j].instruction.Op(A).identifier !in s.constants
      && s.statements[j].instruction.Op(B).identifier !in s.constants
      && s.statements[j].instruction.Op(C).identifier !in s.constants
      ==> Step(s, j).statements[j] == s.statements[j]
  {
    forall s: ScanState, j: nat |
      && j < |s.statements| && !IsConstantMove(s.statements[j].instruction)
      && s.statements[j].instruction.opcode != Mul
      && s.statements[j].instruction.Op(A).identifier !in s.constants
      && s.statements[j].instruction.Op(B).identifier !in s.constants
      && s.statements[j].instruction.Op(C).identifier !in s.constants
      ensures Step(s, j).statements[j] == s.statements[j]
    {
      StepKeeps(s, j);
    }
  }

  /** The scan's own iteration has the facts the end-to-end properties rest on. */
  lemma StepIsOptimizerStep()
    ensures IsScanStep(Step) && RecordsConstants(Step) && FoldsConstants(Step)
    ensures IsScanStep(Step) && FusesMultiplyAdds(Step) && KeepsOthers(Step)
  {
    StepIsScanStep();
    StepsRecord();
    StepsFold();
    StepsFuse();
    StepsKeep();
  }

  // The end-to-end properties, first for any iteration with the facts of
  // `StepIsOptimizerStep`, then for `optimize` itself.

  lemma ScanRemovesConstantMove(f: (ScanState, nat) -> ScanState, statements: seq<Statement>, constants: map<string, nat>, k: nat)
    requires IsScanStep(f) && RecordsConstants(f)
    requires k < |statements| && IsConstantMove(statements[k].instruction)
    ensures var done := Scan(f, statements, constants, |statements|);
      statements[k] !in Filter(done.statements, done.toErase)
  {
    var st := Start(statements, constants);
    var n := |statements|;
    var s := Scan(f, statements, constants, k);
    IteratePending(f, st, 0, k, k);
    IterateLast(f, st, 0, k + 1);
    IterateSplit(f, st, 0, k + 1, n);
    IterateGrows(f, f(s, k), k + 1, n);
    var done := Scan(f, statements, constants, n);
    FilterMembers(done.statements, done.toErase);
  }

  /** Every constant move of the input is missing from the output: it is
      scheduled when the scan reaches it, and the filter drops every
      statement equal to a scheduled one. */
  lemma ConstantMoveRemoved(statements: seq<Statement>, constants: map<string, nat>, k: nat)
    requires k < |statements| && IsConstantMove(statements[k].instruction)
    ensures statements[k] !in Optimize(statements, constants).0
  {
    StepIsOptimizerStep();
    ScanRemovesConstantMove(Step, statements, constants, k);
  }

  /** One iteration of the scan changes the constant table only at a
      constant move, which records its destination. */
  lemma ScanConstantsStep(f: (ScanState, nat) -> ScanState, statements: seq<Statement>,
                          constants: map<string, nat>, k: nat)
    requires IsScanStep(f) && RecordsConstants(f) && 0 < k <= |statements|
    ensures var ins := statements[k - 1].instruction;
      var before := Scan(f, statements, constants, k - 1).constants;
      Scan(f, statements, constants, k).constants ==
        if IsConstantMove(ins) then before[ins.Op(D).identifier := ToUnsigned32(ins.Op(A).imm)] else before
  {
    var st := Start(statements, constants);
    var prev := Scan(f, statements, constants, k - 1);
    IteratePending(f, st, 0, k - 1, k - 1);
    IterateLast(f, st, 0, k);
    assert Scan(f, statements, constants, k) == f(prev, k - 1);
    SameMove(statements[k - 1], prev.statements[k - 1]);
  }

  lemma {:induction false} ScanLatestConstant(f: (ScanState, nat) -> ScanState, statements: seq<Statement>,
                                             constants: map<string, nat>, j: nat, k: nat)
    requires IsScanStep(f) && RecordsConstants(f)
    requires j < k <= |statements| && IsConstantMove(statements[j].instruction)
    requires forall m :: j < m < k && IsConstantMove(statements[m].instruction) ==>
      statements[m].instruction.Op(D).identifier != statements[j].instruction.Op(D).identifier
    ensures var x := statements[j].instruction.Op(D).identifier;
      var c := Scan(f, statements, constants, k).constants;
      x in c && c[x] == ToUnsigned32(statements[j].instruction.Op(A).imm)
    decreases k
  {
    ScanConstantsStep(f, statements, constants, k);
    if k - 1 != j {
      ScanLatestConstant(f, statements, constants, j, k - 1);
    }
  }

  /** The constant table the scan has when it reaches statement `k` maps a
      name to the value of the last constant move into it before `k`. */
  lemma LatestConstant(statements: seq<Statement>, constants: map<string, nat>, j: nat, k: nat)
    requires j < k <= |statements| && IsConstantMove(statements[j].instruction)
    requires forall m :: j < m < k && IsConstantMove(statements[m].instruction) ==>
      statements[m].instruction.Op(D).identifier != statements[j].instruction.Op(D).identifier
    ensures var x := statements[j].instruction.Op(D).identifier;
      var c := Reached(statements, constants, k).constants;
      x in c && c[x] == ToUnsigned32(statements[j].instruction.Op(A).imm)
  {
    StepIsOptimizerStep();
    ScanLatestConstant(Step, statements, constants, j, k);
  }

  /** A statement the scan has not reached yet is a constant move exactly
      when it was one in the input: only a store may have changed. */
  lemma SameMove(given: Statement, pending: Statement)
    requires pending.instruction.opcode == given.instruction.opcode
    requires given.instruction.opcode != St ==> pending == given
    ensures IsConstantMove(pending.instruction) <==> IsConstantMove(given.instruction)
    ensures IsConstantMove(given.instruction) ==> pending == given
  {
  }

  /** `x` names a constant when the scan reaches statement `k`: it was in
      the table before `optimize`, or a constant move before `k` writes it. */
  predicate IsRecorded(statements: seq<Statement>, constants: map<string, nat>, k: nat, x: string)
    requires k <= |statements|
  {
    x in constants || exists j :: 0 <= j < k && IsConstantMove(statements[j].instruction)
                                  && statements[j].instruction.Op(D).identifier == x
  }

  /** Extending the prefix by one statement adds to the recorded names at
      most the destination of that statement, if it is a constant move. */
  lemma RecordedStep(statements: seq<Statement>, constants: map<string, nat>, k: nat, x: string)
    requires 0 < k <= |statements|
    ensures var ins := statements[k - 1].instruction;
      IsRecorded(statements, constants, k, x) <==>
        IsRecorded(statements, constants, k - 1, x) || (IsConstantMove(ins) && ins.Op(D).identifier == x)
  {
    if IsRecorded(statements, constants, k, x) && x !in constants {
      var j :| 0 <= j < k && IsConstantMove(statements[j].instruction) && statements[j].instruction.Op(D).identifier == x;
      if j < k - 1 {
        assert IsRecorded(statements, constants, k - 1, x);
      }
    }
  }

  lemma {:induction false} ScanRecordedNames(f: (ScanState, nat) -> ScanState, statements: seq<Statement>,
                                            constants: map<string, nat>, k: nat, x: string)
    requires IsScanStep(f) && RecordsConstants(f) && k <= |statements|
    ensures x in Scan(f, statements, constants, k).constants <==> IsRecorded(statements, constants, k, x)
    decreases k
  {
    if k > 0 {
      ScanConstantsStep(f, statements, constants, k);
      ScanRecordedNames(f, statements, constants, k - 1, x);
      RecordedStep(statements, constants, k, x);
    }
  }

  /** A name is in the constant table when the scan reaches statement `k`
      exactly when it was there before `optimize` or a constant move before
      `k` writes it. */
  lemma RecordedNames(statements: seq<Statement>, constants: map<string, nat>, k: nat, x: string)
    requires k <= |statements|
    ensures x in Reached(statements, constants, k).constants <==> IsRecorded(statements, constants, k, x)
  {
    StepIsOptimizerStep();
    ScanRecordedNames(Step, statements, constants, k, x);
  }

  lemma ScanPropagatesConstant(f: (ScanState, nat) -> ScanState, statements: seq<Statement>,
                               constants: map<string, nat>, j: nat, k: nat, slot: Slot)
    requires IsScanStep(f) && RecordsConstants(f) && FoldsConstants(f)
    requires j < k < |statements| && IsConstantMove(statements[j].instruction)
    requires forall m :: j < m < k && IsConstantMove(statements[m].instruction) ==>
      statements[m].instruction.Op(D).identifier != statements[j].instruction.Op(D).identifier
    requires IsFoldable(statements[k].instruction.opcode)
    requires slot == A || slot == B || (slot == C && statements[k].instruction.opcode != Mul)
    requires statements[k].instruction.Op(slot).identifier == statements[j].instruction.Op(D).identifier
    ensures var done := Scan(f, statements, constants, |statements|);
      k < |done.statements| &&
      var r := done.statements[k].instruction.Op(slot);
      r.addressMode == Immediate && r.imm == ToUnsigned32(statements[j].instruction.Op(A).imm)
  {
    var st := Start(statements, constants);
    var n := |statements|;
    ScanLatestConstant(f, statements, constants, j, k);
    var s := Scan(f, statements, constants, k);
    IteratePending(f, st, 0, k, k);
    IterateLast(f, st, 0, k + 1);
    IterateSplit(f, st, 0, k + 1, n);
    IterateFrozen(f, f(s, k), k + 1, n, k);
  }

  /** End to end: a source operand of a foldable instruction (other than
      the third source of a multiply, which a fusion may rewrite) that names
      the destination of an earlier constant move, with no other move into
      that name in between, leaves the scan as that constant's immediate. */
  lemma ConstantPropagated(statements: seq<Statement>, constants: map<string, nat>, j: nat, k: nat, slot: Slot)
    requires j < k < |statements| && IsConstantMove(statements[j].instruction)
    requires forall m :: j < m < k && IsConstantMove(statements[m].instruction) ==>
      statements[m].instruction.Op(D).identifier != statements[j].instruction.Op(D).identifier
    requires IsFoldable(statements[k].instruction.opcode)
    requires slot == A || slot == B || (slot == C && statements[k].instruction.opcode != Mul)
    requires statements[k].instruction.Op(slot).identifier == statements[j].instruction.Op(D).identifier
    ensures var done := Reached(statements, constants, |statements|);
      k < |done.statements| &&
      var r := done.statements[k].instruction.Op(slot);
      r.addressMode == Immediate && r.imm == ToUnsigned32(statements[j].instruction.Op(A).imm)
  {
    StepIsOptimizerStep();
    ScanPropagatesConstant(Step, statements, constants, j, k, slot);
  }

  lemma ScanFusesMultiplyAdd(f: (ScanState, nat) -> ScanState, statements: seq<Statement>,
                             constants: map<string, nat>, i: nat)
    requires IsScanStep(f) && FusesMultiplyAdds(f)
    requires i + 1 < |statements| && Fusable(statements[i].instruction, statements[i + 1].instruction)
    ensures var done := Scan(f, statements, constants, |statements|);
      i < |done.statements| &&
      var mad := done.statements[i].instruction;
      var add := statements[i + 1].instruction;
      && mad.opcode == Mad && mad.Op(D) == statements[i].instruction.Op(D)
      && mad.Op(C).addressMode == add.Op(B).addressMode && mad.Op(C).identifier == add.Op(B).identifier
  {
    var st := Start(statements, constants);
    var n := |statements|;
    var s := Scan(f, statements, constants, i);
    IteratePending(f, st, 0, i, i);
    IteratePending(f, st, 0, i, i + 1);
    IterateLast(f, st, 0, i + 1);
    IterateSplit(f, st, 0, i + 1, n);
    IterateFrozen(f, f(s, i), i + 1, n, i);
  }

  /** End to end: `mul d, a, b` directly followed by `add d, d, x` leaves
      the scan as `mad d, a, b, x` with the address mode and name of `x`. */
  lemma MultiplyAddFused(statements: seq<Statement>, constants: map<string, nat>, i: nat)
    requires i + 1 < |statements| && Fusable(statements[i].instruction, statements[i + 1].instruction)
    ensures var done := Reached(statements, constants, |statements|);
      i < |done.statements| &&
      var mad := done.statements[i].instruction;
      var add := statements[i + 1].instruction;
      && mad.opcode == Mad && mad.Op(D) == statements[i].instruction.Op(D)
      && mad.Op(C).addressMode == add.Op(B).addressMode && mad.Op(C).identifier == add.Op(B).identifier
  {
    StepIsOptimizerStep();
    ScanFusesMultiplyAdd(Step, statements, constants, i);
  }

  /** A statement the scan has passed and scheduled is missing from the output. */
  lemma ScanDropsScheduled(f: (ScanState, nat) -> ScanState, statements: seq<Statement>,
                           constants: map<string, nat>, j: nat, k: nat)
    requires IsScanStep(f) && j < k <= |statements|
    requires var s := Scan(f, statements, constants, k);
      j < |s.statements| && s.statements[j] in s.toErase
    ensures var done := Scan(f, statements, constants, |statements|);
      Scan(f, statements, constants, k).statements[j] !in Filter(done.statements, done.toErase)
  {
    var st := Start(statements, constants);
    var n := |statements|;
    var s := Scan(f, statements, constants, k);
    IterateSplit(f, st, 0, k, n);
    IterateFrozen(f, s, k, n, j);
    IterateGrows(f, s, k, n);
    var done := Scan(f, statements, constants, n);
    FilterMembers(done.statements, done.toErase);
  }

  /** The iteration at a fusion leaves the add in place and scheduled. */
  lemma ScanSchedulesAdd(f: (ScanState, nat) -> ScanState, statements: seq<Statement>,
                         constants: map<string, nat>, i: nat)
    requires IsScanStep(f) && FusesMultiplyAdds(f)
    requires i + 1 < |statements| && Fusable(statements[i].instruction, statements[i + 1].instruction)
    ensures var s1 := Scan(f, statements, constants, i + 1);
      && i + 1 < |s1.statements| && s1.statements[i + 1] == statements[i + 1] && statements[i + 1] in s1.toErase
      && s1.constants == Scan(f, statements, constants, i).constants
  {
    var st := Start(statements, constants);
    IteratePending(f, st, 0, i, i);
    IteratePending(f, st, 0, i, i + 1);
    IterateLast(f, st, 0, i + 1);
  }

  /** The iteration after a fusion leaves the add alone when none of its
      sources names a recorded constant. */
  lemma ScanKeepsAdd(f: (ScanState, nat) -> ScanState, statements: seq<Statement>,
                     constants: map<string, nat>, i: nat)
    requires IsScanStep(f) && KeepsOthers(f)
    requires i + 1 < |statements| && statements[i + 1].instruction.opcode == Add
    requires var s1 := Scan(f, statements, constants, i + 1);
      && i + 1 < |s1.statements| && s1.statements[i + 1] == statements[i + 1]
      && statements[i + 1].instruction.Op(A).identifier !in s1.constants
      && statements[i + 1].instruction.Op(B).identifier !in s1.constants
      && statements[i + 1].instruction.Op(C).identifier !in s1.constants
    ensures var s1 := Scan(f, statements, constants, i + 1);
      var s2 := Scan(f, statements, constants, i + 2);
      && i + 1 < |s2.statements| && s2.statements[i + 1] == statements[i + 1] && s1.toErase <= s2.toErase
  {
    var st := Start(statements, constants);
    var s1 := Scan(f, statements, constants, i + 1);
    IterateLast(f, st, 0, i + 2);
    KeepsAt(f, s1, i + 1);
  }

  /** One iteration of `f` at an add that names no recorded constant. */
  lemma KeepsAt(f: (ScanState, nat) -> ScanState, s: ScanState, j: nat)
    requires IsScanStep(f) && KeepsOthers(f)
    requires j < |s.statements| && s.statements[j].instruction.opcode == Add
    requires var add := s.statements[j].instruction;
      && add.Op(A).identifier !in s.constants
      && add.Op(B).identifier !in s.constants
      && add.Op(C).identifier !in s.constants
    ensures f(s, j).statements[j] == s.statements[j] && s.toErase <= f(s, j).toErase
  {
  }

  lemma ScanRemovesFusedAdd(f: (ScanState, nat) -> ScanState, statements: seq<Statement>,
                            constants: map<string, nat>, i: nat)
    requires IsScanStep(f) && RecordsConstants(f) && FusesMultiplyAdds(f) && KeepsOthers(f)
    requires i + 1 < |statements| && Fusable(statements[i].instruction, statements[i + 1].instruction)
    requires var add := statements[i + 1].instruction;
      && !IsRecorded(statements, constants, i, add.Op(A).identifier)
      && !IsRecorded(statements, constants, i, add.Op(B).identifier)
      && !IsRecorded(statements, constants, i, add.Op(C).identifier)
    ensures var done := Scan(f, statements, constants, |statements|);
      statements[i + 1] !in Filter(done.statements, done.toErase)
  {
    var add := statements[i + 1].instruction;
    ScanSchedulesAdd(f, statements, constants, i);
    ScanRecordedNames(f, statements, constants, i, add.Op(A).identifier);
    ScanRecordedNames(f, statements, constants, i, add.Op(B).identifier);
    ScanRecordedNames(f, statements, constants, i, add.Op(C).identifier);
    ScanKeepsAdd(f, statements, constants, i);
    ScanDropsScheduled(f, statements, constants, i + 1, i + 2);
  }

  /** End to end: the add of a fusion is missing from the output, provided
      none of its sources names a constant, whether one recorded before
      `optimize` or one moved in earlier in the statements. Otherwise the
      add is folded after it was scheduled and no longer equals the
      scheduled copy. */
  lemma FusedAddRemoved(statements: seq<Statement>, constants: map<string, nat>, i: nat)
    requires i + 1 < |statements| && Fusable(statements[i].instruction, statements[i + 1].instruction)
    requires var add := statements[i + 1].instruction;
      && !IsRecorded(statements, constants, i, add.Op(A).identifier)
      && !IsRecorded(statements, constants, i, add.Op(B).identifier)
      && !IsRecorded(statements, constants, i, add.Op(C).identifier)
    ensures statements[i + 1] !in Optimize(statements, constants).0
  {
    StepIsOptimizerStep();
    ScanRemovesFusedAdd(Step, statements, constants, i);
  }

  /** The output is never longer than the input, and the constants table
      keeps every name it had. */
  lemma OptimizeShrinks(statements: seq<Statement>, constants: map<string, nat>)
    ensures |Optimize(statements, constants).0| <= |statements|
    ensures constants.Keys <= Optimize(statements, constants).1.Keys
  {
    StepIsScanStep();
    IterateLength(Step, Start(statements, constants), 0, |statements|);
    IterateGrows(Step, Start(statements, constants), 0, |statements|);
  }

  /** A register operand named `name`. */
  function Named(name: string): Operand {
    DefaultOperand.(identifier := name, addressMode := Register)
  }

  /** An instruction statement with destination `d` and sources `a`, `b`. */
  function Emitted(op: Opcode, d: Operand, a: Operand, b: Operand): Statement {
    Statement(Instr, "", DefaultInstruction.(opcode := op, operands := [a, b, DefaultOperand, d, DefaultOperand]))
  }

  function MulD(): Statement { Emitted(Mul, Named("d"), Named("a"), Named("b")) }
  function MovX(): Statement { Emitted(Mov, Named("x"), DefaultOperand.(addressMode := Immediate, imm := 5), DefaultOperand) }
  function AddD(): Statement { Emitted(Add, Named("d"), Named("d"), Named("y")) }

  /** `mul d, a, b; mov x, 5; add d, d, y`: the move sits between the
      multiply and the add it feeds. */
  function SeparatedMultiplyAdd(): seq<Statement> {
    [MulD(), MovX(), AddD()]
  }

  /** Three iterations of a step function that maps `st0` to `st1`, `st1`
      to `st2` and `st2` to `st3`. */
  lemma IterateThree(f: (ScanState, nat) -> ScanState, st0: ScanState, st1: ScanState, st2: ScanState, st3: ScanState)
    requires f(st0, 0) == st1 && f(st1, 1) == st2 && f(st2, 2) == st3
    ensures Iterate(f, st0, 0, 3) == st3
  {
    IterateNext(f, st0, st1, 0, 3);
    IterateNext(f, st1, st2, 1, 3);
    IterateNext(f, st2, st3, 2, 3);
  }

  /** Two iterations, likewise. */
  lemma IterateTwo(f: (ScanState, nat) -> ScanState, st0: ScanState, st1: ScanState, st2: ScanState)
    requires f(st0, 0) == st1 && f(st1, 1) == st2
    ensures Iterate(f, st0, 0, 2) == st2
  {
    IterateNext(f, st0, st1, 0, 2);
    IterateNext(f, st1, st2, 1, 2);
  }

  /** The first run of `optimize` on `SeparatedMultiplyAdd`: the multiply
      is not followed by an add, so nothing is fused; the move is recorded
      and erased. */
  lemma FirstRunKeepsPair()
    ensures Optimize(SeparatedMultiplyAdd(), map[]) == ([MulD(), AddD()], map["x" := 5])
  {
    var s := SeparatedMultiplyAdd();
    var st0 := Start(s, map[]);
    var st2 := ScanState(s, map["x" := 5], {MovX()}, false, DefaultOperand);
    FirstRunMul(st0);
    FirstRunMov(st0);
    FirstRunAdd(st2);
    IterateThree(Step, st0, st0, st2, st2);
    FirstRunFilter();
  }

  lemma FirstRunFilter()
    ensures Filter(SeparatedMultiplyAdd(), {MovX()}) == [MulD(), AddD()]
  {
    var s := SeparatedMultiplyAdd();
    assert s[..2] == [MulD(), MovX()];
    assert s[..2][..1] == [MulD()];
    assert [MulD()][..0] == [];
    assert MulD().instruction.opcode != MovX().instruction.opcode;
    assert AddD().instruction.opcode != MovX().instruction.opcode;
  }

  lemma FirstRunMul(st: ScanState)
    requires st == Start(SeparatedMultiplyAdd(), map[])
    ensures Step(st, 0) == st
  {
    assert Record(st, 0) == st;
    MulUnfolded();
    assert st.statements[0 := MulD()] == st.statements;
    assert FoldAt(st, 0) == st;
    assert !Fusable(MulD().instruction, MovX().instruction);
  }

  /** With no constants recorded, the multiply's sources stay as they are. */
  lemma MulUnfolded()
    ensures Fold(MulD().instruction, map[]) == MulD().instruction
  {
    assert Fold(MulD().instruction, map[]).operands == MulD().instruction.operands;
  }

  lemma FirstRunMov(st: ScanState)
    requires st == Start(SeparatedMultiplyAdd(), map[])
    ensures Step(st, 1) == ScanState(SeparatedMultiplyAdd(), map["x" := 5], {MovX()}, false, DefaultOperand)
  {
    assert IsConstantMove(MovX().instruction);
  }

  lemma FirstRunAdd(st: ScanState)
    requires st == ScanState(SeparatedMultiplyAdd(), map["x" := 5], {MovX()}, false, DefaultOperand)
    ensures Step(st, 2) == st
  {
    assert Fold(AddD().instruction, map["x" := 5]).operands == AddD().instruction.operands;
  }

  /** The multiply-add the second run makes of `MulD` and `AddD`. */
  function MadD(): Statement {
    MulD().(instruction := Fuse(MulD().instruction, AddD().instruction))
  }

  /** The second run fuses the pair the first run left adjacent. */
  lemma SecondRunFuses()
    ensures var twice := Optimize([MulD(), AddD()], map["x" := 5]).0;
      |twice| == 1 && twice[0].instruction.opcode == Mad
  {
    var u0 := Start([MulD(), AddD()], map["x" := 5]);
    var u1 := ScanState([MadD(), AddD()], map["x" := 5], {AddD()}, false, DefaultOperand);
    SecondRunMul(u0);
    SecondRunAdd(u1);
    IterateTwo(Step, u0, u1, u1);
    SecondRunFilter();
  }

  lemma SecondRunFilter()
    ensures Filter([MadD(), AddD()], {AddD()}) == [MadD()]
  {
    assert [MadD(), AddD()][..1] == [MadD()];
    assert [MadD()][..0] == [];
    assert MadD().instruction.opcode != AddD().instruction.opcode;
  }

  lemma SecondRunMul(u: ScanState)
    requires u == Start([MulD(), AddD()], map["x" := 5])
    ensures Step(u, 0) == ScanState([MadD(), AddD()], map["x" := 5], {AddD()}, false, DefaultOperand)
  {
    SecondRunFolds(u);
    assert Fusable(MulD().instruction, AddD().instruction);
    var fused := Fused(u, 0);
    assert fused.statements == [MadD(), AddD()];
    assert Paired(fused, 0) == fused;
  }

  lemma SecondRunFolds(u: ScanState)
    requires u == Start([MulD(), AddD()], map["x" := 5])
    ensures FoldAt(Record(u, 0), 0) == u
  {
    assert Record(u, 0) == u;
    assert Fold(MulD().instruction, u.constants).operands == MulD().instruction.operands;
  }

  lemma SecondRunAdd(u: ScanState)
    requires |u.statements| == 2 && u.statements[1] == AddD() && u.constants == map["x" := 5]
    ensures Step(u, 1) == u
  {
    assert Fold(AddD().instruction, u.constants).operands == AddD().instruction.operands;
  }

  /** `optimize` is not idempotent: on `SeparatedMultiplyAdd` the fusion
      looks only at the next statement, so the first run cannot fuse and
      only erases the move, after which a second run on its output fuses
      the multiply with the add and drops the add. */
  lemma OptimizeNotIdempotent()
    ensures var once := Optimize(SeparatedMultiplyAdd(), map[]);
      Optimize(once.0, once.1).0 != once.0
  {
    FirstRunKeepsPair();
    SecondRunFuses();
  }
}
