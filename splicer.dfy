/** The splicers: how prepared statements are inserted into the blocks of
    the kernel's dataflow graph, and the three ways a translation block is
    applied to the kernel (before every matching instruction, once per
    basic block, once per kernel), plus the one-off `%ctaid.x` adjustment.
    The graph is a sequence of blocks with an entry block first and an exit
    block last; the register counter and `newRegisterMap` travel with it. */
module Splicer {
  import opened Ptx
  import opened Vocabulary
  import opened Translation
  import opened Matcher
  import opened Rewriter

  /** What the splicers change: the blocks of the graph, and the register
      state (`newRegisterMap` and the graph's register counter). */
  datatype World = World(blocks: seq<BasicBlock>, registers: Registers)

  /** The label a branch to the exit pseudo-label is sent to: that of the
      block before the exit block. A graph with fewer than two blocks has no
      such block; the model reads it as the empty label. */
  function ExitLabel(blocks: seq<BasicBlock>): string {
    if |blocks| >= 2 then blocks[|blocks| - 2].labelName else ""
  }

  /** `dfg().insert(block, ins, loc)`: `ins` becomes instruction `loc` of block `b`. */
  function InsertInto(blocks: seq<BasicBlock>, b: nat, loc: nat, ins: Instruction): (r: seq<BasicBlock>)
    requires b < |blocks| && loc <= |blocks[b].instructions|
    ensures |r| == |blocks| && r[b].labelName == blocks[b].labelName
    ensures r[b].instructions == InsertAt(blocks[b].instructions, loc, ins)
    ensures forall i :: 0 <= i < |r| && i != b ==> r[i] == blocks[i]
  {
    blocks[b := blocks[b].(instructions := InsertAt(blocks[b].instructions, loc, ins))]
  }

  /** The blocks agree except for the instructions of block `b`. */
  predicate SameBut(xs: seq<BasicBlock>, ys: seq<BasicBlock>, b: nat) {
    && |xs| == |ys|
    && (forall i :: 0 <= i < |xs| ==> xs[i].labelName == ys[i].labelName)
    && (forall i :: 0 <= i < |xs| && i != b ==> xs[i] == ys[i])
  }

  lemma SameButExitLabel(xs: seq<BasicBlock>, ys: seq<BasicBlock>, b: nat)
    requires SameBut(xs, ys, b)
    ensures ExitLabel(xs) == ExitLabel(ys)
  {
  }

  /** A statement preparer: `prepareStatementToInsert` given the static
      attributes, the exit label and the register state. The splicers take
      it as a parameter so that their properties hold whatever the
      rewriter does; the pass passes `Rewriter.Prepare`. */
  type Preparer = (Statement, StaticAttributes, string, Registers) -> Prepared

  /** The result of `insertBefore`: the new world and how many instructions it inserted. */
  datatype Spliced = Spliced(world: World, count: nat)

  /** The loop of `insertBefore` from statement `j` on, inserting at `loc`
      and having inserted `count` instructions so far. */
  function InsertFrom(prep: Preparer, statements: seq<Statement>, j: nat, attrs: StaticAttributes, w: World,
                      b: nat, loc: nat, count: nat): (r: Spliced)
    requires b < |w.blocks| && loc <= |w.blocks[b].instructions|
    ensures SameBut(r.world.blocks, w.blocks, b) && r.count >= count
    ensures |r.world.blocks[b].instructions| == |w.blocks[b].instructions| + (r.count - count)
    decreases |statements| - j, 1
  {
    if j >= |statements| then Spliced(w, count)
    else InsertStatement(prep, statements, j, attrs, w, b, loc, count)
  }

  /** One round of that loop, then the rest of it. Statements whose
      prepared instruction is a `nop` are skipped, but preparing them may
      still have bound registers. */
  function InsertStatement(prep: Preparer, statements: seq<Statement>, j: nat, attrs: StaticAttributes, w: World,
                           b: nat, loc: nat, count: nat): (r: Spliced)
    requires j < |statements| && b < |w.blocks| && loc <= |w.blocks[b].instructions|
    ensures SameBut(r.world.blocks, w.blocks, b) && r.count >= count
    ensures |r.world.blocks[b].instructions| == |w.blocks[b].instructions| + (r.count - count)
    decreases |statements| - j, 0
  {
    var p := prep(statements[j], attrs, ExitLabel(w.blocks), w.registers);
    if p.statement.instruction.opcode == Nop then
      InsertFrom(prep, statements, j + 1, attrs, World(w.blocks, p.registers), b, loc, count)
    else
      var blocks := InsertInto(w.blocks, b, loc, p.statement.instruction);
      InsertFrom(prep, statements, j + 1, attrs, World(blocks, p.registers), b, loc + 1, count + 1)
  }

  /** One statement of the insertion loop: preparing it gave `p`, it is
      `inserted` unless it became a `nop`, and `w'` is the world after it. */
  lemma InsertFromStep(prep: Preparer, statements: seq<Statement>, j: nat, attrs: StaticAttributes, w: World,
                       b: nat, loc: nat, count: nat, p: Prepared, inserted: bool, w': World)
    requires j < |statements| && b < |w.blocks| && loc <= |w.blocks[b].instructions|
    requires p == prep(statements[j], attrs, ExitLabel(w.blocks), w.registers)
    requires inserted == (p.statement.instruction.opcode != Nop)
    requires w' == World(if inserted then InsertInto(w.blocks, b, loc, p.statement.instruction) else w.blocks, p.registers)
    ensures var n := if inserted then 1 else 0;
      b < |w'.blocks| && loc + n <= |w'.blocks[b].instructions| &&
      InsertFrom(prep, statements, j, attrs, w, b, loc, count) == InsertFrom(prep, statements, j + 1, attrs, w', b, loc + n, count + n)
  {
  }

  /** `insertBefore(translationBlock, attributes, block, loc)`. */
  function InsertBefore(prep: Preparer, statements: seq<Statement>, attrs: StaticAttributes, w: World, b: nat, loc: nat): Spliced
    requires b < |w.blocks| && loc <= |w.blocks[b].instructions|
  {
    InsertFrom(prep, statements, 0, attrs, w, b, loc, 0)
  }

  /** The prepared instructions that are not `nop`, in order, and the
      register state after preparing every statement from `j` on. */
  function PreparedRun(prep: Preparer, statements: seq<Statement>, j: nat, attrs: StaticAttributes, exitLabel: string,
                       rs: Registers): (seq<Instruction>, Registers)
    decreases |statements| - j
  {
    if j >= |statements| then ([], rs)
    else
      var p := prep(statements[j], attrs, exitLabel, rs);
      var rest := PreparedRun(prep, statements, j + 1, attrs, exitLabel, p.registers);
      if p.statement.instruction.opcode == Nop then rest else ([p.statement.instruction] + rest.0, rest.1)
  }

  /** One statement of the prepared run. */
  lemma PreparedRunStep(prep: Preparer, statements: seq<Statement>, j: nat, attrs: StaticAttributes, exitLabel: string,
                        rs: Registers, p: Prepared, rest: (seq<Instruction>, Registers))
    requires j < |statements| && p == prep(statements[j], attrs, exitLabel, rs)
    requires rest == PreparedRun(prep, statements, j + 1, attrs, exitLabel, p.registers)
    ensures PreparedRun(prep, statements, j, attrs, exitLabel, rs)
         == if p.statement.instruction.opcode == Nop then rest else ([p.statement.instruction] + rest.0, rest.1)
  {
  }

  lemma InsertSeqAtCons<T>(s: seq<T>, i: nat, x: T, xs: seq<T>)
    requires i <= |s|
    ensures InsertSeqAt(InsertAt(s, i, x), i + 1, xs) == InsertSeqAt(s, i, [x] + xs)
  {
    var t := InsertAt(s, i, x);
    assert t[..i + 1] == s[..i] + [x];
    assert t[i + 1..] == s[i..];
  }

    /** `insertBefore` inserts the run of prepared non-`nop` instructions as
      one contiguous stretch starting at `loc`, in statement order, leaves
      every other block alone, and returns the length of the run. */
  lemma {:induction false} InsertFromRun(prep: Preparer, statements: seq<Statement>, j: nat, attrs: StaticAttributes, w: World,
                                         b: nat, loc: nat, count: nat)
    requires b < |w.blocks| && loc <= |w.blocks[b].instructions|
    ensures var run := PreparedRun(prep, statements, j, attrs, ExitLabel(w.blocks), w.registers);
      var r := InsertFrom(prep, statements, j, attrs, w, b, loc, count);
      && r.world.blocks[b].instructions == InsertSeqAt(w.blocks[b].instructions, loc, run.0)
      && r.world.registers == run.1
      && r.count == count + |run.0|
    decreases |statements| - j, 1
  {
    if j >= |statements| {
      assert InsertSeqAt(w.blocks[b].instructions, loc, []) == w.blocks[b].instructions;
    } else {
      var p := prep(statements[j], attrs, ExitLabel(w.blocks), w.registers);
      if p.statement.instruction.opcode == Nop {
        RunSkipping(prep, statements, j, attrs, w, b, loc, count, p);
      } else {
        RunInserting(prep, statements, j, attrs, w, b, loc, count, p);
      }
    }
  }

  /** `InsertFromRun` at a statement prepared to a `nop`. */
  lemma {:induction false} RunSkipping(prep: Preparer, statements: seq<Statement>, j: nat, attrs: StaticAttributes, w: World,
                                       b: nat, loc: nat, count: nat, p: Prepared)
    requires j < |statements| && b < |w.blocks| && loc <= |w.blocks[b].instructions|
    requires p == prep(statements[j], attrs, ExitLabel(w.blocks), w.registers) && p.statement.instruction.opcode == Nop
    ensures var run := PreparedRun(prep, statements, j, attrs, ExitLabel(w.blocks), w.registers);
      var r := InsertFrom(prep, statements, j, attrs, w, b, loc, count);
      && r.world.blocks[b].instructions == InsertSeqAt(w.blocks[b].instructions, loc, run.0)
      && r.world.registers == run.1
      && r.count == count + |run.0|
    decreases |statements| - j, 0
  {
    var w1 := World(w.blocks, p.registers);
    InsertFromStep(prep, statements, j, attrs, w, b, loc, count, p, false, w1);
    InsertFromRun(prep, statements, j + 1, attrs, w1, b, loc, count);
    var exit := ExitLabel(w.blocks);
    PreparedRunStep(prep, statements, j, attrs, exit, w.registers, p, PreparedRun(prep, statements, j + 1, attrs, exit, p.registers));
  }

  /** `InsertFromRun` at a statement prepared to an instruction. */
  lemma {:induction false} RunInserting(prep: Preparer, statements: seq<Statement>, j: nat, attrs: StaticAttributes, w: World,
                                        b: nat, loc: nat, count: nat, p: Prepared)
    requires j < |statements| && b < |w.blocks| && loc <= |w.blocks[b].instructions|
    requires p == prep(statements[j], attrs, ExitLabel(w.blocks), w.registers) && p.statement.instruction.opcode != Nop
    ensures var run := PreparedRun(prep, statements, j, attrs, ExitLabel(w.blocks), w.registers);
      var r := InsertFrom(prep, statements, j, attrs, w, b, loc, count);
      && r.world.blocks[b].instructions == InsertSeqAt(w.blocks[b].instructions, loc, run.0)
      && r.world.registers == run.1
      && r.count == count + |run.0|
    decreases |statements| - j, 0
  {
    var ins := p.statement.instruction;
    var w1 := World(InsertInto(w.blocks, b, loc, ins), p.registers);
    InsertFromStep(prep, statements, j, attrs, w, b, loc, count, p, true, w1);
    SameButExitLabel(w1.blocks, w.blocks, b);
    InsertFromRun(prep, statements, j + 1, attrs, w1, b, loc + 1, count + 1);
    var exit := ExitLabel(w.blocks);
    var rest := PreparedRun(prep, statements, j + 1, attrs, exit, p.registers);
    PreparedRunStep(prep, statements, j, attrs, exit, w.registers, p, rest);
    InsertSeqAtCons(w.blocks[b].instructions, loc, ins, rest.0);
  }

  /** The loop of `insertAfter` from statement `j` on. It pre-increments
      `loc`, so the first instruction lands at `loc + 1`. */
  function InsertAfterFrom(prep: Preparer, statements: seq<Statement>, j: nat, attrs: StaticAttributes, w: World,
                           b: nat, loc: nat): (r: World)
    requires b < |w.blocks| && loc < |w.blocks[b].instructions|
    ensures SameBut(r.blocks, w.blocks, b)
    ensures |r.blocks[b].instructions| >= |w.blocks[b].instructions|
    decreases |statements| - j
  {
    if j >= |statements| then w
    else
      var p := prep(statements[j], attrs, ExitLabel(w.blocks), w.registers);
      if p.statement.instruction.opcode == Nop then
        InsertAfterFrom(prep, statements, j + 1, attrs, World(w.blocks, p.registers), b, loc)
      else
        var blocks := InsertInto(w.blocks, b, loc + 1, p.statement.instruction);
        InsertAfterFrom(prep, statements, j + 1, attrs, World(blocks, p.registers), b, loc + 1)
  }

  /** `insertAfter(translationBlock, attributes, block, loc)`. */
  function InsertAfter(prep: Preparer, statements: seq<Statement>, attrs: StaticAttributes, w: World, b: nat, loc: nat): World
    requires b < |w.blocks| && loc < |w.blocks[b].instructions|
  {
    InsertAfterFrom(prep, statements, 0, attrs, w, b, loc)
  }

  /** `insertAfter` at `loc` does what `insertBefore` does at `loc + 1`. */
  lemma {:induction false} InsertAfterIsBeforeNext(prep: Preparer, statements: seq<Statement>, j: nat, attrs: StaticAttributes,
                                                   w: World, b: nat, loc: nat, count: nat)
    requires b < |w.blocks| && loc < |w.blocks[b].instructions|
    ensures InsertAfterFrom(prep, statements, j, attrs, w, b, loc) == InsertFrom(prep, statements, j, attrs, w, b, loc + 1, count).world
    decreases |statements| - j
  {
    if j < |statements| {
      var p := prep(statements[j], attrs, ExitLabel(w.blocks), w.registers);
      if p.statement.instruction.opcode == Nop {
        var w1 := World(w.blocks, p.registers);
        InsertFromStep(prep, statements, j, attrs, w, b, loc + 1, count, p, false, w1);
        InsertAfterIsBeforeNext(prep, statements, j + 1, attrs, w1, b, loc, count);
      } else {
        var w1 := World(InsertInto(w.blocks, b, loc + 1, p.statement.instruction), p.registers);
        InsertFromStep(prep, statements, j, attrs, w, b, loc + 1, count, p, true, w1);
        InsertAfterIsBeforeNext(prep, statements, j + 1, attrs, w1, b, loc + 1, count + 1);
      }
    }
  }

  // `insertAt`: the one-off adjustment after the first `%ctaid.x` read.

  /** The first instruction from `k` on whose first source is `%ctaid.x`. */
  function FirstCtaid(instrs: seq<Instruction>, k: nat): (r: Option<nat>)
    ensures r.Some? ==> k <= r.value < |instrs| && instrs[r.value].Op(A).identifier == CtaIdX
    ensures r.Some? ==> forall i :: k <= i < r.value ==> instrs[i].Op(A).identifier != CtaIdX
    ensures r.None? ==> forall i :: k <= i < |instrs| ==> instrs[i].Op(A).identifier != CtaIdX
    decreases |instrs| - k
  {
    if k >= |instrs| then None
    else if instrs[k].Op(A).identifier == CtaIdX then Some(k)
    else FirstCtaid(instrs, k + 1)
  }

  /** Where the first loop of `insertAt` leaves `bIndexToInsert`,
      `iIndexToInsert` and the destination operand: after the first
      `%ctaid.x` read of the last block among the first `n` that has one, or
      block 0, index 0 and no name when there is none. */
  datatype CtaidSpot = CtaidSpot(block: nat, index: nat, dest: string)

  function CtaidTarget(blocks: seq<BasicBlock>, n: nat): (r: CtaidSpot)
    requires n <= |blocks|
    ensures r.block < n || r == CtaidSpot(0, 0, "")
  {
    if n == 0 then CtaidSpot(0, 0, "")
    else
      match FirstCtaid(blocks[n - 1].instructions, 0)
      case Some(k) => CtaidSpot(n - 1, k + 1, blocks[n - 1].instructions[k].Op(D).identifier)
      case None => CtaidTarget(blocks, n - 1)
  }

  /** `add.u32 d, d, 64` over the destination of the `%ctaid.x` read. */
  function CtaidAdd(dest: string): Instruction {
    var d := DefaultOperand.(addressMode := Register, dataType := U32, identifier := dest);
    var b := DefaultOperand.(addressMode := Immediate, dataType := U32, imm := 64);
    DefaultInstruction.(opcode := Add, dataType := U32, operands := [d, b, DefaultOperand, d, DefaultOperand])
  }

  /** `insertAt()`. The second loop only inserts when it meets an
      instruction at `iIndexToInsert`, so a `%ctaid.x` read that ends its
      block gets no add. */
  function InsertAtCtaid(blocks: seq<BasicBlock>): seq<BasicBlock> {
    var t := CtaidTarget(blocks, |blocks|);
    if t.block < |blocks| && t.index < |blocks[t.block].instructions|
    then InsertInto(blocks, t.block, t.index, CtaidAdd(t.dest))
    else blocks
  }

  predicate HasCtaid(b: BasicBlock) {
    exists i :: 0 <= i < |b.instructions| && b.instructions[i].Op(A).identifier == CtaIdX
  }

  /** The search settles on the last block with a `%ctaid.x` read, just
      after the first such read in it. */
  lemma {:induction false} CtaidTargetIsLast(blocks: seq<BasicBlock>, n: nat)
    requires n <= |blocks|
    ensures var t := CtaidTarget(blocks, n);
      && ((exists b :: 0 <= b < n && HasCtaid(blocks[b])) ==>
            && t.block < n && HasCtaid(blocks[t.block])
            && (forall b :: t.block < b < n ==> !HasCtaid(blocks[b]))
            && 0 < t.index <= |blocks[t.block].instructions|
            && FirstCtaid(blocks[t.block].instructions, 0) == Some(t.index - 1)
            && t.dest == blocks[t.block].instructions[t.index - 1].Op(D).identifier)
      && ((forall b :: 0 <= b < n ==> !HasCtaid(blocks[b])) ==> t == CtaidSpot(0, 0, ""))
    decreases n
  {
    if n > 0 {
      var f := FirstCtaid(blocks[n - 1].instructions, 0);
      if f.None? {
        assert !HasCtaid(blocks[n - 1]);
        CtaidTargetIsLast(blocks, n - 1);
      }
    }
  }

  /** `insertAt` adds `add.u32 d, d, 64` right after the first `%ctaid.x`
      read of the last block that has one, unless that read ends its block,
      and changes nothing else. */
  lemma CtaidAddInserted(blocks: seq<BasicBlock>, b: nat, k: nat)
    requires b < |blocks| && HasCtaid(blocks[b]) && forall c :: b < c < |blocks| ==> !HasCtaid(blocks[c])
    requires FirstCtaid(blocks[b].instructions, 0) == Some(k)
    ensures var r := InsertAtCtaid(blocks);
      var instrs := blocks[b].instructions;
      && (k + 1 < |instrs| ==>
            r == InsertInto(blocks, b, k + 1, CtaidAdd(instrs[k].Op(D).identifier)))
      && (k + 1 == |instrs| ==> r == blocks)
  {
    CtaidTargetIsLast(blocks, |blocks|);
  }

  /** Without a `%ctaid.x` read anywhere, `insertAt` changes nothing unless
      the entry block has instructions, in which case an add over the empty
      name goes first in it. */
  lemma NoCtaid(blocks: seq<BasicBlock>)
    requires forall b :: 0 <= b < |blocks| ==> !HasCtaid(blocks[b])
    ensures |blocks| > 0 && |blocks[0].instructions| > 0 ==> InsertAtCtaid(blocks) == InsertInto(blocks, 0, 0, CtaidAdd(""))
    ensures (|blocks| == 0 || |blocks[0].instructions| == 0) ==> InsertAtCtaid(blocks) == blocks
  {
    CtaidTargetIsLast(blocks, |blocks|);
  }

  // `instrumentKernel` and `kernelInstructionCount`.

  /** `kernelInstructionCount`, returned as an `unsigned int`. */
  function KernelInstructionCount(spec: Specifier, blocks: seq<BasicBlock>): (r: nat)
    ensures r < 0x1_0000_0000
    ensures KernelCount(spec, blocks) < 0x1_0000_0000 ==> r == KernelCount(spec, blocks)
  {
    KernelCount(spec, blocks) % 0x1_0000_0000
  }

  /** The last block below `n` with instructions: the walk back from the
      exit block. */
  function LastNonEmpty(blocks: seq<BasicBlock>, n: nat): (r: Option<nat>)
    requires n <= |blocks|
    ensures r.Some? ==> r.value < n && |blocks[r.value].instructions| > 0
    ensures r.Some? ==> forall b :: r.value < b < n ==> |blocks[b].instructions| == 0
    ensures r.None? ==> forall b :: 0 <= b < n ==> |blocks[b].instructions| == 0
  {
    if n == 0 then None
    else if |blocks[n - 1].instructions| > 0 then Some(n - 1)
    else LastNonEmpty(blocks, n - 1)
  }

  /** The attributes `instrumentKernel` prepares with. */
  function KernelAttributes(spec: Specifier, blocks: seq<BasicBlock>): StaticAttributes {
    ZeroAttributes.(basicBlockCount := BasicBlockCount(|blocks|),
                    kernelInstructionCount := KernelInstructionCount(spec, blocks))
  }

  /** An insertion point: instruction `loc` of block `block`. */
  datatype Spot = Spot(block: nat, loc: nat)

  /** Where `instrumentKernel` inserts, if anywhere: before the last
      instruction of the last non-empty block for `EXIT_KERNEL`, at the start
      of the block after the entry block otherwise. An empty graph is
      skipped. Walking back past the entry block, or a graph with a single
      block, has no defined target; the model inserts nothing then. */
  function KernelSpot(marker: string, blocks: seq<BasicBlock>): (r: Option<Spot>)
    ensures r.Some? ==> r.value.block < |blocks| && r.value.loc <= |blocks[r.value.block].instructions|
  {
    if |blocks| == 0 then None
    else if marker == ExitKernel then
      match LastNonEmpty(blocks, |blocks|)
      case Some(b) => Some(Spot(b, |blocks[b].instructions| - 1))
      case None => None
    else if |blocks| > 1 then Some(Spot(1, 0))
    else None
  }

  /** `instrumentKernel(translationBlock)`. */
  function InstrumentKernel(prep: Preparer, tb: TranslationBlock, w: World): World {
    match KernelSpot(tb.labelName, w.blocks)
    case Some(s) => InsertBefore(prep, tb.statements, KernelAttributes(tb.specifier, w.blocks), w, s.block, s.loc).world
    case None => w
  }

  /** `instrumentKernel` leaves an empty graph alone; for `EXIT_KERNEL` it
      inserts the prepared run just before the last instruction of the last
      non-empty block, and otherwise at the start of the block after the
      entry block. */
  lemma KernelInserted(prep: Preparer, tb: TranslationBlock, w: World)
    ensures |w.blocks| == 0 ==> InstrumentKernel(prep, tb, w) == w
    ensures tb.labelName == ExitKernel && |w.blocks| > 0 ==>
      match LastNonEmpty(w.blocks, |w.blocks|)
      case None => InstrumentKernel(prep, tb, w) == w
      case Some(b) =>
        var instrs := w.blocks[b].instructions;
        var run := PreparedRun(prep, tb.statements, 0, KernelAttributes(tb.specifier, w.blocks), ExitLabel(w.blocks), w.registers);
        && (forall c :: b < c < |w.blocks| ==> |w.blocks[c].instructions| == 0)
        && InstrumentKernel(prep, tb, w).blocks[b].instructions == InsertSeqAt(instrs, |instrs| - 1, run.0)
        && SameBut(InstrumentKernel(prep, tb, w).blocks, w.blocks, b)
    ensures tb.labelName != ExitKernel && |w.blocks| > 1 ==>
      var run := PreparedRun(prep, tb.statements, 0, KernelAttributes(tb.specifier, w.blocks), ExitLabel(w.blocks), w.registers);
      && InstrumentKernel(prep, tb, w).blocks[1].instructions == InsertSeqAt(w.blocks[1].instructions, 0, run.0)
      && SameBut(InstrumentKernel(prep, tb, w).blocks, w.blocks, 1)
  {
    var attrs := KernelAttributes(tb.specifier, w.blocks);
    match KernelSpot(tb.labelName, w.blocks)
    case Some(s) => InsertFromRun(prep, tb.statements, 0, attrs, w, s.block, s.loc, 0);
    case None =>
  }

  // `instrumentInstruction`.

  /** What the splicing loops carry from one step to the next: the world
      and the static attributes. */
  datatype Progress = Progress(world: World, attrs: StaticAttributes)

  /** One iteration of the instruction loop of `instrumentInstruction`
      over block `b`, at original instruction `k`, which now sits at index
      `loc` of the block. A matching instruction gets the prepared
      statements inserted at `loc`, so that they end just before it; `loc`
      then moves past the inserted run and past the instruction itself. */
  datatype Advanced = Advanced(attrs: StaticAttributes, world: World, loc: nat)

  function Advance(prep: Preparer, tb: TranslationBlock, instrs: seq<Instruction>, k: nat, attrs: StaticAttributes,
                   w: World, b: nat, loc: nat): (r: Advanced)
    requires k < |instrs| && b < |w.blocks| && loc + (|instrs| - k) == |w.blocks[b].instructions|
    ensures b < |r.world.blocks| && r.loc + (|instrs| - (k + 1)) == |r.world.blocks[b].instructions|
    ensures SameBut(r.world.blocks, w.blocks, b)
    ensures r.attrs == attrs.(originalInstruction := instrs[k], instructionId := r.attrs.instructionId)
  {
    var a := attrs.(originalInstruction := instrs[k]);
    if ConditionsMet(tb.specifier, instrs[k]) then
      var sp := InsertBefore(prep, tb.statements, a, w, b, loc);
      Advanced(a.(instructionId := a.instructionId + 1), sp.world, loc + sp.count + 1)
    else Advanced(a, w, loc + 1)
  }

  /** The instruction loop from original instruction `k` on. */
  function InstrumentInstructionsFrom(prep: Preparer, tb: TranslationBlock, instrs: seq<Instruction>, k: nat,
                                      attrs: StaticAttributes, w: World, b: nat, loc: nat): (r: Progress)
    requires k <= |instrs| && b < |w.blocks| && loc + (|instrs| - k) == |w.blocks[b].instructions|
    ensures SameBut(r.world.blocks, w.blocks, b)
    ensures r.attrs == attrs.(originalInstruction := r.attrs.originalInstruction, instructionId := r.attrs.instructionId)
    decreases |instrs| - k
  {
    if k == |instrs| then Progress(w, attrs)
    else
      var r := Advance(prep, tb, instrs, k, attrs, w, b, loc);
      InstrumentInstructionsFrom(prep, tb, instrs, k + 1, r.attrs, r.world, b, r.loc)
  }

  /** The block loop of `instrumentInstruction` from block `b` on. Empty
      blocks are skipped without advancing the block id. */
  function InstrumentBlocksFrom(prep: Preparer, tb: TranslationBlock, b: nat, attrs: StaticAttributes, w: World): (r: Progress)
    ensures |r.world.blocks| == |w.blocks|
    ensures forall c :: 0 <= c < |w.blocks| ==> r.world.blocks[c].labelName == w.blocks[c].labelName
    ensures forall c :: 0 <= c < |w.blocks| && (c < b || |w.blocks[c].instructions| == 0) ==> r.world.blocks[c] == w.blocks[c]
    decreases |w.blocks| - b
  {
    if b >= |w.blocks| then Progress(w, attrs)
    else if |w.blocks[b].instructions| == 0 then InstrumentBlocksFrom(prep, tb, b + 1, attrs, w)
    else
      var instrs := w.blocks[b].instructions;
      var p := InstrumentInstructionsFrom(prep, tb, instrs, 0, attrs.(basicBlockInstructionCount := |instrs|, instructionId := 0),
                                          w, b, 0);
      InstrumentBlocksFrom(prep, tb, b + 1, p.attrs.(basicBlockId := p.attrs.basicBlockId + 1), p.world)
  }

  /** One iteration of the block loop over a block with instructions. */
  lemma InstrumentBlocksNext(prep: Preparer, tb: TranslationBlock, b: nat, attrs: StaticAttributes, w: World, p: Progress)
    requires b < |w.blocks| && |w.blocks[b].instructions| > 0
    requires p == InstrumentInstructionsFrom(prep, tb, w.blocks[b].instructions, 0,
                    attrs.(basicBlockInstructionCount := |w.blocks[b].instructions|, instructionId := 0), w, b, 0)
    ensures |p.world.blocks| == |w.blocks|
    ensures InstrumentBlocksFrom(prep, tb, b, attrs, w)
         == InstrumentBlocksFrom(prep, tb, b + 1, p.attrs.(basicBlockId := p.attrs.basicBlockId + 1), p.world)
  {
  }

  /** The attributes `instrumentInstruction` starts with, over the blocks as
      `insertAt` left them. */
  function InstructionAttributes(spec: Specifier, blocks: seq<BasicBlock>): StaticAttributes {
    ZeroAttributes.(kernelInstructionCount := KernelInstructionCount(spec, blocks),
                    basicBlockCount := BasicBlockCount(|blocks|))
  }

  /** `instrumentInstruction(translationBlock)`: the `%ctaid.x` adjustment,
      then the blocks after the entry block, one instruction at a time. */
  function InstrumentInstruction(prep: Preparer, tb: TranslationBlock, w: World): World {
    var blocks := InsertAtCtaid(w.blocks);
    InstrumentBlocksFrom(prep, tb, 1, InstructionAttributes(tb.specifier, blocks), w.(blocks := blocks)).world
  }

  /** The reference reading of the instruction loop: each original
      instruction, preceded by the prepared run of the translation block
      when it matches, with the instruction id counting the matches so far
      and the instrumented instruction as the original instruction. It also
      gives the register state after the last run. */
  function Woven(prep: Preparer, tb: TranslationBlock, instrs: seq<Instruction>, k: nat, attrs: StaticAttributes,
                 exitLabel: string, rs: Registers): (seq<Instruction>, Registers)
    decreases |instrs| - k
  {
    if k >= |instrs| then ([], rs)
    else
      var a := attrs.(originalInstruction := instrs[k]);
      if ConditionsMet(tb.specifier, instrs[k]) then
        var run := PreparedRun(prep, tb.statements, 0, a, exitLabel, rs);
        var rest := Woven(prep, tb, instrs, k + 1, a.(instructionId := a.instructionId + 1), exitLabel, run.1);
        (run.0 + [instrs[k]] + rest.0, rest.1)
      else
        var rest := Woven(prep, tb, instrs, k + 1, a, exitLabel, rs);
        ([instrs[k]] + rest.0, rest.1)
  }

  /** The number of instructions of `xs` the specifier accepts. */
  function Matches(spec: Specifier, xs: seq<Instruction>): (r: nat)
    ensures r <= |xs|
  {
    if |xs| == 0 then 0 else (if ConditionsMet(spec, xs[0]) then 1 else 0) + Matches(spec, xs[1..])
  }

  /** A run inserted at `loc` ahead of the instruction there: the block up
      to and including that instruction, and the block after it. */
  lemma RunLayout(block: seq<Instruction>, loc: nat, run: seq<Instruction>)
    requires loc < |block|
    ensures var grown := block[..loc] + run + block[loc..];
      && grown[..loc + |run| + 1] == block[..loc] + run + [block[loc]]
      && grown[loc + |run| + 1..] == block[loc + 1..]
  {
    var grown := block[..loc] + run + block[loc..];
    assert grown[..loc + |run| + 1] == block[..loc] + run + block[loc..][..1];
    assert grown[loc + |run| + 1..] == block[loc..][1..];
  }

  /** The instruction loop keeps every instruction before `loc` and replaces
      the rest of the block by the woven instructions: each matching
      instruction gets exactly one prepared run, immediately before it. The
      instruction id ends advanced by the number of matches. */
  lemma {:induction false} InstructionsWoven(prep: Preparer, tb: TranslationBlock, instrs: seq<Instruction>, k: nat,
                                             attrs: StaticAttributes, w: World, b: nat, loc: nat)
    requires k <= |instrs| && b < |w.blocks| && loc + (|instrs| - k) == |w.blocks[b].instructions|
    requires w.blocks[b].instructions[loc..] == instrs[k..]
    ensures var r := InstrumentInstructionsFrom(prep, tb, instrs, k, attrs, w, b, loc);
      var wv := Woven(prep, tb, instrs, k, attrs, ExitLabel(w.blocks), w.registers);
      && r.world.blocks[b].instructions == w.blocks[b].instructions[..loc] + wv.0
      && r.world.registers == wv.1
      && r.attrs.instructionId == attrs.instructionId + Matches(tb.specifier, instrs[k..])
    decreases |instrs| - k, 1
  {
    var block := w.blocks[b].instructions;
    if k == |instrs| {
      assert block[..loc] == block;
    } else {
      assert instrs[k..][1..] == instrs[k + 1..];
      assert block[loc] == instrs[k] && block[loc + 1..] == instrs[k + 1..] by {
        assert block[loc..][0] == instrs[k..][0];
        assert block[loc..][1..] == instrs[k..][1..];
      }
      var a := attrs.(originalInstruction := instrs[k]);
      if ConditionsMet(tb.specifier, instrs[k]) {
        WovenAtMatch(prep, tb, instrs, k, attrs, w, b, loc);
      } else {
        assert block[..loc + 1] == block[..loc] + [instrs[k]];
        InstructionsWoven(prep, tb, instrs, k + 1, a, w, b, loc + 1);
      }
    }
  }

  /** The step of `InstructionsWoven` at a matching instruction. */
  lemma {:induction false} WovenAtMatch(prep: Preparer, tb: TranslationBlock, instrs: seq<Instruction>, k: nat,
                                        attrs: StaticAttributes, w: World, b: nat, loc: nat)
    requires k < |instrs| && b < |w.blocks| && loc + (|instrs| - k) == |w.blocks[b].instructions|
    requires w.blocks[b].instructions[loc..] == instrs[k..]
    requires ConditionsMet(tb.specifier, instrs[k])
    ensures var r := InstrumentInstructionsFrom(prep, tb, instrs, k, attrs, w, b, loc);
      var wv := Woven(prep, tb, instrs, k, attrs, ExitLabel(w.blocks), w.registers);
      && r.world.blocks[b].instructions == w.blocks[b].instructions[..loc] + wv.0
      && r.world.registers == wv.1
      && r.attrs.instructionId == attrs.instructionId + Matches(tb.specifier, instrs[k..])
    decreases |instrs| - k, 0
  {
    var a := attrs.(originalInstruction := instrs[k]);
    var exitLabel := ExitLabel(w.blocks);
    var run := PreparedRun(prep, tb.statements, 0, a, exitLabel, w.registers);
    AdvanceAtMatch(prep, tb, instrs, k, attrs, w, b, loc);
    var step := Advance(prep, tb, instrs, k, attrs, w, b, loc);
    var rest := Woven(prep, tb, instrs, k + 1, step.attrs, exitLabel, run.1);
    WovenMatch(prep, tb, instrs, k, attrs, exitLabel, w.registers);
    InstructionsWoven(prep, tb, instrs, k + 1, step.attrs, step.world, b, step.loc);
    var r := InstrumentInstructionsFrom(prep, tb, instrs, k + 1, step.attrs, step.world, b, step.loc);
    assert InstrumentInstructionsFrom(prep, tb, instrs, k, attrs, w, b, loc) == r;
    var block := w.blocks[b].instructions;
    var head := step.world.blocks[b].instructions[..step.loc];
    assert ExitLabel(step.world.blocks) == exitLabel && step.world.registers == run.1;
    assert r.world.blocks[b].instructions == head + rest.0;
    assert head == block[..loc] + (run.0 + [instrs[k]]);
    Associative(block[..loc], run.0 + [instrs[k]], rest.0);
    assert instrs[k..][1..] == instrs[k + 1..];
  }

  /** `Woven` at a matching instruction. */
  lemma WovenMatch(prep: Preparer, tb: TranslationBlock, instrs: seq<Instruction>, k: nat, attrs: StaticAttributes,
                   exitLabel: string, rs: Registers)
    requires k < |instrs| && ConditionsMet(tb.specifier, instrs[k])
    ensures var a := attrs.(originalInstruction := instrs[k]);
      var run := PreparedRun(prep, tb.statements, 0, a, exitLabel, rs);
      var rest := Woven(prep, tb, instrs, k + 1, a.(instructionId := a.instructionId + 1), exitLabel, run.1);
      Woven(prep, tb, instrs, k, attrs, exitLabel, rs) == (run.0 + [instrs[k]] + rest.0, rest.1)
  {
  }

  /** One iteration at a matching instruction: the prepared run goes in
      just before the instruction, and the loop resumes right after it. */
  lemma AdvanceAtMatch(prep: Preparer, tb: TranslationBlock, instrs: seq<Instruction>, k: nat,
                       attrs: StaticAttributes, w: World, b: nat, loc: nat)
    requires k < |instrs| && b < |w.blocks| && loc + (|instrs| - k) == |w.blocks[b].instructions|
    requires w.blocks[b].instructions[loc..] == instrs[k..]
    requires ConditionsMet(tb.specifier, instrs[k])
    ensures var a := attrs.(originalInstruction := instrs[k]);
      var run := PreparedRun(prep, tb.statements, 0, a, ExitLabel(w.blocks), w.registers);
      var r := Advance(prep, tb, instrs, k, attrs, w, b, loc);
      && r.attrs == a.(instructionId := a.instructionId + 1)
      && r.world.registers == run.1
      && ExitLabel(r.world.blocks) == ExitLabel(w.blocks)
      && r.world.blocks[b].instructions[..r.loc] == w.blocks[b].instructions[..loc] + run.0 + [instrs[k]]
      && r.world.blocks[b].instructions[r.loc..] == instrs[k + 1..]
  {
    var block := w.blocks[b].instructions;
    assert block[loc] == instrs[k] && block[loc + 1..] == instrs[k + 1..] by {
      assert instrs[k..][1..] == instrs[k + 1..];
      assert block[loc..][0] == instrs[k..][0];
      assert block[loc..][1..] == instrs[k..][1..];
    }
    var a := attrs.(originalInstruction := instrs[k]);
    var sp := InsertBefore(prep, tb.statements, a, w, b, loc);
    InsertFromRun(prep, tb.statements, 0, a, w, b, loc, 0);
    RunLayout(block, loc, PreparedRun(prep, tb.statements, 0, a, ExitLabel(w.blocks), w.registers).0);
    SameButExitLabel(sp.world.blocks, w.blocks, b);
  }

  /** The iteration of the block loop at a non-empty block weaves it from
      instruction id 0, with the block's size as its instruction count, and
      no later iteration touches it again. */
  lemma BlockWoven(prep: Preparer, tb: TranslationBlock, b: nat, attrs: StaticAttributes, w: World)
    requires b < |w.blocks| && |w.blocks[b].instructions| > 0
    ensures var instrs := w.blocks[b].instructions;
      var a := attrs.(basicBlockInstructionCount := |instrs|, instructionId := 0);
      InstrumentBlocksFrom(prep, tb, b, attrs, w).world.blocks[b].instructions
        == Woven(prep, tb, instrs, 0, a, ExitLabel(w.blocks), w.registers).0
  {
    var instrs := w.blocks[b].instructions;
    var a := attrs.(basicBlockInstructionCount := |instrs|, instructionId := 0);
    InstructionsWoven(prep, tb, instrs, 0, a, w, b, 0);
    assert instrs[..0] == [];
  }

  /** The number of blocks of `blocks` with instructions. */
  function NonEmptyBlocks(blocks: seq<BasicBlock>): (r: nat)
    ensures r <= |blocks|
  {
    if |blocks| == 0 then 0 else (if |blocks[0].instructions| > 0 then 1 else 0) + NonEmptyBlocks(blocks[1..])
  }

  /** The block id advances once per non-empty block and never on an empty one. */
  lemma {:induction false} BlockIdsCounted(prep: Preparer, tb: TranslationBlock, b: nat, attrs: StaticAttributes, w: World)
    requires b <= |w.blocks|
    ensures InstrumentBlocksFrom(prep, tb, b, attrs, w).attrs.basicBlockId == attrs.basicBlockId + NonEmptyBlocks(w.blocks[b..])
    decreases |w.blocks| - b
  {
    if b == |w.blocks| {
      assert w.blocks[b..] == [];
    } else {
      assert w.blocks[b..][1..] == w.blocks[b + 1..];
      if |w.blocks[b].instructions| == 0 {
        BlockIdsCounted(prep, tb, b + 1, attrs, w);
      } else {
        var instrs := w.blocks[b].instructions;
        var p := InstrumentInstructionsFrom(prep, tb, instrs, 0, attrs.(basicBlockInstructionCount := |instrs|, instructionId := 0),
                                            w, b, 0);
        assert p.world.blocks[b + 1..] == w.blocks[b + 1..];
        BlockIdsCounted(prep, tb, b + 1, p.attrs.(basicBlockId := p.attrs.basicBlockId + 1), p.world);
      }
    }
  }

  // `instrumentBasicBlock`.

  /** How an instruction of the translation block names an executed-count
      placeholder: the first of its three sources that names one decides. */
  datatype Mention = NoMention | ExecutedMention | PredicatedMention

  function SourceMention(o: Operand): Mention {
    if o.identifier == BasicBlockExecInstCountName then ExecutedMention
    else if o.identifier == BasicBlockPredInstCountName then PredicatedMention
    else NoMention
  }

  function MentionOf(ins: Instruction): Mention {
    if SourceMention(ins.Op(A)) != NoMention then SourceMention(ins.Op(A))
    else if SourceMention(ins.Op(B)) != NoMention then SourceMention(ins.Op(B))
    else SourceMention(ins.Op(C))
  }

  /** Where the placeholder search leaves `position`, `isPredInstCount` and
      `guard`: the search does not stop at a match, so the position is the
      last mentioning statement; the flag stays set once a warp-level count
      is seen, and the guard is that of the last such statement. */
  datatype Located = Located(position: Option<nat>, isPredInstCount: bool, guard: Operand)

  /** The placeholder search over the first `n` statements. */
  function Locate(statements: seq<Statement>, n: nat): (r: Located)
    requires n <= |statements|
    ensures r.position.Some? ==> r.position.value < n && MentionOf(statements[r.position.value].instruction) != NoMention
    ensures r.position.Some? ==> forall j :: r.position.value < j < n ==> MentionOf(statements[j].instruction) == NoMention
    ensures r.position.None? <==> forall j :: 0 <= j < n ==> MentionOf(statements[j].instruction) == NoMention
    ensures r.isPredInstCount <==> exists j :: 0 <= j < n && MentionOf(statements[j].instruction) == PredicatedMention
  {
    if n == 0 then Located(None, false, DefaultOperand)
    else
      var prev := Locate(statements, n - 1);
      match MentionOf(statements[n - 1].instruction)
      case NoMention => prev
      case ExecutedMention => prev.(position := Some(n - 1))
      case PredicatedMention => Located(Some(n - 1), true, statements[n - 1].instruction.Op(PG))
  }

  /** The type of the synthesised counters: `size_t` is taken to be 64 bits wide. */
  const CountType := U64

  /** `dfg().newRegister()` without binding a name. */
  function Fresh(rs: Registers): (r: Registers)
    ensures r.names == rs.names && r.maxRegister == rs.maxRegister + 1
  {
    rs.(maxRegister := rs.maxRegister + 1)
  }

  /** `ir::PTXStatement stmt(ir::PTXStatement::Instr)` holding `ins`. */
  function AsStatement(ins: Instruction): Statement {
    Statement(Instr, "", ins)
  }

  function AsStatements(xs: seq<Instruction>): (r: seq<Statement>)
    ensures |r| == |xs| && forall j :: 0 <= j < |xs| ==> r[j] == AsStatement(xs[j])
  {
    seq(|xs|, j requires 0 <= j < |xs| => AsStatement(xs[j]))
  }

  /** `selp.u64 p, 1, 0, g; add.u64 t, t, p`: add 1 to the counter `t` (the
      destination of the placeholder statement) when the guard `g` of the
      instrumented instruction holds. */
  function ScalarIdiom(ins: Instruction, counter: Operand, predCount: RegisterId): seq<Instruction> {
    var p := DefaultOperand.(dataType := CountType, addressMode := Register, reg := predCount);
    var one := DefaultOperand.(dataType := CountType, addressMode := Immediate, imm := 1);
    var zero := DefaultOperand.(dataType := CountType, addressMode := Immediate, imm := 0);
    var selp := DefaultInstruction.(opcode := SelP, dataType := CountType,
                                    operands := [one, zero, ins.Op(PG), p, DefaultOperand]);
    var add := DefaultInstruction.(opcode := Add, dataType := CountType,
                                   operands := [counter, p, DefaultOperand, counter, DefaultOperand]);
    [selp, add]
  }

  /** `@G vote.ballot.b32 v, g; @G popc.b32 n, v; @G cvt.u64.u32 m, n;
      @G add.u64 t, t, m`: add the number of threads of the warp whose guard
      `g` holds, all four under the placeholder statement's guard `G`. */
  function WarpIdiom(ins: Instruction, counter: Operand, guard: Operand,
                     predCount: RegisterId, popcResult: RegisterId, cvtResult: RegisterId): seq<Instruction> {
    var g := guard.(condition := Pred);
    var v := DefaultOperand.(dataType := B32, addressMode := Register, reg := predCount);
    var n := DefaultOperand.(dataType := U32, addressMode := Register, reg := popcResult);
    var m := DefaultOperand.(dataType := CountType, addressMode := Register, reg := cvtResult);
    var ballot := DefaultInstruction.(opcode := Vote, vote := Ballot, dataType := B32,
                                      operands := [ins.Op(PG), DefaultOperand, DefaultOperand, v, g]);
    var popc := DefaultInstruction.(opcode := Popc, dataType := B32, operands := [v, DefaultOperand, DefaultOperand, n, g]);
    var cvt := DefaultInstruction.(opcode := Cvt, dataType := CountType, operands := [n, DefaultOperand, DefaultOperand, m, g]);
    var add := DefaultInstruction.(opcode := Add, dataType := CountType, operands := [counter, m, DefaultOperand, counter, g]);
    [ballot, popc, cvt, add]
  }

  /** The counting idiom for a guarded instruction `ins`, with the
      placeholder statement found at `at`, as statements, and the register
      state after the registers it takes. */
  function Synthesize(ins: Instruction, at: Located, counter: Operand, rs: Registers): (r: (seq<Statement>, Registers))
    ensures |r.0| == (if at.isPredInstCount then 4 else 2)
    ensures r.1.names == rs.names && r.1.maxRegister == rs.maxRegister + |r.0| - 1
  {
    var predCount := rs.maxRegister + 1;
    var idiom := if at.isPredInstCount
      then WarpIdiom(ins, counter, at.guard, predCount, predCount + 1, predCount + 2)
      else ScalarIdiom(ins, counter, predCount);
    (AsStatements(idiom), rs.(maxRegister := rs.maxRegister + |idiom| - 1))
  }

  /** The state of the instruction scan of one block: the translation
      block's statements as extended so far, the registers, the matched and
      executed counts, and whether the scan threw. */
  datatype BlockScan = BlockScan(statements: seq<Statement>, registers: Registers, matched: nat, executed: nat, failed: bool)

  /** A guarded matching instruction under the predication check: the
      counting idiom goes right after the placeholder statement, and the
      scan throws when there is none. */
  function CountGuarded(ins: Instruction, st: BlockScan): (r: BlockScan)
    ensures r.matched == st.matched + 1 && r.executed == st.executed
    ensures |st.statements| <= |r.statements|
    ensures r.registers.names == st.registers.names && st.registers.maxRegister <= r.registers.maxRegister
    ensures r.failed <==> st.failed || Locate(st.statements, |st.statements|).position.None?
  {
    var at := Locate(st.statements, |st.statements|);
    if at.position.None? then st.(matched := st.matched + 1, failed := true)
    else
      var p := at.position.value;
      CountedAt(st, p, Synthesize(ins, at, st.statements[p].instruction.Op(D), st.registers))
  }

  /** The scan after the counting idiom `synthesized.0`, which left the
      registers at `synthesized.1`, went right after statement `p`. */
  function CountedAt(st: BlockScan, p: nat, synthesized: (seq<Statement>, Registers)): BlockScan
    requires p < |st.statements|
  {
    st.(statements := InsertSeqAt(st.statements, p + 1, synthesized.0), registers := synthesized.1,
        matched := st.matched + 1)
  }

  /** The scan of one instruction: a matching instruction counts as
      matched; a guarded one, when predication is checked, gets a counting
      idiom; any other matching instruction counts as executed. */
  function ScanStep(spec: Specifier, ins: Instruction, st: BlockScan): (r: BlockScan)
    ensures |st.statements| <= |r.statements|
    ensures r.registers.names == st.registers.names && st.registers.maxRegister <= r.registers.maxRegister
  {
    if !ConditionsMet(spec, ins) then st
    else if spec.checkForPredication && ins.IsGuarded() then CountGuarded(ins, st)
    else st.(matched := st.matched + 1, executed := st.executed + 1)
  }

  /** The instruction loop of `instrumentBasicBlock` over a block's
      instructions from `k` on, stopping at a throw. */
  function ScanBlock(tb: TranslationBlock, instrs: seq<Instruction>, k: nat, st: BlockScan): (r: BlockScan)
    ensures |st.statements| <= |r.statements|
    ensures r.registers.names == st.registers.names && st.registers.maxRegister <= r.registers.maxRegister
    decreases |instrs| - k
  {
    if k >= |instrs| || st.failed then st
    else ScanBlock(tb, instrs, k + 1, ScanStep(tb.specifier, instrs[k], st))
  }

  /** The number of instructions of `xs` that match `spec` and are guarded. */
  function GuardedMatches(spec: Specifier, xs: seq<Instruction>): (r: nat)
    ensures r <= Matches(spec, xs)
  {
    if |xs| == 0 then 0
    else (if ConditionsMet(spec, xs[0]) && xs[0].IsGuarded() then 1 else 0) + GuardedMatches(spec, xs[1..])
  }

  /** The opcode of statement `i`, a look-ahead past the end reading as `nop`. */
  function OpcodeAt(s: seq<Statement>, i: int): Opcode {
    if 0 <= i < |s| then s[i].instruction.opcode else Nop
  }

  predicate ScalarIdiomAt(s: seq<Statement>, i: int) {
    OpcodeAt(s, i) == SelP && OpcodeAt(s, i + 1) == Add
  }

  predicate WarpIdiomAt(s: seq<Statement>, i: int) {
    OpcodeAt(s, i) == Vote && OpcodeAt(s, i + 1) == Popc && OpcodeAt(s, i + 2) == Cvt && OpcodeAt(s, i + 3) == Add
  }

  /** The strip loop as written: at each index a `selp`, `add` pair is
      erased, then a `vote`, `popc`, `cvt`, `add` run at the same index, and
      the loop moves on to the next index whether or not it erased. */
  function StripAsWritten(s: seq<Statement>, i: nat): (r: seq<Statement>)
    ensures |r| <= |s|
    decreases |s| - i
  {
    if i >= |s| then s
    else
      var s1 := if ScalarIdiomAt(s, i) then s[..i] + s[i + 2..] else s;
      var s2 := if WarpIdiomAt(s1, i) then s1[..i] + s1[i + 4..] else s1;
      StripAsWritten(s2, i + 1)
  }

  /** The strip loop as intended: after an erase the statement that moved
      into place is examined again, so every idiom run is erased. */
  function Strip(s: seq<Statement>, i: nat): (r: seq<Statement>)
    ensures |r| <= |s|
    decreases |s|, |s| - i
  {
    if i >= |s| then s
    else if ScalarIdiomAt(s, i) then Strip(s[..i] + s[i + 2..], i)
    else if WarpIdiomAt(s, i) then Strip(s[..i] + s[i + 4..], i)
    else Strip(s, i + 1)
  }

  /** What a splicer that may throw leaves: the world as it stands, and
      whether an exception stopped it. */
  datatype Outcome = Outcome(world: World, failed: bool)

  /** What instrumenting one non-empty block leaves: the world, the
      attributes and translation-block statements the next block starts
      from, and whether the block threw. */
  datatype BlockStep = BlockStep(world: World, attrs: StaticAttributes, statements: seq<Statement>, failed: bool)

  /** One non-empty block: scan its instructions, insert the extended
      statements before instruction `loc` (the last one for a block-exit
      target, else the first), strip the idioms again when predication is
      checked, and move on to the next block id. */
  function InstrumentOneBlock(prep: Preparer, tb: TranslationBlock, b: nat, attrs: StaticAttributes, w: World): (r: BlockStep)
    requires b < |w.blocks| && |w.blocks[b].instructions| > 0
    ensures SameBut(r.world.blocks, w.blocks, b)
  {
    var instrs := w.blocks[b].instructions;
    var scan := ScanBlock(tb, instrs, 0, BlockScan(tb.statements, w.registers, 0, 0, false));
    if scan.failed then BlockStep(w.(registers := scan.registers), attrs, tb.statements, true)
    else
      var a := attrs.(basicBlockInstructionCount := scan.matched, basicBlockExecutedInstructionCount := scan.executed);
      var loc := if tb.labelName == ExitBasicBlock then |instrs| - 1 else 0;
      var sp := InsertBefore(prep, scan.statements, a, w.(registers := scan.registers), b, loc);
      var kept := if tb.specifier.checkForPredication then Strip(scan.statements, 0) else scan.statements;
      BlockStep(sp.world, a.(basicBlockId := a.basicBlockId + 1), kept, false)
  }

  /** The block loop of `instrumentBasicBlock` from block `b` on, with the
      translation block's statements as the previous blocks left them. */
  function InstrumentBasicBlocksFrom(prep: Preparer, tb: TranslationBlock, b: nat, attrs: StaticAttributes, w: World): (r: Outcome)
    ensures |r.world.blocks| == |w.blocks|
    ensures forall c :: 0 <= c < |w.blocks| ==> r.world.blocks[c].labelName == w.blocks[c].labelName
    ensures forall c :: 0 <= c < |w.blocks| && (c < b || |w.blocks[c].instructions| == 0) ==> r.world.blocks[c] == w.blocks[c]
    decreases |w.blocks| - b
  {
    if b >= |w.blocks| then Outcome(w, false)
    else if |w.blocks[b].instructions| == 0 then InstrumentBasicBlocksFrom(prep, tb, b + 1, attrs, w)
    else
      var step := InstrumentOneBlock(prep, tb, b, attrs, w);
      if step.failed then Outcome(step.world, true)
      else InstrumentBasicBlocksFrom(prep, tb.(statements := step.statements), b + 1, step.attrs, step.world)
  }

  /** `instrumentBasicBlock(translationBlock)`. */
  function InstrumentBasicBlock(prep: Preparer, tb: TranslationBlock, w: World): Outcome {
    InstrumentBasicBlocksFrom(prep, tb, 1, ZeroAttributes.(basicBlockCount := BasicBlockCount(|w.blocks|)), w)
  }

  // What the scan counts, and when it throws.

  /** The scan counts every matching instruction as matched and every one it
      does not give an idiom as executed; without the predication check it
      changes neither the statements nor the registers. */
  lemma {:induction false} ScanCounts(tb: TranslationBlock, instrs: seq<Instruction>, k: nat, st: BlockScan)
    requires k <= |instrs|
    ensures var r := ScanBlock(tb, instrs, k, st);
      && (!r.failed ==> r.matched == st.matched + Matches(tb.specifier, instrs[k..]))
      && (!r.failed ==> r.executed + (if tb.specifier.checkForPredication then GuardedMatches(tb.specifier, instrs[k..]) else 0)
                        == st.executed + Matches(tb.specifier, instrs[k..]))
      && (!tb.specifier.checkForPredication ==> r.statements == st.statements && r.registers == st.registers && r.failed == st.failed)
    decreases |instrs| - k
  {
    if k < |instrs| && !st.failed {
      assert instrs[k..][1..] == instrs[k + 1..];
      ScanCounts(tb, instrs, k + 1, ScanStep(tb.specifier, instrs[k], st));
    }
  }

  /** A successful idiom insertion keeps the placeholder statement. */
  lemma CountGuardedKeepsMention(ins: Instruction, st: BlockScan)
    ensures var r := CountGuarded(ins, st);
      !r.failed ==> Locate(r.statements, |r.statements|).position.Some?
  {
    var at := Locate(st.statements, |st.statements|);
    if at.position.Some? {
      var p := at.position.value;
      var r := CountGuarded(ins, st);
      assert r.statements[p] == st.statements[p];
      assert MentionOf(r.statements[p].instruction) != NoMention;
    }
  }

  /** The scan throws exactly when predication is checked, no statement of
      the translation block names an executed-count placeholder, and some
      matching instruction is guarded. */
  lemma {:induction false} ScanFailure(tb: TranslationBlock, instrs: seq<Instruction>, k: nat, st: BlockScan)
    requires k <= |instrs| && !st.failed
    ensures ScanBlock(tb, instrs, k, st).failed
      <==> tb.specifier.checkForPredication && Locate(st.statements, |st.statements|).position.None?
           && GuardedMatches(tb.specifier, instrs[k..]) > 0
    decreases |instrs| - k
  {
    if k < |instrs| {
      assert instrs[k..][1..] == instrs[k + 1..];
      var ins := instrs[k];
      var next := ScanStep(tb.specifier, ins, st);
      if next.failed {
        assert ScanBlock(tb, instrs, k + 1, next) == next;
      } else {
        CountGuardedKeepsMention(ins, st);
        ScanFailure(tb, instrs, k + 1, next);
      }
    }
  }

  // Stripping the idioms again.

  /** Statements the strip loop leaves alone and whose destination names no
      placeholder: what the translation blocks are expected to hold. */
  predicate StripSafe(t: Statement) {
    Strippable(t) && SourceMention(t.instruction.Op(D)) == NoMention
  }

  /** A statement the strip loop never starts an erase at. */
  predicate Strippable(t: Statement) {
    t.instruction.opcode != SelP && t.instruction.opcode != Vote
  }

  /** A block whose guards name no placeholder. */
  predicate GuardsUnnamed(instrs: seq<Instruction>) {
    forall i :: 0 <= i < |instrs| ==> SourceMention(instrs[i].Op(PG)) == NoMention
  }

  predicate IsIdiomRun(run: seq<Statement>) {
    || (|run| == 2 && ScalarIdiomAt(run, 0))
    || (|run| == 4 && WarpIdiomAt(run, 0))
  }

  predicate Unmentioned(run: seq<Statement>) {
    forall j :: 0 <= j < |run| ==> MentionOf(run[j].instruction) == NoMention
  }

  /** The extended statements read as the original statements with idiom
      runs between them. */
  datatype Piece = Kept(statement: Statement) | Idiom(run: seq<Statement>)

  /** The opcodes the strip loop looks at. */
  predicate PieceShaped(piece: Piece) {
    match piece
    case Kept(t) => Strippable(t)
    case Idiom(run) => IsIdiomRun(run)
  }

  predicate PiecesShaped(ps: seq<Piece>) {
    forall j :: 0 <= j < |ps| ==> PieceShaped(ps[j])
  }

  /** The shape, and the placeholder names the scan looks at. */
  predicate PieceValid(piece: Piece) {
    && PieceShaped(piece)
    && match piece
       case Kept(t) => SourceMention(t.instruction.Op(D)) == NoMention
       case Idiom(run) => Unmentioned(run)
  }

  predicate PiecesValid(ps: seq<Piece>) {
    forall j :: 0 <= j < |ps| ==> PieceValid(ps[j])
  }

  function PieceStatements(piece: Piece): seq<Statement> {
    match piece
    case Kept(t) => [t]
    case Idiom(run) => run
  }

  function Render(ps: seq<Piece>): seq<Statement> {
    if |ps| == 0 then [] else PieceStatements(ps[0]) + Render(ps[1..])
  }

  function Originals(ps: seq<Piece>): seq<Statement> {
    if |ps| == 0 then [] else PieceOriginals(ps[0]) + Originals(ps[1..])
  }

  lemma RenderCons(piece: Piece, ps: seq<Piece>)
    ensures Render([piece] + ps) == PieceStatements(piece) + Render(ps)
    ensures Originals([piece] + ps) == PieceOriginals(piece) + Originals(ps)
  {
    assert ([piece] + ps)[0] == piece;
    assert ([piece] + ps)[1..] == ps;
  }

  lemma {:induction false} RenderAppend(xs: seq<Piece>, ys: seq<Piece>)
    ensures Render(xs + ys) == Render(xs) + Render(ys)
    ensures Originals(xs + ys) == Originals(xs) + Originals(ys)
    decreases |xs|
  {
    if |xs| == 0 {
      assert xs + ys == ys;
    } else {
      assert xs + ys == [xs[0]] + (xs[1..] + ys);
      assert xs == [xs[0]] + xs[1..];
      RenderCons(xs[0], xs[1..] + ys);
      RenderCons(xs[0], xs[1..]);
      RenderAppend(xs[1..], ys);
      Associative(PieceStatements(xs[0]), Render(xs[1..]), Render(ys));
      Associative(PieceOriginals(xs[0]), Originals(xs[1..]), Originals(ys));
    }
  }

  function KeptAll(s: seq<Statement>): (ps: seq<Piece>)
    ensures |ps| == |s| && forall j :: 0 <= j < |s| ==> ps[j] == Kept(s[j])
  {
    seq(|s|, j requires 0 <= j < |s| => Kept(s[j]))
  }

  lemma {:induction false} KeptAllRenders(s: seq<Statement>)
    ensures Render(KeptAll(s)) == s && Originals(KeptAll(s)) == s
    decreases |s|
  {
    if |s| > 0 {
      var ps := KeptAll(s);
      assert ps[1..] == KeptAll(s[1..]);
      KeptAllRenders(s[1..]);
      assert ps[0] == Kept(s[0]);
      assert Render(ps) == [s[0]] + Render(ps[1..]);
      assert Originals(ps) == [s[0]] + Originals(ps[1..]);
      assert s == [s[0]] + s[1..];
    }
  }

  lemma StripPassesKept(prefix: seq<Statement>, t: Statement, rest: seq<Statement>)
    requires Strippable(t)
    ensures Strip(prefix + ([t] + rest), |prefix|) == Strip((prefix + [t]) + rest, |prefix + [t]|)
  {
    var s := prefix + ([t] + rest);
    assert s == (prefix + [t]) + rest;
    assert s[|prefix|] == t;
    assert OpcodeAt(s, |prefix|) == t.instruction.opcode;
  }

  lemma StripErasesRun(prefix: seq<Statement>, run: seq<Statement>, rest: seq<Statement>)
    requires IsIdiomRun(run)
    ensures Strip(prefix + (run + rest), |prefix|) == Strip(prefix + rest, |prefix|)
  {
    if |run| == 2 {
      StripErasesScalar(prefix, run, rest);
    } else {
      StripErasesWarp(prefix, run, rest);
    }
  }

  lemma StripErasesScalar(prefix: seq<Statement>, run: seq<Statement>, rest: seq<Statement>)
    requires |run| == 2 && ScalarIdiomAt(run, 0)
    ensures Strip(prefix + (run + rest), |prefix|) == Strip(prefix + rest, |prefix|)
  {
    var s := prefix + (run + rest);
    var i := |prefix|;
    assert s[i] == run[0] && s[i + 1] == run[1];
    assert ScalarIdiomAt(s, i);
    assert s[..i] == prefix && s[i + 2..] == rest;
  }

  lemma StripErasesWarp(prefix: seq<Statement>, run: seq<Statement>, rest: seq<Statement>)
    requires |run| == 4 && WarpIdiomAt(run, 0)
    ensures Strip(prefix + (run + rest), |prefix|) == Strip(prefix + rest, |prefix|)
  {
    var s := prefix + (run + rest);
    var i := |prefix|;
    assert s[i] == run[0] && s[i + 1] == run[1] && s[i + 2] == run[2] && s[i + 3] == run[3];
    assert !ScalarIdiomAt(s, i) && WarpIdiomAt(s, i);
    assert s[..i] == prefix && s[i + 4..] == rest;
  }

  lemma TailShaped(ps: seq<Piece>)
    requires |ps| > 0 && PiecesShaped(ps)
    ensures PieceShaped(ps[0]) && PiecesShaped(ps[1..])
  {
    assert forall j :: 0 <= j < |ps[1..]| ==> ps[1..][j] == ps[j + 1];
  }

  /** The intended strip turns the rendered pieces back into the original
      statements. */
  lemma {:induction false} StripRender(prefix: seq<Statement>, ps: seq<Piece>)
    requires PiecesShaped(ps)
    ensures Strip(prefix + Render(ps), |prefix|) == prefix + Originals(ps)
    decreases |ps|, 1
  {
    if |ps| == 0 {
      assert prefix + Render(ps) == prefix;
    } else {
      TailShaped(ps);
      StripRenderFirst(prefix, ps);
    }
  }

  /** The original statements a piece contributes. */
  function PieceOriginals(piece: Piece): seq<Statement> {
    if piece.Kept? then [piece.statement] else []
  }

  /** One step of the strip over the first piece. */
  lemma StripPiece(prefix: seq<Statement>, ps: seq<Piece>)
    requires |ps| > 0 && PieceShaped(ps[0])
    ensures Strip(prefix + Render(ps), |prefix|)
         == Strip((prefix + PieceOriginals(ps[0])) + Render(ps[1..]), |prefix + PieceOriginals(ps[0])|)
  {
    var rest := Render(ps[1..]);
    assert Render(ps) == PieceStatements(ps[0]) + rest;
    if ps[0].Kept? {
      StripPassesKept(prefix, ps[0].statement, rest);
    } else {
      StripErasesRun(prefix, ps[0].run, rest);
      assert prefix + PieceOriginals(ps[0]) == prefix;
    }
  }

  lemma {:induction false} StripRenderFirst(prefix: seq<Statement>, ps: seq<Piece>)
    requires |ps| > 0 && PieceShaped(ps[0]) && PiecesShaped(ps[1..])
    ensures Strip(prefix + Render(ps), |prefix|) == prefix + Originals(ps)
    decreases |ps|, 0
  {
    var front := prefix + PieceOriginals(ps[0]);
    StripPiece(prefix, ps);
    StripRender(front, ps[1..]);
    Associative(prefix, PieceOriginals(ps[0]), Originals(ps[1..]));
  }

  lemma TailValid(ps: seq<Piece>)
    requires |ps| > 0 && PiecesValid(ps)
    ensures PieceValid(ps[0]) && PiecesValid(ps[1..])
  {
    assert forall j :: 0 <= j < |ps[1..]| ==> ps[1..][j] == ps[j + 1];
  }

  /** A statement naming a placeholder is an original statement: its index
      is where a kept piece starts. */
  lemma {:induction false} MentionIsKept(ps: seq<Piece>, p: nat) returns (j: nat)
    requires PiecesValid(ps) && p < |Render(ps)| && MentionOf(Render(ps)[p].instruction) != NoMention
    ensures j < |ps| && ps[j].Kept? && |Render(ps[..j])| == p && ps[j].statement == Render(ps)[p]
    decreases |ps|
  {
    TailValid(ps);
    var first := PieceStatements(ps[0]);
    var rest := Render(ps[1..]);
    assert Render(ps) == first + rest;
    if p < |first| {
      assert Render(ps)[p] == first[p];
      assert ps[..0] == [];
      j := 0;
    } else {
      assert rest[p - |first|] == Render(ps)[p];
      var j' := MentionIsKept(ps[1..], p - |first|);
      j := j' + 1;
      var head := ps[..j];
      assert head[0] == ps[0] && head[1..] == ps[1..][..j'];
      assert Render(head) == first + Render(ps[1..][..j']);
    }
  }

  /** Inserting a run right after a kept piece gives the pieces with the run
      as an idiom piece there. */
  lemma InsertAfterKept(ps: seq<Piece>, j: nat, run: seq<Statement>)
    requires j < |ps| && ps[j].Kept?
    ensures |Render(ps[..j])| + 1 <= |Render(ps)|
    ensures var grown := ps[..j + 1] + [Idiom(run)] + ps[j + 1..];
      && InsertSeqAt(Render(ps), |Render(ps[..j])| + 1, run) == Render(grown)
      && Originals(grown) == Originals(ps)
  {
    var front := ps[..j + 1];
    var back := ps[j + 1..];
    assert ps == front + back;
    assert front == ps[..j] + [ps[j]];
    RenderAppend(ps[..j], [ps[j]]);
    RenderCons(ps[j], []);
    RenderAppend(front, back);
    InsertSeqAtSeam(Render(front), Render(back), run);
    var grown := front + [Idiom(run)] + back;
    RenderAppend(front + [Idiom(run)], back);
    RenderAppend(front, [Idiom(run)]);
    RenderSingle(Idiom(run));
    assert Originals(front) + [] == Originals(front);
  }

  lemma RenderSingle(piece: Piece)
    ensures Render([piece]) == PieceStatements(piece) && Originals([piece]) == PieceOriginals(piece)
  {
    assert [piece][1..] == [];
    assert PieceStatements(piece) + [] == PieceStatements(piece);
    assert PieceOriginals(piece) + [] == PieceOriginals(piece);
  }

  lemma WarpIdiomRun(ins: Instruction, counter: Operand, guard: Operand, r1: RegisterId, r2: RegisterId, r3: RegisterId)
    requires SourceMention(ins.Op(PG)) == NoMention && SourceMention(counter) == NoMention
    ensures var run := AsStatements(WarpIdiom(ins, counter, guard, r1, r2, r3));
      IsIdiomRun(run) && Unmentioned(run)
  {
    var idiom := WarpIdiom(ins, counter, guard, r1, r2, r3);
    var run := AsStatements(idiom);
    assert SourceMention(DefaultOperand) == NoMention;
    assert MentionOf(idiom[0]) == NoMention;
    assert MentionOf(idiom[1]) == NoMention;
    assert MentionOf(idiom[2]) == NoMention;
    assert MentionOf(idiom[3]) == NoMention;
    assert run[0].instruction == idiom[0] && run[1].instruction == idiom[1];
    assert run[2].instruction == idiom[2] && run[3].instruction == idiom[3];
  }

  lemma ScalarIdiomRun(ins: Instruction, counter: Operand, predCount: RegisterId)
    requires SourceMention(ins.Op(PG)) == NoMention && SourceMention(counter) == NoMention
    ensures var run := AsStatements(ScalarIdiom(ins, counter, predCount));
      IsIdiomRun(run) && Unmentioned(run)
  {
    var idiom := ScalarIdiom(ins, counter, predCount);
    var run := AsStatements(idiom);
    assert SourceMention(DefaultOperand) == NoMention;
    assert MentionOf(idiom[0]) == NoMention;
    assert MentionOf(idiom[1]) == NoMention;
    assert run[0].instruction == idiom[0] && run[1].instruction == idiom[1];
  }

  /** The synthesised idioms are runs the strip loop erases, and name no
      placeholder when neither the instrumented guard nor the counter does. */
  lemma SynthesizedRun(ins: Instruction, at: Located, counter: Operand, rs: Registers)
    requires SourceMention(ins.Op(PG)) == NoMention && SourceMention(counter) == NoMention
    ensures var run := Synthesize(ins, at, counter, rs).0;
      IsIdiomRun(run) && Unmentioned(run)
  {
    var predCount := rs.maxRegister + 1;
    if at.isPredInstCount {
      var idiom := WarpIdiom(ins, counter, at.guard, predCount, predCount + 1, predCount + 2);
      assert Synthesize(ins, at, counter, rs).0 == AsStatements(idiom);
      WarpIdiomRun(ins, counter, at.guard, predCount, predCount + 1, predCount + 2);
    } else {
      var idiom := ScalarIdiom(ins, counter, predCount);
      assert Synthesize(ins, at, counter, rs).0 == AsStatements(idiom);
      ScalarIdiomRun(ins, counter, predCount);
    }
  }

  lemma HoldsAfterInsert<T>(holds: T -> bool, xs: seq<T>, j: nat, x: T, grown: seq<T>)
    requires j < |xs| && holds(x) && forall i :: 0 <= i < |xs| ==> holds(xs[i])
    requires grown == xs[..j + 1] + [x] + xs[j + 1..]
    ensures forall i :: 0 <= i < |grown| ==> holds(grown[i])
  {
    forall i | 0 <= i < |grown| ensures holds(grown[i]) {
      if i <= j {
        assert grown[i] == xs[i];
      } else if i > j + 1 {
        assert grown[i] == xs[i - 1];
      }
    }
  }

  lemma ValidAfterInsert(ps: seq<Piece>, j: nat, run: seq<Statement>)
    requires j < |ps| && PiecesValid(ps) && IsIdiomRun(run) && Unmentioned(run)
    ensures PiecesValid(ps[..j + 1] + [Idiom(run)] + ps[j + 1..])
  {
    assert PieceValid(Idiom(run));
    HoldsAfterInsert(PieceValid, ps, j, Idiom(run), ps[..j + 1] + [Idiom(run)] + ps[j + 1..]);
  }

  /** One scan step read on pieces: the statements stay the original ones
      with idiom runs between them. */
  lemma StepPieces(spec: Specifier, ins: Instruction, st: BlockScan, ps: seq<Piece>) returns (ps': seq<Piece>)
    requires SourceMention(ins.Op(PG)) == NoMention && PiecesValid(ps) && Render(ps) == st.statements
    ensures PiecesValid(ps') && Render(ps') == ScanStep(spec, ins, st).statements && Originals(ps') == Originals(ps)
  {
    if ConditionsMet(spec, ins) && spec.checkForPredication && ins.IsGuarded() {
      assert ScanStep(spec, ins, st) == CountGuarded(ins, st);
      ps' := GuardedPieces(ins, st, ps);
    } else {
      ps' := ps;
    }
  }

  /** The counting idiom of a guarded instruction read on pieces: it is a
      new idiom piece right after the kept statement the search found. */
  lemma GuardedPieces(ins: Instruction, st: BlockScan, ps: seq<Piece>) returns (ps': seq<Piece>)
    requires SourceMention(ins.Op(PG)) == NoMention && PiecesValid(ps) && Render(ps) == st.statements
    ensures PiecesValid(ps') && Render(ps') == CountGuarded(ins, st).statements && Originals(ps') == Originals(ps)
  {
    var at := Locate(st.statements, |st.statements|);
    if at.position.Some? {
      var p := at.position.value;
      var j := MentionIsKept(ps, p);
      assert PieceValid(ps[j]);
      var idiom := GuardedRun(ins, st, p);
      ps' := RunPieces(ps, j, idiom, st.statements, p);
    } else {
      ps' := ps;
    }
  }

  /** The counting idiom of a guarded instruction goes right after the
      statement `p` the search found. */
  lemma GuardedRun(ins: Instruction, st: BlockScan, p: nat) returns (idiom: seq<Statement>)
    requires SourceMention(ins.Op(PG)) == NoMention && p < |st.statements|
    requires Locate(st.statements, |st.statements|).position == Some(p)
    requires SourceMention(st.statements[p].instruction.Op(D)) == NoMention
    ensures IsIdiomRun(idiom) && Unmentioned(idiom)
    ensures CountGuarded(ins, st).statements == InsertSeqAt(st.statements, p + 1, idiom)
  {
    var at := Locate(st.statements, |st.statements|);
    var counter := st.statements[p].instruction.Op(D);
    idiom := Synthesize(ins, at, counter, st.registers).0;
    SynthesizedRun(ins, at, counter, st.registers);
  }

  /** An idiom run inserted into the rendered statements `s` right after
      kept piece `j`, which starts at `p`, is a new idiom piece. */
  lemma RunPieces(ps: seq<Piece>, j: nat, run: seq<Statement>, s: seq<Statement>, p: nat) returns (ps': seq<Piece>)
    requires PiecesValid(ps) && j < |ps| && ps[j].Kept? && IsIdiomRun(run) && Unmentioned(run)
    requires Render(ps) == s && |Render(ps[..j])| == p
    ensures p + 1 <= |s|
    ensures PiecesValid(ps') && Render(ps') == InsertSeqAt(s, p + 1, run)
    ensures Originals(ps') == Originals(ps)
  {
    ps' := ps[..j + 1] + [Idiom(run)] + ps[j + 1..];
    InsertAfterKept(ps, j, run);
    ValidAfterInsert(ps, j, run);
  }

  /** The scan only ever inserts idiom runs right after original statements,
      so the intended strip gives back the original statements. */
  lemma {:induction false} ScanStrips(tb: TranslationBlock, instrs: seq<Instruction>, k: nat, st: BlockScan, ps: seq<Piece>)
    requires k <= |instrs| && GuardsUnnamed(instrs) && PiecesValid(ps) && Render(ps) == st.statements
    ensures Strip(ScanBlock(tb, instrs, k, st).statements, 0) == Originals(ps)
    decreases |instrs| - k
  {
    if k == |instrs| || st.failed {
      StripRender([], ps);
      assert [] + Render(ps) == Render(ps);
    } else {
      var ps' := StepPieces(tb.specifier, instrs[k], st, ps);
      ScanStrips(tb, instrs, k + 1, ScanStep(tb.specifier, instrs[k], st), ps');
    }
  }

  /** After a block is instrumented the intended strip restores the
      translation block's statements, so every block starts from them. */
  lemma StripRestores(tb: TranslationBlock, instrs: seq<Instruction>, rs: Registers)
    requires GuardsUnnamed(instrs) && forall t :: 0 <= t < |tb.statements| ==> StripSafe(tb.statements[t])
    ensures Strip(ScanBlock(tb, instrs, 0, BlockScan(tb.statements, rs, 0, 0, false)).statements, 0) == tb.statements
  {
    KeptAllRenders(tb.statements);
    ScanStrips(tb, instrs, 0, BlockScan(tb.statements, rs, 0, 0, false), KeptAll(tb.statements));
  }

  /** As written, the strip loop erases the first of two adjacent `selp`,
      `add` runs and then steps past the second. */
  lemma AsWrittenSkipsSecond(t: Statement, x: seq<Statement>, y: seq<Statement>)
    requires Strippable(t) && |x| == 2 && ScalarIdiomAt(x, 0) && |y| == 2 && ScalarIdiomAt(y, 0)
    ensures StripAsWritten([t] + x + y, 0) == [t] + y
  {
    var s := [t] + x + y;
    var e := [t] + y;
    assert OpcodeAt(s, 0) == t.instruction.opcode;
    assert StripAsWritten(s, 0) == StripAsWritten(s, 1);
    assert OpcodeAt(s, 1) == SelP && OpcodeAt(s, 2) == Add;
    assert s[..1] + s[3..] == e;
    assert OpcodeAt(e, 1) == SelP;
    assert StripAsWritten(s, 1) == StripAsWritten(e, 2);
    assert OpcodeAt(e, 2) == Add;
    assert StripAsWritten(e, 2) == StripAsWritten(e, 3);
  }

  /** A guarded instruction counted while the first statement is the only
      placeholder statement and counts executions. */
  lemma ScalarGuardStep(ins: Instruction, st: BlockScan) returns (run: seq<Statement>)
    requires SourceMention(ins.Op(PG)) == NoMention
    requires !st.failed && |st.statements| > 0 && SourceMention(st.statements[0].instruction.Op(D)) == NoMention
    requires Locate(st.statements, |st.statements|).position == Some(0) && !Locate(st.statements, |st.statements|).isPredInstCount
    ensures |run| == 2 && ScalarIdiomAt(run, 0) && Unmentioned(run)
    ensures CountGuarded(ins, st).statements == [st.statements[0]] + run + st.statements[1..]
    ensures !CountGuarded(ins, st).failed
  {
    var at := Locate(st.statements, |st.statements|);
    var counter := st.statements[0].instruction.Op(D);
    run := Synthesize(ins, at, counter, st.registers).0;
    assert IsIdiomRun(run) && Unmentioned(run) by {
      SynthesizedRun(ins, at, counter, st.registers);
    }
    assert at.position == Some(0);
    InsertSeqAtFront(st.statements, run);
  }

  lemma GuardedScanStep(tb: TranslationBlock, instrs: seq<Instruction>, k: nat, st: BlockScan)
    requires k < |instrs| && !st.failed
    requires tb.specifier.checkForPredication && ConditionsMet(tb.specifier, instrs[k]) && instrs[k].IsGuarded()
    ensures ScanBlock(tb, instrs, k, st) == ScanBlock(tb, instrs, k + 1, CountGuarded(instrs[k], st))
  {
    assert ScanStep(tb.specifier, instrs[k], st) == CountGuarded(instrs[k], st);
  }

  /** A run that names no placeholder, put after the only executed-count
      statement, leaves the search where it was. */
  lemma LocateAfterRun(t: Statement, run: seq<Statement>)
    requires Unmentioned(run) && MentionOf(t.instruction) == ExecutedMention
    ensures var s := [t] + run; Locate(s, |s|).position == Some(0) && !Locate(s, |s|).isPredInstCount
  {
    var s := [t] + run;
    assert s[0] == t;
    assert forall j :: 0 < j < |s| ==> s[j] == run[j - 1];
  }

  /** Two guarded instructions counted against a single executed-count
      statement: each run goes right after that statement, so the second
      run lands ahead of the first. */
  lemma TwoScalarRuns(t: Statement, ins: Instruction, rs: Registers) returns (x: seq<Statement>, y: seq<Statement>)
    requires SourceMention(ins.Op(PG)) == NoMention
    requires SourceMention(t.instruction.Op(D)) == NoMention && MentionOf(t.instruction) == ExecutedMention
    ensures var st1 := CountGuarded(ins, BlockScan([t], rs, 0, 0, false));
      && !st1.failed && !CountGuarded(ins, st1).failed
      && CountGuarded(ins, st1).statements == [t] + x + y
    ensures |x| == 2 && ScalarIdiomAt(x, 0) && |y| == 2 && ScalarIdiomAt(y, 0)
  {
    var st0 := BlockScan([t], rs, 0, 0, false);
    LocateAfterRun(t, []);
    assert [t] + [] == [t];
    y := ScalarGuardStep(ins, st0);
    var st1 := CountGuarded(ins, st0);
    assert st1.statements == [t] + y;
    LocateAfterRun(t, y);
    x := ScalarGuardStep(ins, st1);
    assert ([t] + y)[1..] == y;
  }

  lemma TwoGuardsScan(tb: TranslationBlock, ins: Instruction, rs: Registers) returns (x: seq<Statement>, y: seq<Statement>)
    requires tb.specifier.checkForPredication && ConditionsMet(tb.specifier, ins) && ins.IsGuarded()
    requires SourceMention(ins.Op(PG)) == NoMention
    requires |tb.statements| == 1 && StripSafe(tb.statements[0]) && MentionOf(tb.statements[0].instruction) == ExecutedMention
    ensures ScanBlock(tb, [ins, ins], 0, BlockScan(tb.statements, rs, 0, 0, false)).statements == tb.statements + x + y
    ensures |x| == 2 && ScalarIdiomAt(x, 0) && |y| == 2 && ScalarIdiomAt(y, 0)
  {
    var instrs := [ins, ins];
    assert tb.statements == [tb.statements[0]];
    x, y := TwoScalarRuns(tb.statements[0], ins, rs);
    var st0 := BlockScan(tb.statements, rs, 0, 0, false);
    var st1 := CountGuarded(ins, st0);
    GuardedScanStep(tb, instrs, 0, st0);
    GuardedScanStep(tb, instrs, 1, st1);
    assert ScanBlock(tb, instrs, 2, CountGuarded(ins, st1)) == CountGuarded(ins, st1);
  }

  /** The strip loop as written misses the second of two adjacent `selp`,
      `add` runs, which is what a block with two guarded matching
      instructions produces; the intended strip erases both. */
  lemma AdjacentIdiomsSurvive(tb: TranslationBlock, ins: Instruction, rs: Registers)
    requires tb.specifier.checkForPredication && ConditionsMet(tb.specifier, ins) && ins.IsGuarded()
    requires SourceMention(ins.Op(PG)) == NoMention
    requires |tb.statements| == 1 && StripSafe(tb.statements[0]) && MentionOf(tb.statements[0].instruction) == ExecutedMention
    ensures var r := ScanBlock(tb, [ins, ins], 0, BlockScan(tb.statements, rs, 0, 0, false));
      && StripAsWritten(r.statements, 0) != tb.statements
      && Strip(r.statements, 0) == tb.statements
  {
    AsWrittenKeepsSecond(tb, ins, rs);
    assert GuardsUnnamed([ins, ins]);
    StripRestores(tb, [ins, ins], rs);
  }

  /** The as-written half: the second run survives, so the statements are
      longer than the translation block's. */
  lemma AsWrittenKeepsSecond(tb: TranslationBlock, ins: Instruction, rs: Registers)
    requires tb.specifier.checkForPredication && ConditionsMet(tb.specifier, ins) && ins.IsGuarded()
    requires SourceMention(ins.Op(PG)) == NoMention
    requires |tb.statements| == 1 && StripSafe(tb.statements[0]) && MentionOf(tb.statements[0].instruction) == ExecutedMention
    ensures StripAsWritten(ScanBlock(tb, [ins, ins], 0, BlockScan(tb.statements, rs, 0, 0, false)).statements, 0) != tb.statements
  {
    var x, y := TwoGuardsScan(tb, ins, rs);
    AsWrittenSkipsSecond(tb.statements[0], x, y);
    assert tb.statements == [tb.statements[0]];
    assert |[tb.statements[0]] + y| == 3;
  }

  /** Some block from `b` on has a guarded instruction that matches `spec`. */
  predicate SomeGuardedMatch(spec: Specifier, blocks: seq<BasicBlock>, b: nat) {
    exists c :: b <= c < |blocks| && GuardedMatches(spec, blocks[c].instructions) > 0
  }

  /** One block throws exactly when its scan does; otherwise, with the
      intended strip, it hands the translation block's own statements on. */
  lemma OneBlockHandsOn(prep: Preparer, tb: TranslationBlock, b: nat, attrs: StaticAttributes, w: World)
    requires b < |w.blocks| && |w.blocks[b].instructions| > 0
    requires forall t :: 0 <= t < |tb.statements| ==> StripSafe(tb.statements[t])
    requires GuardsUnnamed(w.blocks[b].instructions)
    ensures var r := InstrumentOneBlock(prep, tb, b, attrs, w);
      && (r.failed <==> ScanBlock(tb, w.blocks[b].instructions, 0, BlockScan(tb.statements, w.registers, 0, 0, false)).failed)
      && r.statements == tb.statements
  {
    var instrs := w.blocks[b].instructions;
    var st := BlockScan(tb.statements, w.registers, 0, 0, false);
    if tb.specifier.checkForPredication {
      StripRestores(tb, instrs, w.registers);
    } else {
      ScanCounts(tb, instrs, 0, st);
    }
  }

  /** What one block becomes. When the scan throws, the blocks are left
      alone and the block loop ends. Otherwise the prepared run of the
      extended statements goes in as one stretch starting at instruction
      `loc`: the block's last instruction for `EXIT_BASIC_BLOCK`, else its
      first. The run is prepared with the block's matched and executed
      counts, every match counting as matched and every match without an
      idiom as executed, and the block id then advances by one. */
  lemma BlockInstrumented(prep: Preparer, tb: TranslationBlock, b: nat, attrs: StaticAttributes, w: World)
    requires b < |w.blocks| && |w.blocks[b].instructions| > 0
    ensures var instrs := w.blocks[b].instructions;
      var scan := ScanBlock(tb, instrs, 0, BlockScan(tb.statements, w.registers, 0, 0, false));
      var r := InstrumentOneBlock(prep, tb, b, attrs, w);
      && (scan.failed ==> r.failed && r.world.blocks == w.blocks)
      && (!scan.failed ==>
            var a := attrs.(basicBlockInstructionCount := scan.matched, basicBlockExecutedInstructionCount := scan.executed);
            var loc := if tb.labelName == ExitBasicBlock then |instrs| - 1 else 0;
            var run := PreparedRun(prep, scan.statements, 0, a, ExitLabel(w.blocks), scan.registers);
            && !r.failed
            && r.world.blocks[b].instructions == InsertSeqAt(instrs, loc, run.0)
            && r.world.registers == run.1
            && r.attrs == a.(basicBlockId := attrs.basicBlockId + 1)
            && scan.matched == Matches(tb.specifier, instrs)
            && scan.executed + (if tb.specifier.checkForPredication then GuardedMatches(tb.specifier, instrs) else 0)
               == Matches(tb.specifier, instrs))
  {
    var instrs := w.blocks[b].instructions;
    var st := BlockScan(tb.statements, w.registers, 0, 0, false);
    var scan := ScanBlock(tb, instrs, 0, st);
    ScanCounts(tb, instrs, 0, st);
    assert instrs[0..] == instrs;
    if scan.failed {
      BlockThrows(prep, tb, b, attrs, w, scan);
    } else {
      BlockInserted(prep, tb, b, attrs, w, scan);
    }
  }

  /** `BlockInstrumented` when the scan throws. */
  lemma BlockThrows(prep: Preparer, tb: TranslationBlock, b: nat, attrs: StaticAttributes, w: World, scan: BlockScan)
    requires b < |w.blocks| && |w.blocks[b].instructions| > 0
    requires scan == ScanBlock(tb, w.blocks[b].instructions, 0, BlockScan(tb.statements, w.registers, 0, 0, false))
    requires scan.failed
    ensures var r := InstrumentOneBlock(prep, tb, b, attrs, w);
      r.failed && r.world.blocks == w.blocks
  {
  }

  /** `BlockInstrumented` when the scan does not throw. */
  lemma BlockInserted(prep: Preparer, tb: TranslationBlock, b: nat, attrs: StaticAttributes, w: World, scan: BlockScan)
    requires b < |w.blocks| && |w.blocks[b].instructions| > 0
    requires scan == ScanBlock(tb, w.blocks[b].instructions, 0, BlockScan(tb.statements, w.registers, 0, 0, false))
    requires !scan.failed
    ensures var instrs := w.blocks[b].instructions;
      var a := attrs.(basicBlockInstructionCount := scan.matched, basicBlockExecutedInstructionCount := scan.executed);
      var loc := if tb.labelName == ExitBasicBlock then |instrs| - 1 else 0;
      var run := PreparedRun(prep, scan.statements, 0, a, ExitLabel(w.blocks), scan.registers);
      var r := InstrumentOneBlock(prep, tb, b, attrs, w);
      && !r.failed
      && r.world.blocks[b].instructions == InsertSeqAt(instrs, loc, run.0)
      && r.world.registers == run.1
      && r.attrs == a.(basicBlockId := attrs.basicBlockId + 1)
  {
    var instrs := w.blocks[b].instructions;
    var a := attrs.(basicBlockInstructionCount := scan.matched, basicBlockExecutedInstructionCount := scan.executed);
    var loc := if tb.labelName == ExitBasicBlock then |instrs| - 1 else 0;
    var w1 := w.(registers := scan.registers);
    OneBlockUnfolded(prep, tb, b, attrs, w, scan);
    assert w1.blocks == w.blocks;
    InsertFromRun(prep, scan.statements, 0, a, w1, b, loc, 0);
  }

  /** `InstrumentOneBlock` spelled out for a scan that does not throw. */
  lemma OneBlockUnfolded(prep: Preparer, tb: TranslationBlock, b: nat, attrs: StaticAttributes, w: World, scan: BlockScan)
    requires b < |w.blocks| && |w.blocks[b].instructions| > 0
    requires scan == ScanBlock(tb, w.blocks[b].instructions, 0, BlockScan(tb.statements, w.registers, 0, 0, false))
    requires !scan.failed
    ensures var a := attrs.(basicBlockInstructionCount := scan.matched, basicBlockExecutedInstructionCount := scan.executed);
      var loc := if tb.labelName == ExitBasicBlock then |w.blocks[b].instructions| - 1 else 0;
      var r := InstrumentOneBlock(prep, tb, b, attrs, w);
      && !r.failed && r.attrs == a.(basicBlockId := attrs.basicBlockId + 1)
      && r.world == InsertBefore(prep, scan.statements, a, w.(registers := scan.registers), b, loc).world
  {
  }

  lemma SomeGuardedMatchSplit(spec: Specifier, blocks: seq<BasicBlock>, b: nat)
    requires b < |blocks|
    ensures SomeGuardedMatch(spec, blocks, b)
        <==> GuardedMatches(spec, blocks[b].instructions) > 0 || SomeGuardedMatch(spec, blocks, b + 1)
  {
    if SomeGuardedMatch(spec, blocks, b) {
      var c :| b <= c < |blocks| && GuardedMatches(spec, blocks[c].instructions) > 0;
      assert c == b || b + 1 <= c;
    }
  }

  lemma SomeGuardedMatchFrame(spec: Specifier, xs: seq<BasicBlock>, ys: seq<BasicBlock>, b: nat)
    requires SameBut(xs, ys, b)
    ensures SomeGuardedMatch(spec, xs, b + 1) <==> SomeGuardedMatch(spec, ys, b + 1)
  {
    if SomeGuardedMatch(spec, xs, b + 1) {
      var c :| b + 1 <= c < |xs| && GuardedMatches(spec, xs[c].instructions) > 0;
      assert xs[c] == ys[c];
    }
    if SomeGuardedMatch(spec, ys, b + 1) {
      var c :| b + 1 <= c < |ys| && GuardedMatches(spec, ys[c].instructions) > 0;
      assert xs[c] == ys[c];
    }
  }

  /** With the intended strip every block sees the translation block's own
      statements, so `instrumentBasicBlock` throws exactly when predication
      is checked, no statement names an executed-count placeholder, and some
      block has a guarded matching instruction. */
  lemma {:induction false} BasicBlockFailure(prep: Preparer, tb: TranslationBlock, b: nat, attrs: StaticAttributes, w: World)
    requires forall t :: 0 <= t < |tb.statements| ==> StripSafe(tb.statements[t])
    requires forall c :: b <= c < |w.blocks| ==> GuardsUnnamed(w.blocks[c].instructions)
    ensures InstrumentBasicBlocksFrom(prep, tb, b, attrs, w).failed
      <==> tb.specifier.checkForPredication && Locate(tb.statements, |tb.statements|).position.None?
           && SomeGuardedMatch(tb.specifier, w.blocks, b)
    decreases |w.blocks| - b, 1
  {
    if b < |w.blocks| {
      var instrs := w.blocks[b].instructions;
      if |instrs| == 0 {
        BasicBlockFailure(prep, tb, b + 1, attrs, w);
        assert GuardedMatches(tb.specifier, instrs) == 0;
        SomeGuardedMatchSplit(tb.specifier, w.blocks, b);
      } else {
        NonEmptyBlockFailure(prep, tb, b, attrs, w);
      }
    }
  }

  lemma {:induction false} NonEmptyBlockFailure(prep: Preparer, tb: TranslationBlock, b: nat, attrs: StaticAttributes, w: World)
    requires b < |w.blocks| && |w.blocks[b].instructions| > 0
    requires forall t :: 0 <= t < |tb.statements| ==> StripSafe(tb.statements[t])
    requires forall c :: b <= c < |w.blocks| ==> GuardsUnnamed(w.blocks[c].instructions)
    ensures InstrumentBasicBlocksFrom(prep, tb, b, attrs, w).failed
      <==> tb.specifier.checkForPredication && Locate(tb.statements, |tb.statements|).position.None?
           && SomeGuardedMatch(tb.specifier, w.blocks, b)
    decreases |w.blocks| - b, 0
  {
    var instrs := w.blocks[b].instructions;
    var step := InstrumentOneBlock(prep, tb, b, attrs, w);
    var here := tb.specifier.checkForPredication && Locate(tb.statements, |tb.statements|).position.None?
                && GuardedMatches(tb.specifier, instrs) > 0;
    assert (step.failed <==> here) && step.statements == tb.statements by {
      var st := BlockScan(tb.statements, w.registers, 0, 0, false);
      ScanFailure(tb, instrs, 0, st);
      assert instrs[0..] == instrs;
      OneBlockHandsOn(prep, tb, b, attrs, w);
    }
    SomeGuardedMatchSplit(tb.specifier, w.blocks, b);
    if !step.failed {
      var w' := step.world;
      assert InstrumentBasicBlocksFrom(prep, tb, b, attrs, w) == InstrumentBasicBlocksFrom(prep, tb, b + 1, step.attrs, w') by {
        assert tb.(statements := step.statements) == tb;
      }
      SomeGuardedMatchFrame(tb.specifier, w'.blocks, w.blocks, b);
      BasicBlockFailure(prep, tb, b + 1, step.attrs, w');
    }
  }
}
