/** `CToPTXInstrumentationPass` as the object it is: the translation it
    was built from, the constants table and `newRegisterMap` it keeps
    between kernels, and the dataflow graph of the kernel it works on. Each
    method changes that state step by step as the source does, and its
    postcondition equates the new state with the specification function of
    the same name, about which the properties of the pass are proved. */
module Pass {
  import opened Ptx
  import opened Vocabulary
  import opened Translation
  import opened Matcher
  import opened Rewriter
  import opened Optimizer
  import opened Partitioner
  import opened Splicer
  import opened Runner
  import opened Graph

  /** The two shapes of `Synthesize`, spelled out for the scan's methods. */
  lemma SynthesizedWarp(ins: Instruction, at: Located, counter: Operand, rs: Registers)
    requires at.isPredInstCount
    ensures Synthesize(ins, at, counter, rs)
         == (AsStatements(WarpIdiom(ins, counter, at.guard, rs.maxRegister + 1, rs.maxRegister + 2, rs.maxRegister + 3)),
             rs.(maxRegister := rs.maxRegister + 3))
  {
  }

  lemma SynthesizedScalar(ins: Instruction, at: Located, counter: Operand, rs: Registers)
    requires !at.isPredInstCount
    ensures Synthesize(ins, at, counter, rs) == (AsStatements(ScalarIdiom(ins, counter, rs.maxRegister + 1)),
                                                rs.(maxRegister := rs.maxRegister + 1))
  {
  }

  /** `InstrumentOneBlock` spelled out for a given scan result. */
  lemma OneBlockAfterScan(tb: TranslationBlock, b: nat, attrs: StaticAttributes, w: World, scan: BlockScan)
    requires b < |w.blocks| && |w.blocks[b].instructions| > 0
    requires scan == ScanBlock(tb, w.blocks[b].instructions, 0, BlockScan(tb.statements, w.registers, 0, 0, false))
    ensures scan.failed ==>
      InstrumentOneBlock(Prepare, tb, b, attrs, w) == BlockStep(w.(registers := scan.registers), attrs, tb.statements, true)
    ensures !scan.failed ==>
      var a := attrs.(basicBlockInstructionCount := scan.matched, basicBlockExecutedInstructionCount := scan.executed);
      var loc := if tb.labelName == ExitBasicBlock then |w.blocks[b].instructions| - 1 else 0;
      var kept := if tb.specifier.checkForPredication then Strip(scan.statements, 0) else scan.statements;
      InstrumentOneBlock(Prepare, tb, b, attrs, w)
        == BlockStep(Splicer.InsertBefore(Prepare, scan.statements, a, w.(registers := scan.registers), b, loc).world,
                     a.(basicBlockId := a.basicBlockId + 1), kept, false)
  {
  }

  class InstrumentationPass {
    /** `translation.statements`, which `optimize` rewrites in place. */
    var statements: seq<Statement>
    /** `translation.registers`. */
    var registerNames: seq<string>
    var constants: map<string, nat>
    var newRegisterMap: map<string, RegisterId>
    /** `dfg()`. */
    const graph: DataflowGraph

    constructor (statements: seq<Statement>, registerNames: seq<string>, graph: DataflowGraph)
      ensures this.statements == statements && this.registerNames == registerNames && this.graph == graph
      ensures constants == map[] && newRegisterMap == map[]
    {
      this.statements := statements;
      this.registerNames := registerNames;
      this.constants := map[];
      this.newRegisterMap := map[];
      this.graph := graph;
    }

    /** `newRegisterMap` and the graph's register counter. */
    function RegisterState(): Registers
      reads this, graph
    {
      Registers(newRegisterMap, graph.maxRegister)
    }

    /** Everything the splicers change. */
    function State(): World
      reads this, graph
    {
      World(graph.blocks, RegisterState())
    }

    /** `newRegisterMap[name] = dfg().newRegister()`. */
    method BindRegister(name: string)
      modifies this, graph
      ensures RegisterState() == Bind(old(RegisterState()), name)
      ensures graph.blocks == old(graph.blocks)
      ensures statements == old(statements) && registerNames == old(registerNames) && constants == old(constants)
    {
      var r := graph.NewRegister();
      newRegisterMap := newRegisterMap[name := r];
    }

    /** `computeBaseAddress(statement, original)`: a new base address takes
        a fresh register bound to its name. */
    method ComputeBaseAddress(s: Statement, original: Instruction) returns (t: Statement)
      modifies this, graph
      ensures Prepared(t, RegisterState()) == Rewriter.ComputeBaseAddress(s, original, old(RegisterState()))
      ensures graph.blocks == old(graph.blocks)
      ensures statements == old(statements) && registerNames == old(registerNames) && constants == old(constants)
    {
      var rs := RegisterState();
      if s.instruction.Op(A).identifier != ComputeBaseAddressName {
        BindRegister(s.instruction.Op(D).identifier);
      }
      t := Rewriter.ComputeBaseAddress(s, original, rs).statement;
    }

    /** `prepareStatementToInsert(statement, attributes)`: the only state it
        changes is the registers of a predicate value or a new base address. */
    method PrepareStatementToInsert(s: Statement, attrs: StaticAttributes) returns (t: Statement)
      modifies this, graph
      ensures Prepared(t, RegisterState()) == Prepare(s, attrs, ExitLabel(old(graph.blocks)), old(RegisterState()))
      ensures graph.blocks == old(graph.blocks)
      ensures statements == old(statements) && registerNames == old(registerNames) && constants == old(constants)
    {
      var ins := s.instruction;
      var rs := RegisterState();
      if ins.opcode != Call && ins.Op(D).identifier == ComputeBaseAddressName {
        t := ComputeBaseAddress(s, attrs.originalInstruction);
      } else {
        if ins.opcode != Call && ins.opcode != Bra && ins.Op(D).identifier == GetPredicateValueName {
          BindRegister(ins.Op(D).identifier);
        }
        t := Prepare(s, attrs, ExitLabel(graph.blocks), rs).statement;
      }
    }

    /** What inserting `stmts` from statement `j` on, at instruction `at`
        of block `b`, would leave, seen from the present state. */
    ghost function Remaining(stmts: seq<Statement>, j: nat, attrs: StaticAttributes, b: nat, at: nat, count: nat): Spliced
      requires b < |graph.blocks| && at <= |graph.blocks[b].instructions|
      reads this, graph
    {
      InsertFrom(Prepare, stmts, j, attrs, State(), b, at, count)
    }

    /** `insertBefore(translationBlock, attributes, block, loc)`: returns
        how many instructions it inserted. */
    method InsertBefore(stmts: seq<Statement>, attrs: StaticAttributes, b: nat, loc: nat) returns (count: nat)
      requires b < |graph.blocks| && loc <= |graph.blocks[b].instructions|
      modifies this, graph
      ensures Spliced(State(), count) == Splicer.InsertBefore(Prepare, stmts, attrs, old(State()), b, loc)
      ensures statements == old(statements) && registerNames == old(registerNames) && constants == old(constants)
    {
      ghost var target := Remaining(stmts, 0, attrs, b, loc, 0);
      count := 0;
      var at: nat := loc;
      var j := 0;
      while j < |stmts|
        invariant j <= |stmts|
        invariant b < |graph.blocks| && at <= |graph.blocks[b].instructions|
        invariant Remaining(stmts, j, attrs, b, at, count) == target
        invariant statements == old(statements) && registerNames == old(registerNames) && constants == old(constants)
      {
        var inserted := InsertNext(stmts, j, attrs, b, at, count);
        if inserted {
          at := at + 1;
          count := count + 1;
        }
        j := j + 1;
      }
    }

    /** `insertAfter(translationBlock, attributes, block, loc)`. It does
        what `insertBefore` does one instruction further on. */
    method InsertAfter(stmts: seq<Statement>, attrs: StaticAttributes, b: nat, loc: nat)
      requires b < |graph.blocks| && loc < |graph.blocks[b].instructions|
      modifies this, graph
      ensures State() == Splicer.InsertAfter(Prepare, stmts, attrs, old(State()), b, loc)
      ensures statements == old(statements) && registerNames == old(registerNames) && constants == old(constants)
    {
      ghost var w0 := State();
      ghost var target := Remaining(stmts, 0, attrs, b, loc + 1, 0);
      var at: nat := loc + 1;
      var j := 0;
      ghost var count: nat := 0;
      while j < |stmts|
        invariant j <= |stmts|
        invariant b < |graph.blocks| && at <= |graph.blocks[b].instructions|
        invariant Remaining(stmts, j, attrs, b, at, count) == target
        invariant statements == old(statements) && registerNames == old(registerNames) && constants == old(constants)
      {
        var inserted := InsertNext(stmts, j, attrs, b, at, count);
        if inserted {
          at := at + 1;
          count := count + 1;
        }
        j := j + 1;
      }
      InsertAfterIsBeforeNext(Prepare, stmts, 0, attrs, w0, b, loc, 0);
    }

    /** The body of both insertion loops: statement `j` prepared and,
        unless it became a `nop`, inserted as instruction `at` of block `b`;
        what is left of the loop is then the rest of the statements. */
    method InsertNext(stmts: seq<Statement>, j: nat, attrs: StaticAttributes, b: nat, at: nat, ghost count: nat)
      returns (inserted: bool)
      requires j < |stmts| && b < |graph.blocks| && at <= |graph.blocks[b].instructions|
      modifies this, graph
      ensures var n := if inserted then 1 else 0;
        b < |graph.blocks| && at + n <= |graph.blocks[b].instructions|
        && Remaining(stmts, j + 1, attrs, b, at + n, count + n) == old(Remaining(stmts, j, attrs, b, at, count))
      ensures statements == old(statements) && registerNames == old(registerNames) && constants == old(constants)
    {
      ghost var w := State();
      ghost var p;
      inserted, p := InsertPrepared(stmts[j], attrs, b, at);
      InsertFromStep(Prepare, stmts, j, attrs, w, b, at, count, p, inserted, State());
    }

    /** `s` prepared and, unless it became a `nop`, inserted as instruction
        `at` of block `b`. */
    method InsertPrepared(s: Statement, attrs: StaticAttributes, b: nat, at: nat) returns (inserted: bool, ghost p: Prepared)
      requires b < |graph.blocks| && at <= |graph.blocks[b].instructions|
      modifies this, graph
      ensures p == Prepare(s, attrs, ExitLabel(old(State()).blocks), old(State()).registers)
      ensures inserted == (p.statement.instruction.opcode != Nop)
      ensures State() == World(if inserted then InsertInto(old(State()).blocks, b, at, p.statement.instruction) else old(State()).blocks,
                               p.registers)
      ensures statements == old(statements) && registerNames == old(registerNames) && constants == old(constants)
    {
      var t := PrepareStatementToInsert(s, attrs);
      p := Prepared(t, RegisterState());
      inserted := t.instruction.opcode != Nop;
      if inserted {
        graph.Insert(b, t.instruction, at);
      }
    }

    /** `insertAt()`: the first loop finds the first `%ctaid.x` read of the
        last block that has one, the second inserts the add just after it. */
    method InsertAt()
      modifies graph
      ensures graph.blocks == InsertAtCtaid(old(graph.blocks)) && graph.maxRegister == old(graph.maxRegister)
    {
      var spot := CtaidSpot(0, 0, "");
      var b := 0;
      while b < |graph.blocks|
        invariant b <= |graph.blocks| && spot == CtaidTarget(graph.blocks, b)
        invariant graph.blocks == old(graph.blocks)
      {
        var instrs := graph.blocks[b].instructions;
        var i := 0;
        var found := false;
        while i < |instrs| && !found
          invariant i <= |instrs|
          invariant !found ==> FirstCtaid(instrs, 0) == FirstCtaid(instrs, i) && spot == CtaidTarget(graph.blocks, b)
          invariant found ==> 0 < i && FirstCtaid(instrs, 0) == Some(i - 1)
                              && spot == CtaidSpot(b, i, instrs[i - 1].Op(D).identifier)
        {
          if instrs[i].Op(A).identifier == CtaIdX {
            spot := CtaidSpot(b, i + 1, instrs[i].Op(D).identifier);
            found := true;
          }
          i := i + 1;
        }
        b := b + 1;
      }
      var add := CtaidAdd(spot.dest);
      ghost var blocks := graph.blocks;
      b := 0;
      var inserted := false;
      while b < |graph.blocks|
        invariant b <= |graph.blocks| == |blocks|
        invariant !inserted ==> graph.blocks == blocks
        invariant inserted ==> spot.block < |blocks| && spot.index < |blocks[spot.block].instructions|
                               && graph.blocks == InsertInto(blocks, spot.block, spot.index, add)
        invariant inserted <==> spot.block < b && spot.index < |blocks[spot.block].instructions|
        invariant graph.maxRegister == old(graph.maxRegister)
      {
        if b == spot.block && |graph.blocks[b].instructions| > 0 {
          var instrs := graph.blocks[b].instructions;
          var i := 0;
          while i < |instrs| && !inserted
            invariant i <= |instrs| && b < |graph.blocks|
            invariant !inserted ==> graph.blocks == blocks && i <= spot.index
            invariant inserted ==> spot.index < |instrs| && graph.blocks == InsertInto(blocks, b, spot.index, add)
            invariant graph.maxRegister == old(graph.maxRegister)
          {
            if i == spot.index {
              graph.Insert(b, add, i);
              inserted := true;
            }
            i := i + 1;
          }
        }
        b := b + 1;
      }
    }

    /** `instrumentInstruction(translationBlock)`: `insertAt`, then every
        block after the entry block. */
    method InstrumentInstruction(tb: TranslationBlock)
      modifies this, graph
      ensures State() == Splicer.InstrumentInstruction(Prepare, tb, old(State()))
      ensures statements == old(statements) && registerNames == old(registerNames) && constants == old(constants)
    {
      InsertAt();
      var attrs := InstructionAttributes(tb.specifier, graph.blocks);
      InstrumentInstructionBlocks(tb, attrs);
    }

    /** The block loop of `instrumentInstruction`. Empty blocks are skipped
        and keep the block id. */
    method InstrumentInstructionBlocks(tb: TranslationBlock, attrs0: StaticAttributes)
      modifies this, graph
      ensures State() == InstrumentBlocksFrom(Prepare, tb, 1, attrs0, old(State())).world
      ensures statements == old(statements) && registerNames == old(registerNames) && constants == old(constants)
    {
      var attrs := attrs0;
      ghost var target := BlocksRemaining(tb, 1, attrs0);
      var b := 1;
      while b < |graph.blocks|
        invariant 1 <= b && BlocksRemaining(tb, b, attrs) == target
        invariant statements == old(statements) && registerNames == old(registerNames) && constants == old(constants)
        decreases |graph.blocks| - b
      {
        attrs := InstrumentBlockNext(tb, b, attrs);
        b := b + 1;
      }
    }

    /** What the block loop still does from block `b` on. */
    ghost function BlocksRemaining(tb: TranslationBlock, b: nat, attrs: StaticAttributes): Progress
      reads this, graph
    {
      InstrumentBlocksFrom(Prepare, tb, b, attrs, State())
    }

    /** One iteration of the block loop. */
    method InstrumentBlockNext(tb: TranslationBlock, b: nat, attrs0: StaticAttributes) returns (attrs: StaticAttributes)
      requires b < |graph.blocks|
      modifies this, graph
      ensures |graph.blocks| == old(|graph.blocks|)
      ensures BlocksRemaining(tb, b + 1, attrs) == old(BlocksRemaining(tb, b, attrs0))
      ensures statements == old(statements) && registerNames == old(registerNames) && constants == old(constants)
    {
      if |graph.blocks[b].instructions| > 0 {
        ghost var w := State();
        var instrs := graph.blocks[b].instructions;
        attrs := InstrumentInstructions(tb, instrs, attrs0.(basicBlockInstructionCount := |instrs|, instructionId := 0), b);
        InstrumentBlocksNext(Prepare, tb, b, attrs0, w, Progress(State(), attrs));
        attrs := attrs.(basicBlockId := attrs.basicBlockId + 1);
      } else {
        attrs := attrs0;
      }
    }

    /** The instruction loop of `instrumentInstruction` over block `b`,
        whose instructions were `instrs` when it started. */
    method InstrumentInstructions(tb: TranslationBlock, instrs: seq<Instruction>, attrs0: StaticAttributes, b: nat)
      returns (attrs: StaticAttributes)
      requires b < |graph.blocks| && graph.blocks[b].instructions == instrs
      modifies this, graph
      ensures Progress(State(), attrs) == InstrumentInstructionsFrom(Prepare, tb, instrs, 0, attrs0, old(State()), b, 0)
      ensures statements == old(statements) && registerNames == old(registerNames) && constants == old(constants)
    {
      attrs := attrs0;
      var loc: nat := 0;
      var k := 0;
      while k < |instrs|
        invariant k <= |instrs| && b < |graph.blocks|
        invariant loc + (|instrs| - k) == |graph.blocks[b].instructions|
        invariant InstrumentInstructionsFrom(Prepare, tb, instrs, k, attrs, State(), b, loc)
               == InstrumentInstructionsFrom(Prepare, tb, instrs, 0, attrs0, old(State()), b, 0)
        invariant statements == old(statements) && registerNames == old(registerNames) && constants == old(constants)
      {
        attrs, loc := InstrumentOneInstruction(tb, instrs, k, attrs, b, loc);
        k := k + 1;
      }
    }

    /** One iteration of that loop: instruction `k`, now at `loc`. */
    method InstrumentOneInstruction(tb: TranslationBlock, instrs: seq<Instruction>, k: nat, attrs0: StaticAttributes,
                                    b: nat, loc0: nat) returns (attrs: StaticAttributes, loc: nat)
      requires k < |instrs| && b < |graph.blocks| && loc0 + (|instrs| - k) == |graph.blocks[b].instructions|
      modifies this, graph
      ensures Advanced(attrs, State(), loc) == Advance(Prepare, tb, instrs, k, attrs0, old(State()), b, loc0)
      ensures statements == old(statements) && registerNames == old(registerNames) && constants == old(constants)
    {
      attrs := attrs0.(originalInstruction := instrs[k]);
      loc := loc0;
      if ConditionsMet(tb.specifier, instrs[k]) {
        var n := InsertBefore(tb.statements, attrs, b, loc);
        loc := loc + n;
        attrs := attrs.(instructionId := attrs.instructionId + 1);
      }
      loc := loc + 1;
    }

    /** `instrumentKernel(translationBlock)`. */
    method InstrumentKernel(tb: TranslationBlock)
      modifies this, graph
      ensures State() == Splicer.InstrumentKernel(Prepare, tb, old(State()))
      ensures statements == old(statements) && registerNames == old(registerNames) && constants == old(constants)
    {
      var spot := FindKernelSpot(tb.labelName);
      if spot.Some? {
        var _ := InsertBefore(tb.statements, KernelAttributes(tb.specifier, graph.blocks), spot.value.block, spot.value.loc);
      }
    }

    /** Where `instrumentKernel` inserts: for `EXIT_KERNEL` it walks back
        from the exit block to the last block with instructions. */
    method FindKernelSpot(marker: string) returns (spot: Option<Spot>)
      ensures spot == KernelSpot(marker, graph.blocks)
    {
      if |graph.blocks| == 0 {
        return None;
      }
      if marker == ExitKernel {
        var b: nat := |graph.blocks| - 1;
        while |graph.blocks[b].instructions| == 0 && b > 0
          invariant b < |graph.blocks|
          invariant LastNonEmpty(graph.blocks, |graph.blocks|) == LastNonEmpty(graph.blocks, b + 1)
        {
          b := b - 1;
        }
        if |graph.blocks[b].instructions| == 0 {
          return None;
        }
        spot := Some(Spot(b, |graph.blocks[b].instructions| - 1));
      } else if |graph.blocks| == 1 {
        spot := None;
      } else {
        spot := Some(Spot(1, 0));
      }
    }

    /** The search of `instrumentBasicBlock` for the statement that names an
        executed-count placeholder. It does not stop at a match. */
    static method LocatePlaceholder(stmts: seq<Statement>) returns (at: Located)
      ensures at == Locate(stmts, |stmts|)
    {
      at := Located(None, false, DefaultOperand);
      var j := 0;
      while j < |stmts|
        invariant j <= |stmts| && at == Locate(stmts, j)
      {
        match MentionOf(stmts[j].instruction) {
          case NoMention =>
          case ExecutedMention => at := at.(position := Some(j));
          case PredicatedMention => at := Located(Some(j), true, stmts[j].instruction.Op(PG));
        }
        j := j + 1;
      }
    }

    /** A guarded matching instruction when predication is checked: the
        counting idiom goes right after the placeholder statement; without
        a placeholder statement the search throws. */
    method CountGuardedInstruction(ins: Instruction, st: BlockScan) returns (r: BlockScan)
      requires st.registers == RegisterState()
      modifies graph
      ensures r == CountGuarded(ins, st) && r.registers == RegisterState()
      ensures graph.blocks == old(graph.blocks)
    {
      var at := LocatePlaceholder(st.statements);
      if at.position.None? {
        r := st.(matched := st.matched + 1, failed := true);
        return;
      }
      var p := at.position.value;
      var idiom := SynthesizeIdiom(ins, at, st.statements[p].instruction.Op(D));
      r := CountedAt(st, p, (idiom, RegisterState()));
    }

    /** The counting idiom for `ins`, with one fresh register for the
        scalar idiom and three for the warp-level one. */
    method SynthesizeIdiom(ins: Instruction, at: Located, counter: Operand) returns (idiom: seq<Statement>)
      modifies graph
      ensures (idiom, RegisterState()) == Synthesize(ins, at, counter, old(RegisterState()))
      ensures graph.blocks == old(graph.blocks)
    {
      var predCount := graph.NewRegister();
      if at.isPredInstCount {
        var popcResult := graph.NewRegister();
        var cvtResult := graph.NewRegister();
        idiom := AsStatements(WarpIdiom(ins, counter, at.guard, predCount, popcResult, cvtResult));
        SynthesizedWarp(ins, at, counter, old(RegisterState()));
      } else {
        idiom := AsStatements(ScalarIdiom(ins, counter, predCount));
        SynthesizedScalar(ins, at, counter, old(RegisterState()));
      }
    }

    /** One instruction of the scan of `instrumentBasicBlock`. */
    method ScanInstruction(tb: TranslationBlock, ins: Instruction, st: BlockScan) returns (r: BlockScan)
      requires st.registers == RegisterState()
      modifies graph
      ensures r == ScanStep(tb.specifier, ins, st) && r.registers == RegisterState()
      ensures graph.blocks == old(graph.blocks)
    {
      r := st;
      if ConditionsMet(tb.specifier, ins) {
        if tb.specifier.checkForPredication && ins.IsGuarded() {
          r := CountGuardedInstruction(ins, st);
        } else {
          r := st.(matched := st.matched + 1, executed := st.executed + 1);
        }
      }
    }

    /** The instruction loop of `instrumentBasicBlock` over one block,
        ending early when the search throws. */
    method ScanInstructions(tb: TranslationBlock, instrs: seq<Instruction>) returns (r: BlockScan)
      modifies graph
      ensures r == ScanBlock(tb, instrs, 0, BlockScan(tb.statements, old(RegisterState()), 0, 0, false))
      ensures r.registers == RegisterState() && graph.blocks == old(graph.blocks)
    {
      r := BlockScan(tb.statements, RegisterState(), 0, 0, false);
      var k := 0;
      while k < |instrs| && !r.failed
        invariant k <= |instrs| && r.registers == RegisterState() && graph.blocks == old(graph.blocks)
        invariant ScanBlock(tb, instrs, k, r) == ScanBlock(tb, instrs, 0, BlockScan(tb.statements, old(RegisterState()), 0, 0, false))
      {
        r := ScanInstruction(tb, instrs[k], r);
        k := k + 1;
      }
    }

    /** The strip loop of `instrumentBasicBlock`, as intended: an erased run
        is followed by a look at the statement that moved into its place. */
    static method StripIdioms(s0: seq<Statement>) returns (s: seq<Statement>)
      ensures s == Strip(s0, 0)
    {
      s := s0;
      var i := 0;
      while i < |s|
        invariant i <= |s| && Strip(s, i) == Strip(s0, 0)
        decreases |s| + (|s| - i)
      {
        if ScalarIdiomAt(s, i) {
          s := s[..i] + s[i + 2..];
        } else if WarpIdiomAt(s, i) {
          s := s[..i] + s[i + 4..];
        } else {
          i := i + 1;
        }
      }
    }

    /** One non-empty block of `instrumentBasicBlock`. */
    method InstrumentOneBasicBlock(tb: TranslationBlock, b: nat, attrs: StaticAttributes) returns (r: BlockStep)
      requires b < |graph.blocks| && |graph.blocks[b].instructions| > 0
      modifies this, graph
      ensures r == InstrumentOneBlock(Prepare, tb, b, attrs, old(State())) && r.world == State()
      ensures statements == old(statements) && registerNames == old(registerNames) && constants == old(constants)
    {
      var instrs := graph.blocks[b].instructions;
      ghost var w0 := State();
      var scan := ScanInstructions(tb, instrs);
      OneBlockAfterScan(tb, b, attrs, w0, scan);
      assert State() == w0.(registers := scan.registers);
      if scan.failed {
        r := BlockStep(State(), attrs, tb.statements, true);
        return;
      }
      var a := attrs.(basicBlockInstructionCount := scan.matched, basicBlockExecutedInstructionCount := scan.executed);
      var loc := if tb.labelName == ExitBasicBlock then |instrs| - 1 else 0;
      var _ := InsertBefore(scan.statements, a, b, loc);
      var kept := scan.statements;
      if tb.specifier.checkForPredication {
        kept := StripIdioms(scan.statements);
      }
      r := BlockStep(State(), a.(basicBlockId := a.basicBlockId + 1), kept, false);
    }

    /** `instrumentBasicBlock(translationBlock)`: `failed` says the
        placeholder search threw, which ends the block loop. */
    method InstrumentBasicBlock(tb: TranslationBlock) returns (failed: bool)
      modifies this, graph
      ensures Outcome(State(), failed) == Splicer.InstrumentBasicBlock(Prepare, tb, old(State()))
      ensures statements == old(statements) && registerNames == old(registerNames) && constants == old(constants)
    {
      var attrs := ZeroAttributes.(basicBlockCount := BasicBlockCount(|graph.blocks|));
      ghost var target := InstrumentBasicBlocksFrom(Prepare, tb, 1, attrs, State());
      ghost var n := |graph.blocks|;
      var block := tb;
      var b := 1;
      failed := false;
      while b < |graph.blocks|
        invariant 1 <= b && |graph.blocks| == n
        invariant InstrumentBasicBlocksFrom(Prepare, block, b, attrs, State()) == target
        invariant statements == old(statements) && registerNames == old(registerNames) && constants == old(constants)
        decreases |graph.blocks| - b
      {
        if |graph.blocks[b].instructions| > 0 {
          var step := InstrumentOneBasicBlock(block, b, attrs);
          if step.failed {
            failed := true;
            return;
          }
          block := block.(statements := step.statements);
          attrs := step.attrs;
        }
        b := b + 1;
      }
    }
      /** `optimize(translation.statements)`: one pass that edits the
        statements and the constants table in place, scheduling statements
        for erasure, then one that keeps the statements not scheduled. */
    method Optimize()
      modifies this
      ensures (statements, constants) == Optimizer.Optimize(old(statements), old(constants))
      ensures registerNames == old(registerNames) && newRegisterMap == old(newRegisterMap)
    {
      var toErase := ScanStatements();
      EraseScheduled(toErase);
    }

    /** The first loop of `optimize`: every statement in turn goes through
        one step of the scan; returns the statements scheduled for erasure. */
    method ScanStatements() returns (toErase: set<Statement>)
      modifies this
      ensures var done := Reached(old(statements), old(constants), |old(statements)|);
        statements == done.statements && constants == done.constants && toErase == done.toErase
      ensures registerNames == old(registerNames) && newRegisterMap == old(newRegisterMap)
    {
      ghost var target := Reached(statements, constants, |statements|);
      toErase := {};
      var saveOperands := false;
      var saved := DefaultOperand;
      var i := 0;
      while i < |statements|
        invariant i <= |statements| == |old(statements)|
        invariant ScanRemaining(i, toErase, saveOperands, saved) == target
        invariant registerNames == old(registerNames) && newRegisterMap == old(newRegisterMap)
      {
        toErase, saveOperands, saved := ScanNext(i, toErase, saveOperands, saved);
        i := i + 1;
      }
    }

    /** What the rest of the scan, from statement `i` on, would leave. */
    ghost function ScanRemaining(i: nat, toErase: set<Statement>, saveOperands: bool, saved: Operand): ScanState
      reads this
    {
      Iterate(Step, ScanState(statements, constants, toErase, saveOperands, saved), i, |statements|)
    }

    /** The body of the first loop of `optimize`: one step of the scan at
        statement `i`, after which the rest of the scan starts at `i + 1`. */
    method ScanNext(i: nat, toErase0: set<Statement>, saveOperands0: bool, saved0: Operand)
      returns (toErase: set<Statement>, saveOperands: bool, saved: Operand)
      requires i < |statements|
      modifies this
      ensures |statements| == |old(statements)|
      ensures ScanRemaining(i + 1, toErase, saveOperands, saved) == old(ScanRemaining(i, toErase0, saveOperands0, saved0))
      ensures registerNames == old(registerNames) && newRegisterMap == old(newRegisterMap)
    {
      ghost var st := ScanState(statements, constants, toErase0, saveOperands0, saved0);
      toErase, saveOperands, saved := OptimizeAt(i, toErase0, saveOperands0, saved0);
      IterateNext(Step, st, ScanState(statements, constants, toErase, saveOperands, saved), i, |st.statements|);
    }

    /** The second loop of `optimize`: the statements that equal no
        scheduled statement are kept, in order. */
    method EraseScheduled(toErase: set<Statement>)
      modifies this
      ensures statements == Filter(old(statements), toErase)
      ensures constants == old(constants) && registerNames == old(registerNames) && newRegisterMap == old(newRegisterMap)
    {
      var kept := [];
      var j := 0;
      while j < |statements|
        invariant j <= |statements| && kept == Filter(statements[..j], toErase)
      {
        if statements[j] !in toErase {
          kept := kept + [statements[j]];
        }
        assert statements[..j + 1][..j] == statements[..j];
        j := j + 1;
      }
      assert statements[..j] == statements;
      statements := kept;
    }

    /** One iteration of the first loop of `optimize`, at statement `i`:
        record a constant move, fold the sources, and fuse a multiply with
        the add after it, pairing a load or a store two statements on. */
    method OptimizeAt(i: nat, toErase0: set<Statement>, saveOperands0: bool, saved0: Operand)
      returns (toErase: set<Statement>, saveOperands: bool, saved: Operand)
      requires i < |statements|
      modifies this
      ensures ScanState(statements, constants, toErase, saveOperands, saved)
           == Step(ScanState(old(statements), old(constants), toErase0, saveOperands0, saved0), i)
      ensures registerNames == old(registerNames) && newRegisterMap == old(newRegisterMap)
    {
      ghost var st := ScanState(statements, constants, toErase0, saveOperands0, saved0);
      toErase, saveOperands, saved := toErase0, saveOperands0, saved0;
      var n := |statements|;
      var s := statements[i];
      if IsConstantMove(s.instruction) {
        constants := constants[s.instruction.Op(D).identifier := ToUnsigned32(s.instruction.Op(A).imm)];
        toErase := toErase + {s};
      }
      statements := statements[i := s.(instruction := Fold(s.instruction, constants))];
      assert ScanState(statements, constants, toErase, saveOperands, saved) == FoldAt(Record(st, i), i);
      if i + 1 < n && Fusable(statements[i].instruction, statements[i + 1].instruction) {
        toErase, saveOperands, saved := FuseAt(i, toErase, saveOperands, saved);
      }
    }

    /** The fusion of the multiply at `i` with the add after it, and the
        load/store pairing that follows it. */
    method FuseAt(i: nat, toErase0: set<Statement>, saveOperands0: bool, saved0: Operand)
      returns (toErase: set<Statement>, saveOperands: bool, saved: Operand)
      requires i + 1 < |statements|
      modifies this
      ensures ScanState(statements, constants, toErase, saveOperands, saved)
           == Paired(Fused(ScanState(old(statements), old(constants), toErase0, saveOperands0, saved0), i), i)
      ensures registerNames == old(registerNames) && newRegisterMap == old(newRegisterMap)
    {
      ghost var st := ScanState(statements, constants, toErase0, saveOperands0, saved0);
      toErase, saveOperands, saved := toErase0, saveOperands0, saved0;
      var n := |statements|;
      var next := statements[i + 1];
      statements := statements[i := statements[i].(instruction := Fuse(statements[i].instruction, next.instruction))];
      toErase := toErase + {next};
      assert ScanState(statements, constants, toErase, saveOperands, saved) == Fused(st, i);
      toErase, saveOperands, saved := PairAt(i, toErase, saveOperands, saved);
    }

    /** The load/store pairing after the fusion at `i`. */
    method PairAt(i: nat, toErase0: set<Statement>, saveOperands0: bool, saved0: Operand)
      returns (toErase: set<Statement>, saveOperands: bool, saved: Operand)
      requires i < |statements|
      modifies this
      ensures ScanState(statements, constants, toErase, saveOperands, saved)
           == Paired(ScanState(old(statements), old(constants), toErase0, saveOperands0, saved0), i)
      ensures registerNames == old(registerNames) && newRegisterMap == old(newRegisterMap)
    {
      toErase, saveOperands, saved := toErase0, saveOperands0, saved0;
      var n := |statements|;
      if i + 2 < n && statements[i + 2].instruction.opcode == Ld {
        saveOperands := true;
        saved := statements[i].instruction.Op(D);
      } else if saveOperands && i + 2 < n && statements[i + 2].instruction.opcode == St {
        var store := statements[i + 2].instruction;
        statements := statements[i + 2 := statements[i + 2].(instruction := store.WithOp(D, store.Op(D).(identifier := saved.identifier)))];
        toErase := toErase + {statements[i]};
        saveOperands := false;
      }
    }

    /** The register loop of `runOnKernel`: every name of the translation
        gets a fresh register, a repeated name the last one. */
    method AllocateTranslationRegisters()
      modifies this, graph
      ensures RegisterState() == AllocateRegisters(old(RegisterState()), registerNames)
      ensures graph.blocks == old(graph.blocks)
      ensures statements == old(statements) && registerNames == old(registerNames) && constants == old(constants)
    {
      var j := 0;
      while j < |registerNames|
        invariant j <= |registerNames|
        invariant RegisterState() == AllocateRegisters(old(RegisterState()), registerNames[..j])
        invariant graph.blocks == old(graph.blocks)
        invariant statements == old(statements) && registerNames == old(registerNames) && constants == old(constants)
      {
        BindRegister(registerNames[j]);
        assert registerNames[..j + 1][..j] == registerNames[..j];
        j := j + 1;
      }
      assert registerNames[..j] == registerNames;
    }

    /** The statement loop of `runOnKernel`: declarations go to the kernel,
        the rest into translation blocks. */
    method PartitionStatements(kernel: PtxKernel) returns (p: Partition)
      modifies kernel
      ensures p == PartitionOf(statements)
      ensures kernel.parameters == old(kernel.parameters) + p.parameters
      ensures kernel.locals == AddLocals(old(kernel.locals), p.locals)
    {
      p := NoPartition;
      var j := 0;
      while j < |statements|
        invariant j <= |statements| && p == PartitionOf(statements[..j])
        invariant kernel.parameters == old(kernel.parameters) + p.parameters
        invariant kernel.locals == AddLocals(old(kernel.locals), p.locals)
      {
        p := PartitionNext(kernel, j, p, old(kernel.parameters), old(kernel.locals));
        j := j + 1;
      }
      assert statements[..j] == statements;
    }

    /** The body of the statement loop of `runOnKernel` at statement `j`: a
        parameter is added to the kernel's parameters, a shared declaration
        to its locals, and the statement takes its step of the partition. */
    method PartitionNext(kernel: PtxKernel, j: nat, p: Partition, ghost parameters0: seq<Statement>,
                         ghost locals0: map<string, Statement>) returns (p': Partition)
      requires j < |statements| && p == PartitionOf(statements[..j])
      requires kernel.parameters == parameters0 + p.parameters && kernel.locals == AddLocals(locals0, p.locals)
      modifies kernel
      ensures p' == PartitionOf(statements[..j + 1])
      ensures kernel.parameters == parameters0 + p'.parameters && kernel.locals == AddLocals(locals0, p'.locals)
    {
      var s := statements[j];
      if s.directive == Param {
        kernel.InsertParameter(s);
      } else if s.directive == Shared {
        kernel.InsertLocal(s);
        AddLocalsNext(locals0, p.locals, s);
      }
      p' := PartitionStep(p, s);
      PartitionOfNext(statements, j);
    }

    /** The dispatch loop of `runOnKernel` and the final `instrumentKernel`
        of the initial block; a throw ends the run. */
    method Dispatch(p: Partition) returns (failed: bool)
      modifies this, graph
      ensures var marked := DispatchFrom(Prepare, Dispatched(p)[..|p.blocks|], 0, old(State()));
        && failed == marked.failed
        && State() == if failed then marked.world else Splicer.InstrumentKernel(Prepare, p.initial, marked.world)
      ensures statements == old(statements) && registerNames == old(registerNames) && constants == old(constants)
    {
      ghost var blocks := Dispatched(p)[..|p.blocks|];
      ghost var target := DispatchFrom(Prepare, blocks, 0, State());
      var j := 0;
      while j < |p.blocks|
        invariant j <= |p.blocks|
        invariant DispatchFrom(Prepare, blocks, j, State()) == target
        invariant statements == old(statements) && registerNames == old(registerNames) && constants == old(constants)
      {
        var tb := WithInitialFilters(p.blocks[j], p.initial);
        assert tb == blocks[j];
        ghost var w := State();
        failed := DispatchBlock(tb);
        DispatchFromStep(Prepare, blocks, j, w, Outcome(State(), failed));
        if failed {
          return;
        }
        j := j + 1;
      }
      failed := false;
      InstrumentKernel(p.initial);
    }

    /** The `switch` on the target of one translation block. */
    method DispatchBlock(tb: TranslationBlock) returns (failed: bool)
      modifies this, graph
      ensures Outcome(State(), failed) == DispatchOne(Prepare, tb, old(State()))
      ensures statements == old(statements) && registerNames == old(registerNames) && constants == old(constants)
    {
      match tb.target {
        case InstructionTarget =>
          InstrumentInstruction(tb);
          failed := false;
        case BasicBlockTarget =>
          failed := InstrumentBasicBlock(tb);
        case KernelTarget =>
          InstrumentKernel(tb);
          failed := false;
      }
    }

    /** `runOnKernel(k)`. */
    method RunOnKernel(kernel: PtxKernel) returns (failed: bool)
      modifies this, graph, kernel
      ensures Run(statements, constants, Kernel(kernel.parameters, kernel.locals), State(), failed)
           == Runner.RunOnKernel(Prepare, old(statements), old(registerNames), old(constants),
                                 old(Kernel(kernel.parameters, kernel.locals)), old(State()))
    {
      ghost var w0 := State();
      Optimize();
      AllocateTranslationRegisters();
      ghost var w1 := State();
      assert w1 == w0.(registers := AllocateRegisters(w0.registers, registerNames));
      var p := PartitionStatements(kernel);
      PartitionCorrect(statements);
      ghost var ds := Dispatched(p);
      assert ds == ds[..|p.blocks|] + [p.initial];
      DispatchAppend(Prepare, ds[..|p.blocks|], p.initial, 0, w1);
      failed := Dispatch(p);
    }
  }
}
