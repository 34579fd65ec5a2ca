/** `runOnKernel`: optimise the translated statements, give every register
    the translation declares a fresh register of the graph, partition the
    statements into translation blocks and hand the declarations to the
    kernel, then apply every block to the graph by its target, the initial
    block last at kernel entry. An exception from a basic-block target ends
    the run where it stands. */
module Runner {
  import opened Ptx
  import opened Translation
  import opened Rewriter
  import opened Optimizer
  import opened Partitioner
  import opened Splicer

  /** The part of the kernel the run adds declarations to: its parameter
      list, and its locals keyed by name. */
  datatype Kernel = Kernel(parameters: seq<Statement>, locals: map<string, Statement>)

  /** The loop over `translation.registers`: each name is bound to a new
      register of the graph, in order. */
  function AllocateRegisters(rs: Registers, names: seq<string>): (r: Registers)
    ensures r.maxRegister == rs.maxRegister + |names|
    ensures forall n :: n in rs.names ==> n in r.names
    ensures forall j :: 0 <= j < |names| ==> names[j] in r.names
    ensures forall n :: n in rs.names && n !in names ==> r.names[n] == rs.names[n]
    decreases |names|
  {
    if names == [] then rs
    else
      var init := names[..|names| - 1];
      var r := Bind(AllocateRegisters(rs, init), names[|names| - 1]);
      assert forall n :: n in names <==> n in init || n == names[|names| - 1];
      r
  }

  /** A name the allocation does not list stays unbound: with the ensures of
      `AllocateRegisters`, exactly the earlier names and the listed names are
      bound afterwards. */
  lemma Unbound(rs: Registers, names: seq<string>, name: string)
    requires name !in rs.names && name !in names
    ensures name !in AllocateRegisters(rs, names).names
  {
  }

  /** A name is bound to the register allocated for its last occurrence: the
      `j`-th name, when no later name repeats it, gets the `j + 1`-th register
      after the counter. */
  lemma {:induction false} LastBindingWins(rs: Registers, names: seq<string>, j: nat)
    requires j < |names| && forall i :: j < i < |names| ==> names[i] != names[j]
    ensures AllocateRegisters(rs, names).names[names[j]] == rs.maxRegister + j + 1
    decreases |names|
  {
    var n := |names|;
    if j < n - 1 {
      var init := names[..n - 1];
      LastBindingWins(rs, init, j);
    }
  }

  /** Allocation keeps every bound register below the counter, and every
      name it binds gets a register the counter had not yet handed out. */
  lemma {:induction false} AllocationFresh(rs: Registers, names: seq<string>)
    requires RegistersValid(rs)
    ensures RegistersValid(AllocateRegisters(rs, names))
    ensures forall j :: 0 <= j < |names| ==> AllocateRegisters(rs, names).names[names[j]] > rs.maxRegister
    decreases |names|
  {
    if names != [] {
      var init := names[..|names| - 1];
      AllocationFresh(rs, init);
      forall j | 0 <= j < |names|
        ensures AllocateRegisters(rs, names).names[names[j]] > rs.maxRegister
      {
        if names[j] != names[|names| - 1] {
          assert names[j] == init[j];
        }
      }
    }
  }

  /** Distinct names get distinct registers. */
  lemma DistinctNamesDistinctRegisters(rs: Registers, names: seq<string>, i: nat, j: nat)
    requires i < j < |names| && names[i] != names[j]
    requires forall k :: i < k < |names| ==> names[k] != names[i]
    requires forall k :: j < k < |names| ==> names[k] != names[j]
    ensures AllocateRegisters(rs, names).names[names[i]] != AllocateRegisters(rs, names).names[names[j]]
  {
    LastBindingWins(rs, names, i);
    LastBindingWins(rs, names, j);
  }

  /** `ptxKernel->locals.insert(...)` for each shared declaration in order:
      an insertion under a name already present leaves the entry alone. */
  function AddLocals(locals: map<string, Statement>, decls: seq<Statement>): (r: map<string, Statement>)
    ensures forall n :: n in locals ==> n in r && r[n] == locals[n]
    ensures forall j :: 0 <= j < |decls| ==> decls[j].name in r
    decreases |decls|
  {
    if decls == [] then locals
    else
      var init := decls[..|decls| - 1];
      var prev := AddLocals(locals, init);
      var d := decls[|decls| - 1];
      if d.name in prev then prev else prev[d.name := d]
  }

  /** One more declaration: it is added unless its name is taken. */
  lemma AddLocalsNext(locals: map<string, Statement>, decls: seq<Statement>, d: Statement)
    ensures var prev := AddLocals(locals, decls);
      AddLocals(locals, decls + [d]) == if d.name in prev then prev else prev[d.name := d]
  {
    assert (decls + [d])[..|decls|] == decls;
  }

  /** The first declaration of a name the kernel does not have yet is the
      one it keeps. */
  lemma {:induction false} FirstDeclarationWins(locals: map<string, Statement>, decls: seq<Statement>, j: nat)
    requires j < |decls| && decls[j].name !in locals
    requires forall i :: 0 <= i < j ==> decls[i].name != decls[j].name
    ensures AddLocals(locals, decls)[decls[j].name] == decls[j]
    decreases |decls|
  {
    var n := |decls|;
    var init := decls[..n - 1];
    var d := decls[n - 1];
    var prev := AddLocals(locals, init);
    assert AddLocals(locals, decls) == if d.name in prev then prev else prev[d.name := d];
    if j < n - 1 {
      assert init[j] == decls[j];
      FirstDeclarationWins(locals, init, j);
    } else {
      Undeclared(locals, init, d.name);
    }
  }

  /** A name none of the declarations carries stays undeclared: with the
      ensures of `AddLocals`, the kernel declares exactly the names it had
      and the names of the declarations. */
  lemma Undeclared(locals: map<string, Statement>, decls: seq<Statement>, name: string)
    requires name !in locals && forall i :: 0 <= i < |decls| ==> decls[i].name != name
    ensures name !in AddLocals(locals, decls)
  {
  }

  /** The `switch` on the target of one translation block. Only the
      basic-block splicer can throw. */
  function DispatchOne(prep: Preparer, tb: TranslationBlock, w: World): Outcome {
    match tb.target
    case InstructionTarget => Outcome(InstrumentInstruction(prep, tb, w), false)
    case BasicBlockTarget => InstrumentBasicBlock(prep, tb, w)
    case KernelTarget => Outcome(InstrumentKernel(prep, tb, w), false)
  }

  /** The dispatch loop from block `j` on, stopping at the first throw. */
  function DispatchFrom(prep: Preparer, blocks: seq<TranslationBlock>, j: nat, w: World): (r: Outcome)
    decreases |blocks| - j
  {
    if j >= |blocks| then Outcome(w, false)
    else
      var o := DispatchOne(prep, blocks[j], w);
      if o.failed then o else DispatchFrom(prep, blocks, j + 1, o.world)
  }

  /** One block of the dispatch loop, when dispatching it gave `o`. */
  lemma DispatchFromStep(prep: Preparer, blocks: seq<TranslationBlock>, j: nat, w: World, o: Outcome)
    requires j < |blocks| && o == DispatchOne(prep, blocks[j], w)
    ensures DispatchFrom(prep, blocks, j, w) == if o.failed then o else DispatchFrom(prep, blocks, j + 1, o.world)
  {
  }

  /** What `runOnKernel` leaves: the optimised statements and the constants
      table (both kept by the pass for the next kernel), the kernel's
      declarations, the graph and register state, and whether it threw. */
  datatype Run = Run(statements: seq<Statement>, constants: map<string, nat>, kernel: Kernel, world: World, failed: bool)

  /** `runOnKernel(k)` given the translation's statements and register
      names, the pass's constants table, the kernel and the graph. */
  function RunOnKernel(prep: Preparer, statements: seq<Statement>, registerNames: seq<string>,
                       constants: map<string, nat>, kernel: Kernel, w: World): Run
  {
    var (optimized, constants') := Optimize(statements, constants);
    var w1 := w.(registers := AllocateRegisters(w.registers, registerNames));
    var p := PartitionOf(optimized);
    var k := Kernel(kernel.parameters + p.parameters, AddLocals(kernel.locals, p.locals));
    var o := DispatchFrom(prep, Dispatched(p), 0, w1);
    Run(optimized, constants', k, o.world, o.failed)
  }

  // The dispatch.

  /** Every splicer keeps the blocks of the graph and their labels. */
  predicate SameShape(xs: seq<BasicBlock>, ys: seq<BasicBlock>) {
    |xs| == |ys| && forall c :: 0 <= c < |xs| ==> xs[c].labelName == ys[c].labelName
  }

  lemma DispatchOneShape(prep: Preparer, tb: TranslationBlock, w: World)
    ensures SameShape(DispatchOne(prep, tb, w).world.blocks, w.blocks)
  {
    match tb.target
    case InstructionTarget =>
      var blocks := InsertAtCtaid(w.blocks);
      assert SameShape(blocks, w.blocks);
    case BasicBlockTarget =>
    case KernelTarget =>
  }

  lemma {:induction false} DispatchShape(prep: Preparer, blocks: seq<TranslationBlock>, j: nat, w: World)
    ensures SameShape(DispatchFrom(prep, blocks, j, w).world.blocks, w.blocks)
    decreases |blocks| - j
  {
    if j < |blocks| {
      DispatchOneShape(prep, blocks[j], w);
      var o := DispatchOne(prep, blocks[j], w);
      if !o.failed {
        DispatchShape(prep, blocks, j + 1, o.world);
      }
    }
  }

  /** The basic-block splicer throws only for a block that checks predication. */
  lemma {:induction false} BasicBlocksThrowOnlyChecked(prep: Preparer, tb: TranslationBlock, b: nat,
                                                       attrs: StaticAttributes, w: World)
    requires !tb.specifier.checkForPredication
    ensures !InstrumentBasicBlocksFrom(prep, tb, b, attrs, w).failed
    decreases |w.blocks| - b
  {
    if b < |w.blocks| {
      if |w.blocks[b].instructions| == 0 {
        BasicBlocksThrowOnlyChecked(prep, tb, b + 1, attrs, w);
      } else {
        var instrs := w.blocks[b].instructions;
        ScanCounts(tb, instrs, 0, BlockScan(tb.statements, w.registers, 0, 0, false));
        var step := InstrumentOneBlock(prep, tb, b, attrs, w);
        assert !step.failed;
        BasicBlocksThrowOnlyChecked(prep, tb.(statements := step.statements), b + 1, step.attrs, step.world);
      }
    }
  }

  /** The dispatch throws only at a basic-block target that checks
      predication. */
  lemma {:induction false} DispatchThrowsOnlyChecked(prep: Preparer, blocks: seq<TranslationBlock>, j: nat, w: World)
    ensures DispatchFrom(prep, blocks, j, w).failed ==>
      exists i :: j <= i < |blocks| && blocks[i].target == BasicBlockTarget && blocks[i].specifier.checkForPredication
    decreases |blocks| - j
  {
    if j < |blocks| {
      var o := DispatchOne(prep, blocks[j], w);
      if blocks[j].target == BasicBlockTarget && !blocks[j].specifier.checkForPredication {
        BasicBlocksThrowOnlyChecked(prep, blocks[j], 1, ZeroAttributes.(basicBlockCount := BasicBlockCount(|w.blocks|)), w);
      }
      if !o.failed {
        DispatchThrowsOnlyChecked(prep, blocks, j + 1, o.world);
      }
    }
  }

  /** Dispatching one more block continues from where the others left the
      graph, unless they threw. */
  lemma {:induction false} DispatchAppend(prep: Preparer, blocks: seq<TranslationBlock>, tb: TranslationBlock, j: nat, w: World)
    requires j <= |blocks|
    ensures var o := DispatchFrom(prep, blocks, j, w);
      DispatchFrom(prep, blocks + [tb], j, w) == if o.failed then o else DispatchOne(prep, tb, o.world)
    decreases |blocks| - j
  {
    var all := blocks + [tb];
    if j < |blocks| {
      assert all[j] == blocks[j];
      var o := DispatchOne(prep, blocks[j], w);
      if !o.failed {
        DispatchAppend(prep, blocks, tb, j + 1, o.world);
      }
    } else {
      assert all[j] == tb;
      var o := DispatchOne(prep, tb, w);
      assert DispatchFrom(prep, all, j + 1, o.world) == Outcome(o.world, false);
    }
  }

  // The run.

  /** The run replaces the statements and the constants table by what
      `optimize` makes of them, and hands every parameter declaration to the
      kernel's parameter list and every shared declaration to its locals, in
      order, whether or not the dispatch throws. */
  lemma RunDeclarations(prep: Preparer, statements: seq<Statement>, registerNames: seq<string>,
                        constants: map<string, nat>, kernel: Kernel, w: World)
    ensures var r := RunOnKernel(prep, statements, registerNames, constants, kernel, w);
      var optimized := Optimize(statements, constants).0;
      && r.statements == optimized && r.constants == Optimize(statements, constants).1
      && r.kernel.parameters == kernel.parameters + WithDirective(optimized, Param)
      && r.kernel.locals == AddLocals(kernel.locals, WithDirective(optimized, Shared))
  {
    PartitionCorrect(Optimize(statements, constants).0);
  }

  /** The run keeps the graph's blocks and their labels. */
  lemma RunShape(prep: Preparer, statements: seq<Statement>, registerNames: seq<string>,
                 constants: map<string, nat>, kernel: Kernel, w: World)
    ensures SameShape(RunOnKernel(prep, statements, registerNames, constants, kernel, w).world.blocks, w.blocks)
  {
    var p := PartitionOf(Optimize(statements, constants).0);
    DispatchShape(prep, Dispatched(p), 0, w.(registers := AllocateRegisters(w.registers, registerNames)));
  }

  /** The run throws only when a basic-block marker opens a translation
      block that names an executed-count placeholder; and when it does not
      throw, the initial block is instrumented last, at kernel entry, over
      the graph the marked blocks left. */
  lemma RunOutcome(prep: Preparer, statements: seq<Statement>, registerNames: seq<string>,
                   constants: map<string, nat>, kernel: Kernel, w: World)
    ensures var r := RunOnKernel(prep, statements, registerNames, constants, kernel, w);
      var p := PartitionOf(Optimize(statements, constants).0);
      var w1 := w.(registers := AllocateRegisters(w.registers, registerNames));
      var marked := DispatchFrom(prep, Dispatched(p)[..|p.blocks|], 0, w1);
      && (r.failed ==> exists i :: 0 <= i < |p.blocks| && p.blocks[i].target == BasicBlockTarget
                                   && MentionsAny(p.blocks[i].statements))
      && (r.failed <==> marked.failed)
      && (!r.failed ==> r.world == InstrumentKernel(prep, p.initial, marked.world))
  {
    var optimized := Optimize(statements, constants).0;
    var p := PartitionOf(optimized);
    var w1 := w.(registers := AllocateRegisters(w.registers, registerNames));
    PartitionCorrect(optimized);
    DispatchedLast(prep, p, w1);
    DispatchedThrows(prep, optimized, w1);
  }

  /** The initial block, dispatched last, instruments the kernel entry of
      the graph the marked blocks left. */
  lemma DispatchedLast(prep: Preparer, p: Partition, w1: World)
    requires p.initial.target == KernelTarget
    ensures var marked := DispatchFrom(prep, Dispatched(p)[..|p.blocks|], 0, w1);
      var o := DispatchFrom(prep, Dispatched(p), 0, w1);
      && (o.failed <==> marked.failed)
      && (!o.failed ==> o.world == InstrumentKernel(prep, p.initial, marked.world))
  {
    var ds := Dispatched(p);
    var n := |p.blocks|;
    assert ds == ds[..n] + [p.initial];
    DispatchAppend(prep, ds[..n], p.initial, 0, w1);
  }

  /** The dispatch of a partition throws only at a marked block whose
      statements name an executed-count placeholder. */
  lemma DispatchedThrows(prep: Preparer, statements: seq<Statement>, w1: World)
    ensures var p := PartitionOf(statements);
      DispatchFrom(prep, Dispatched(p), 0, w1).failed ==>
        exists i :: 0 <= i < |p.blocks| && p.blocks[i].target == BasicBlockTarget
                    && MentionsAny(p.blocks[i].statements)
  {
    var p := PartitionOf(statements);
    var ds := Dispatched(p);
    DispatchThrowsOnlyChecked(prep, ds, 0, w1);
    if DispatchFrom(prep, ds, 0, w1).failed {
      var i :| 0 <= i < |ds| && ds[i].target == BasicBlockTarget && ds[i].specifier.checkForPredication;
      PartitionCorrect(statements);
      assert i < |p.blocks|;
      DispatchedFilters(statements, i);
    }
  }

  /** The graph the dispatch starts from binds every declared register name
      to a fresh register, the last occurrence of a name winning. */
  lemma AllocatedBeforeDispatch(w: World, registerNames: seq<string>, j: nat)
    requires RegistersValid(w.registers)
    requires j < |registerNames| && forall i :: j < i < |registerNames| ==> registerNames[i] != registerNames[j]
    ensures var w1 := w.(registers := AllocateRegisters(w.registers, registerNames));
      && RegistersValid(w1.registers)
      && w1.registers.names[registerNames[j]] == w.registers.maxRegister + j + 1
  {
    AllocationFresh(w.registers, registerNames);
    LastBindingWins(w.registers, registerNames, j);
  }
}
