/** The partitioner of `runOnKernel`: one pass over the translated
    statements that routes declarations to the kernel, splits the rest into
    translation blocks at the target-marker labels, and collects the filter
    labels and the predication flag into the specifier of the block they
    occur in. Then every block receives the initial block's filters. */
module Partitioner {
  import opened Ptx
  import opened Vocabulary
  import opened Translation

  /** The state of the scan: the translation blocks opened so far, the
      initial block that collects what comes before the first marker, and
      the parameter and shared declarations handed to the kernel. */
  datatype Partition = Partition(
    blocks: seq<TranslationBlock>,
    initial: TranslationBlock,
    parameters: seq<Statement>,
    locals: seq<Statement>)

  const NoPartition := Partition([], EmptyBlock, [], [])

  /** The two placeholders whose presence turns predication checking on. */
  predicate IsExecutedCountName(x: string) {
    x == BasicBlockExecInstCountName || x == BasicBlockPredInstCountName
  }

  /** A source operand of the instruction names an executed-count placeholder. */
  predicate MentionsExecutedCount(ins: Instruction) {
    IsExecutedCountName(ins.Op(A).identifier) || IsExecutedCountName(ins.Op(B).identifier)
      || IsExecutedCountName(ins.Op(C).identifier)
  }

  predicate IsTargetMarker(name: string) {
    name == EnterKernel || name == ExitKernel || name == EnterBasicBlock || name == ExitBasicBlock
      || name == OnInstruction
  }

  predicate IsMarkerLabel(s: Statement) {
    s.directive == Label && IsTargetMarker(s.name)
  }

  /** The target of the block a marker opens. */
  function TargetOf(marker: string): (r: Target)
    ensures r == InstructionTarget <==> marker == OnInstruction
    ensures r == BasicBlockTarget <==> marker == EnterBasicBlock || marker == ExitBasicBlock
  {
    if marker == OnInstruction then InstructionTarget
    else if marker == EnterBasicBlock || marker == ExitBasicBlock then BasicBlockTarget
    else KernelTarget
  }

  /** The block a marker opens: labelled and identified by the marker, with
      an otherwise default specifier and no statements yet. */
  function Opened(marker: string): TranslationBlock {
    TranslationBlock(TargetOf(marker), [], marker, EmptySpecifier.(id := marker))
  }

  /** The block the scan currently adds to: the newest one, or the initial
      block while none is open. */
  function Newest(p: Partition): TranslationBlock {
    if |p.blocks| > 0 then p.blocks[|p.blocks| - 1] else p.initial
  }

  /** `p` with its newest block replaced by `b` (the back/pop/push idiom). */
  function WithNewest(p: Partition, b: TranslationBlock): (r: Partition)
    ensures Newest(r) == b && |r.blocks| == |p.blocks|
    ensures r.parameters == p.parameters && r.locals == p.locals
    ensures |p.blocks| > 0 ==> r.initial == p.initial && r.blocks[..|p.blocks| - 1] == p.blocks[..|p.blocks| - 1]
    ensures |p.blocks| == 0 ==> r.blocks == []
  {
    if |p.blocks| > 0 then p.(blocks := p.blocks[..|p.blocks| - 1] + [b]) else p.(initial := b)
  }

  function MarkPredication(b: TranslationBlock): TranslationBlock {
    b.(specifier := b.specifier.(checkForPredication := true))
  }

  /** A label naming an instruction class, an address space or a type
      extends the matching filter vector of the block by that name. */
  function AddFilter(b: TranslationBlock, name: string): TranslationBlock {
    var sp := b.specifier;
    var sp1 := if name in InstructionClasses then sp.(instructionClassVector := sp.instructionClassVector + [name]) else sp;
    var sp2 := if name in AddressSpaceSpecifiers then sp1.(addressSpaceVector := sp1.addressSpaceVector + [name]) else sp1;
    var sp3 := if name in Types then sp2.(dataTypeVector := sp2.dataTypeVector + [name]) else sp2;
    b.(specifier := sp3)
  }

  function Appended(b: TranslationBlock, s: Statement): TranslationBlock {
    b.(statements := b.statements + [s])
  }

  /** One iteration of the statement loop, in the order of the source. */
  function PartitionStep(p: Partition, s: Statement): Partition {
    if s.directive == Param then p.(parameters := p.parameters + [s])
    else if s.directive == Shared then p.(locals := p.locals + [s])
    else
      var p1 := if s.directive == Instr && MentionsExecutedCount(s.instruction)
                then WithNewest(p, MarkPredication(Newest(p))) else p;
      var p2 := if s.directive == Label then WithNewest(p1, AddFilter(Newest(p1), s.name)) else p1;
      var p3 := if IsMarkerLabel(s) then p2.(blocks := p2.blocks + [Opened(s.name)]) else p2;
      WithNewest(p3, Appended(Newest(p3), s))
  }

  /** The state after a loop with body `step` has visited `statements`. */
  function Partitioned(step: (Partition, Statement) -> Partition, statements: seq<Statement>): Partition
    decreases |statements|
  {
    if statements == [] then NoPartition
    else step(Partitioned(step, statements[..|statements| - 1]), statements[|statements| - 1])
  }

  /** The state after the statement loop has visited `statements`. */
  function PartitionOf(statements: seq<Statement>): Partition {
    Partitioned(PartitionStep, statements)
  }

  /** The statement loop one statement further on. */
  lemma PartitionOfNext(statements: seq<Statement>, j: nat)
    requires j < |statements|
    ensures PartitionOf(statements[..j + 1]) == PartitionStep(PartitionOf(statements[..j]), statements[j])
  {
    assert statements[..j + 1][..j] == statements[..j];
  }

  // The reference description of a partition.

  predicate IsFilterLabel(s: Statement, names: seq<string>) {
    s.directive == Label && s.name in names
  }

  /** The names of the labels among `statements` that belong to `names`, in order. */
  function Filters(statements: seq<Statement>, names: seq<string>): (r: seq<string>)
    ensures forall k :: 0 <= k < |r| ==> r[k] in names
    decreases |statements|
  {
    if statements == [] then []
    else
      var last := statements[|statements| - 1];
      Filters(statements[..|statements| - 1], names) + (if IsFilterLabel(last, names) then [last.name] else [])
  }

  /** Some instruction among `statements` names an executed-count placeholder. */
  predicate MentionsAny(statements: seq<Statement>) {
    exists k :: 0 <= k < |statements| && statements[k].directive == Instr
      && MentionsExecutedCount(statements[k].instruction)
  }

  /** The specifier of `b` is what its statements say: the three filter
      vectors list its filter labels and predication checking is on exactly
      when one of its instructions names an executed-count placeholder. */
  predicate Summarises(b: TranslationBlock) {
    && b.specifier.instructionClassVector == Filters(b.statements, InstructionClasses)
    && b.specifier.addressSpaceVector == Filters(b.statements, AddressSpaceSpecifiers)
    && b.specifier.dataTypeVector == Filters(b.statements, Types)
    && (b.specifier.checkForPredication <==> MentionsAny(b.statements))
    && !b.specifier.isPredicated && b.specifier.predicateVector == []
  }

  /** `b` was opened by the marker label it starts with and holds no other marker. */
  predicate OpenedBy(b: TranslationBlock) {
    && |b.statements| > 0 && IsMarkerLabel(b.statements[0])
    && b.labelName == b.statements[0].name && b.specifier.id == b.statements[0].name
    && b.target == TargetOf(b.statements[0].name)
    && forall k :: 0 < k < |b.statements| ==> !IsMarkerLabel(b.statements[k])
  }

  predicate NoMarkers(statements: seq<Statement>) {
    forall k :: 0 <= k < |statements| ==> !IsMarkerLabel(statements[k])
  }

  /** The invariant of the scan. */
  predicate Consistent(p: Partition) {
    && Summarises(p.initial) && NoMarkers(p.initial.statements)
    && p.initial.labelName == "" && p.initial.specifier.id == "" && p.initial.target == KernelTarget
    && forall i :: 0 <= i < |p.blocks| ==> Summarises(p.blocks[i]) && OpenedBy(p.blocks[i])
  }

  /** The statements of the blocks, one block after the other. */
  function Concat(blocks: seq<TranslationBlock>): seq<Statement>
    decreases |blocks|
  {
    if blocks == [] then [] else Concat(blocks[..|blocks| - 1]) + blocks[|blocks| - 1].statements
  }

  /** Every statement the partition holds in a block, in order. */
  function Flatten(p: Partition): seq<Statement> {
    p.initial.statements + Concat(p.blocks)
  }

  predicate IsDeclaration(s: Statement) {
    s.directive == Param || s.directive == Shared
  }

  /** The statements that are not declarations, in order. */
  function Body(statements: seq<Statement>): seq<Statement>
    decreases |statements|
  {
    if statements == [] then []
    else
      var last := statements[|statements| - 1];
      Body(statements[..|statements| - 1]) + (if IsDeclaration(last) then [] else [last])
  }

  /** The statements with directive `d`, in order. */
  function WithDirective(statements: seq<Statement>, d: Directive): (r: seq<Statement>)
    ensures forall k :: 0 <= k < |r| ==> r[k].directive == d
    decreases |statements|
  {
    if statements == [] then []
    else
      var last := statements[|statements| - 1];
      WithDirective(statements[..|statements| - 1], d) + (if last.directive == d then [last] else [])
  }

  /** The number of marker labels among `statements`. */
  function MarkerCount(statements: seq<Statement>): nat
    decreases |statements|
  {
    if statements == [] then 0
    else MarkerCount(statements[..|statements| - 1]) + (if IsMarkerLabel(statements[|statements| - 1]) then 1 else 0)
  }

  // Lemmas about one iteration.

  /** No marker is a filter name, so a marker label extends no filter vector. */
  lemma MarkersAreNotFilters(name: string)
    requires IsTargetMarker(name)
    ensures name !in InstructionClasses && name !in AddressSpaceSpecifiers && name !in Types
  {
  }

  lemma FiltersAppend(statements: seq<Statement>, s: Statement, names: seq<string>)
    ensures Filters(statements + [s], names) == Filters(statements, names) + (if IsFilterLabel(s, names) then [s.name] else [])
  {
    assert (statements + [s])[..|statements|] == statements;
  }

  lemma MentionsAppend(statements: seq<Statement>, s: Statement)
    ensures MentionsAny(statements + [s]) <==> MentionsAny(statements) || (s.directive == Instr && MentionsExecutedCount(s.instruction))
  {
    var ss := statements + [s];
    if MentionsAny(ss) && !MentionsAny(statements) {
      var k :| 0 <= k < |ss| && ss[k].directive == Instr && MentionsExecutedCount(ss[k].instruction);
      assert k == |statements|;
    }
    if MentionsAny(statements) {
      var k :| 0 <= k < |statements| && statements[k].directive == Instr
        && MentionsExecutedCount(statements[k].instruction);
      assert ss[k] == statements[k];
    }
    if s.directive == Instr && MentionsExecutedCount(s.instruction) {
      assert ss[|statements|] == s;
    }
  }

  /** Accepting a statement into a block that summarises its statements:
      marking, filtering and appending keep the summary. */
  lemma AcceptKeepsSummary(b: TranslationBlock, s: Statement)
    requires Summarises(b)
    ensures var b1 := if s.directive == Instr && MentionsExecutedCount(s.instruction) then MarkPredication(b) else b;
      var b2 := if s.directive == Label then AddFilter(b1, s.name) else b1;
      Summarises(Appended(b2, s))
  {
    FiltersAppend(b.statements, s, InstructionClasses);
    FiltersAppend(b.statements, s, AddressSpaceSpecifiers);
    FiltersAppend(b.statements, s, Types);
    MentionsAppend(b.statements, s);
  }

  /** A block just opened by a marker label summarises its one statement. */
  lemma OpenedIsConsistent(s: Statement)
    requires IsMarkerLabel(s)
    ensures Summarises(Appended(Opened(s.name), s)) && OpenedBy(Appended(Opened(s.name), s))
  {
    MarkersAreNotFilters(s.name);
    var ss := [s];
    assert ss[..0] == [];
    assert !MentionsAny(ss);
  }

  /** One iteration at a declaration hands it to the kernel and leaves the blocks alone. */
  lemma StepRoutes(p: Partition, s: Statement)
    requires IsDeclaration(s)
    ensures var r := PartitionStep(p, s);
      && r.blocks == p.blocks && r.initial == p.initial
      && r.parameters == p.parameters + (if s.directive == Param then [s] else [])
      && r.locals == p.locals + (if s.directive == Shared then [s] else [])
  {
  }

  /** One iteration at a marker label opens a block that holds the label. */
  lemma StepOpens(p: Partition, s: Statement)
    requires IsMarkerLabel(s)
    ensures PartitionStep(p, s) == p.(blocks := p.blocks + [Appended(Opened(s.name), s)])
  {
    MarkersAreNotFilters(s.name);
    assert AddFilter(Newest(p), s.name) == Newest(p);
    if |p.blocks| > 0 {
      assert p.blocks[..|p.blocks| - 1] + [Newest(p)] == p.blocks;
    }
  }

  /** One iteration at any other statement accepts it into the newest block. */
  lemma StepAccepts(p: Partition, s: Statement)
    requires !IsDeclaration(s) && !IsMarkerLabel(s)
    ensures var b := Newest(p);
      var b1 := if s.directive == Instr && MentionsExecutedCount(s.instruction) then MarkPredication(b) else b;
      var b2 := if s.directive == Label then AddFilter(b1, s.name) else b1;
      PartitionStep(p, s) == WithNewest(p, Appended(b2, s))
  {
    if |p.blocks| > 0 {
      var b := Newest(p);
      var b1 := if s.directive == Instr && MentionsExecutedCount(s.instruction) then MarkPredication(b) else b;
      var p1 := if s.directive == Instr && MentionsExecutedCount(s.instruction) then WithNewest(p, b1) else p;
      assert p1.blocks[..|p.blocks| - 1] == p.blocks[..|p.blocks| - 1];
    }
  }

  lemma ConcatAppend(blocks: seq<TranslationBlock>, b: TranslationBlock)
    ensures Concat(blocks + [b]) == Concat(blocks) + b.statements
  {
    assert (blocks + [b])[..|blocks|] == blocks;
  }

  /** Replacing the newest block by one with `s` appended appends `s` to the flattening. */
  lemma FlattenWithNewest(p: Partition, b: TranslationBlock, s: Statement)
    requires b.statements == Newest(p).statements + [s]
    ensures Flatten(WithNewest(p, b)) == Flatten(p) + [s]
  {
    if |p.blocks| > 0 {
      var n := |p.blocks|;
      ConcatAppend(p.blocks[..n - 1], b);
      assert p.blocks[..n - 1] + [b] == WithNewest(p, b).blocks;
      assert p.blocks[..n] == p.blocks;
    }
  }

  /** The facts `StepKeepsConsistent` states, for the state `r` the step reaches. */
  predicate StepFacts(p: Partition, s: Statement, r: Partition) {
    && Consistent(r)
    && Flatten(r) == Flatten(p) + (if IsDeclaration(s) then [] else [s])
    && r.parameters == p.parameters + (if s.directive == Param then [s] else [])
    && r.locals == p.locals + (if s.directive == Shared then [s] else [])
    && |r.blocks| == |p.blocks| + (if IsMarkerLabel(s) then 1 else 0)
  }

  lemma OpenKeepsConsistent(p: Partition, s: Statement)
    requires Consistent(p) && IsMarkerLabel(s)
    ensures StepFacts(p, s, p.(blocks := p.blocks + [Appended(Opened(s.name), s)]))
  {
    var nb := Appended(Opened(s.name), s);
    var r := p.(blocks := p.blocks + [nb]);
    OpenedIsConsistent(s);
    forall i | 0 <= i < |r.blocks|
      ensures Summarises(r.blocks[i]) && OpenedBy(r.blocks[i])
    {
      if i < |p.blocks| {
        assert r.blocks[i] == p.blocks[i];
      }
    }
    assert Consistent(r);
    ConcatAppend(p.blocks, nb);
    assert nb.statements == [s];
    Associative(p.initial.statements, Concat(p.blocks), [s]);
  }

  lemma AcceptKeepsConsistent(p: Partition, s: Statement, b2: TranslationBlock)
    requires Consistent(p) && !IsDeclaration(s) && !IsMarkerLabel(s)
    requires b2 == (var b := Newest(p);
      var b1 := if s.directive == Instr && MentionsExecutedCount(s.instruction) then MarkPredication(b) else b;
      if s.directive == Label then AddFilter(b1, s.name) else b1)
    ensures StepFacts(p, s, WithNewest(p, Appended(b2, s)))
  {
    var nb := Appended(b2, s);
    var r := WithNewest(p, nb);
    AcceptKeepsSummary(Newest(p), s);
    FlattenWithNewest(p, nb, s);
    if |p.blocks| > 0 {
      var n := |p.blocks|;
      assert OpenedBy(p.blocks[n - 1]);
      assert OpenedBy(nb);
      forall i | 0 <= i < |r.blocks|
        ensures Summarises(r.blocks[i]) && OpenedBy(r.blocks[i])
      {
        if i < n - 1 {
          assert r.blocks[i] == r.blocks[..n - 1][i] == p.blocks[i];
        }
      }
    } else {
      assert NoMarkers(nb.statements);
    }
  }

  /** One iteration keeps the invariant, appends a non-declaration to the
      flattening, routes a declaration, and opens a block exactly at a marker. */
  lemma StepKeepsConsistent(p: Partition, s: Statement)
    requires Consistent(p)
    ensures StepFacts(p, s, PartitionStep(p, s))
  {
    if IsDeclaration(s) {
      StepRoutes(p, s);
    } else if IsMarkerLabel(s) {
      StepOpens(p, s);
      OpenKeepsConsistent(p, s);
    } else {
      StepAccepts(p, s);
      var b := Newest(p);
      var b1 := if s.directive == Instr && MentionsExecutedCount(s.instruction) then MarkPredication(b) else b;
      var b2 := if s.directive == Label then AddFilter(b1, s.name) else b1;
      AcceptKeepsConsistent(p, s, b2);
    }
  }

  // The properties of the whole scan.

  /** A loop body with the facts of `StepKeepsConsistent`. */
  ghost predicate KeepsConsistent(step: (Partition, Statement) -> Partition) {
    forall p: Partition, s: Statement {:trigger step(p, s)} :: Consistent(p) ==> StepFacts(p, s, step(p, s))
  }

  lemma StepsKeepConsistent()
    ensures KeepsConsistent(PartitionStep)
  {
    forall p: Partition, s: Statement | Consistent(p)
      ensures StepFacts(p, s, PartitionStep(p, s))
    {
      StepKeepsConsistent(p, s);
    }
  }

  lemma {:induction false} PartitionedCorrect(step: (Partition, Statement) -> Partition, statements: seq<Statement>)
    requires KeepsConsistent(step)
    ensures var p := Partitioned(step, statements);
      && Consistent(p)
      && Flatten(p) == Body(statements)
      && p.parameters == WithDirective(statements, Param)
      && p.locals == WithDirective(statements, Shared)
      && |p.blocks| == MarkerCount(statements)
    decreases |statements|
  {
    if statements == [] {
      assert !MentionsAny([]);
    } else {
      var n := |statements|;
      PartitionedCorrect(step, statements[..n - 1]);
    }
  }

  /** After the scan: the partition is consistent; its blocks hold every
      statement that is not a declaration, in order; parameters and shared
      declarations go to the kernel in order; and there is one block per
      marker label. */
  lemma PartitionCorrect(statements: seq<Statement>)
    ensures var p := PartitionOf(statements);
      && Consistent(p)
      && Flatten(p) == Body(statements)
      && p.parameters == WithDirective(statements, Param)
      && p.locals == WithDirective(statements, Shared)
      && |p.blocks| == MarkerCount(statements)
  {
    StepsKeepConsistent();
    PartitionedCorrect(PartitionStep, statements);
  }

  /** No parameter or shared declaration is in any block. */
  lemma DeclarationsInNoBlock(statements: seq<Statement>)
    ensures forall k :: 0 <= k < |Flatten(PartitionOf(statements))| ==>
      !IsDeclaration(Flatten(PartitionOf(statements))[k])
  {
    PartitionCorrect(statements);
    BodyHasNoDeclarations(statements);
  }

  lemma {:induction false} BodyHasNoDeclarations(statements: seq<Statement>)
    ensures forall k :: 0 <= k < |Body(statements)| ==> !IsDeclaration(Body(statements)[k])
    decreases |statements|
  {
    if statements != [] {
      BodyHasNoDeclarations(statements[..|statements| - 1]);
    }
  }

  lemma {:induction false} NoMarkersCounted(statements: seq<Statement>)
    requires NoMarkers(statements)
    ensures MarkerCount(statements) == 0
    decreases |statements|
  {
    if statements != [] {
      var n := |statements|;
      var prefix := statements[..n - 1];
      assert NoMarkers(prefix) by {
        forall k | 0 <= k < n - 1 ensures !IsMarkerLabel(prefix[k]) {
          assert prefix[k] == statements[k];
        }
      }
      NoMarkersCounted(prefix);
    }
  }

  /** Statements with no marker label open no block: all of them that are
      not declarations go to the initial block. */
  lemma NoMarkersStayInitial(statements: seq<Statement>)
    requires NoMarkers(statements)
    ensures PartitionOf(statements).blocks == []
    ensures PartitionOf(statements).initial.statements == Body(statements)
  {
    PartitionCorrect(statements);
    NoMarkersCounted(statements);
  }

  // The filters every block receives before dispatch.

  /** `b` with the initial block's filter vectors appended to its own. */
  function WithInitialFilters(b: TranslationBlock, initial: TranslationBlock): TranslationBlock {
    var sp := b.specifier;
    var init := initial.specifier;
    b.(specifier := sp.(instructionClassVector := sp.instructionClassVector + init.instructionClassVector,
                       addressSpaceVector := sp.addressSpaceVector + init.addressSpaceVector,
                       dataTypeVector := sp.dataTypeVector + init.dataTypeVector))
  }

  /** The blocks in the order they are dispatched, each as it is dispatched;
      the initial block comes last and is instrumented at kernel entry. */
  function Dispatched(p: Partition): (r: seq<TranslationBlock>)
    ensures |r| == |p.blocks| + 1 && r[|p.blocks|] == p.initial
  {
    seq(|p.blocks|, i requires 0 <= i < |p.blocks| => WithInitialFilters(p.blocks[i], p.initial)) + [p.initial]
  }

  /** The dispatched blocks: block `i` is the `i`-th marker's block, with its
      own filters followed by the filters given before the first marker; its
      target, label, statements and predication flag are its own. */
  lemma DispatchedFilters(statements: seq<Statement>, i: nat)
    requires i < |PartitionOf(statements).blocks|
    ensures var p := PartitionOf(statements);
      var b := p.blocks[i];
      var d := Dispatched(p)[i];
      && d.target == b.target && d.labelName == b.labelName && d.statements == b.statements
      && d.specifier.id == b.specifier.id && d.specifier.checkForPredication == b.specifier.checkForPredication
      && d.specifier.instructionClassVector
         == Filters(b.statements, InstructionClasses) + Filters(p.initial.statements, InstructionClasses)
      && d.specifier.addressSpaceVector
         == Filters(b.statements, AddressSpaceSpecifiers) + Filters(p.initial.statements, AddressSpaceSpecifiers)
      && d.specifier.dataTypeVector == Filters(b.statements, Types) + Filters(p.initial.statements, Types)
  {
    PartitionCorrect(statements);
  }
}
