/** Which kernel instructions a translation block instruments: the
    instruction-class, address-space and data-type filters of its specifier,
    and the count of matching instructions over the kernel. */
module Matcher {
  import opened Ptx
  import opened Vocabulary
  import opened Translation

  /** The instruction-class scan from its current entry on, for an
      instruction whose opcode has class `opClass` and which is `guarded` or
      not, with the `isPredicated` flag as it stands at that entry. An
      `ON_PREDICATED` entry sets the flag and accepts a guarded instruction;
      any other entry stops the scan at the instruction's class, rejecting a
      branch once the flag is set. */
  function ClassScan(classes: seq<string>, opClass: string, guarded: bool, isPredicated: bool): bool
    decreases |classes|
  {
    if |classes| == 0 then false
    else if classes[0] == OnPredicated then
      if guarded then true else ClassScan(classes[1..], opClass, guarded, true)
    else if opClass == classes[0] then
      !(classes[0] == OnBranch && isPredicated)
    else ClassScan(classes[1..], opClass, guarded, isPredicated)
  }

  /** The address-space scan: some listed name maps to the instruction's space. */
  function SpaceScan(spaces: seq<string>, ins: Instruction): bool
    decreases |spaces|
  {
    |spaces| > 0 && (AddressSpaceOf(spaces[0]) == ins.addressSpace || SpaceScan(spaces[1..], ins))
  }

  /** The data-type scan: some listed name is the class of the instruction's type. */
  function TypeScan(types: seq<string>, ins: Instruction): bool
    decreases |types|
  {
    |types| > 0 && (DataTypeClass(ins.dataType) == types[0] || TypeScan(types[1..], ins))
  }

  /** `instrumentationConditionsMet`: an empty filter accepts everything. */
  predicate ConditionsMet(spec: Specifier, ins: Instruction) {
    (|spec.instructionClassVector| == 0 || ClassScan(spec.instructionClassVector, OpcodeClass(ins.opcode), ins.IsGuarded(), spec.isPredicated))
    && (|spec.addressSpaceVector| == 0 || SpaceScan(spec.addressSpaceVector, ins))
    && (|spec.dataTypeVector| == 0 || TypeScan(spec.dataTypeVector, ins))
  }

  /** The class scan stops at an entry that is `ON_PREDICATED` with a guarded
      instruction, or any other entry equal to the instruction's class. */
  predicate Stops(c: string, opClass: string, guarded: bool) {
    if c == OnPredicated then guarded else opClass == c
  }

  /** The scan accepts at entry `k`: it stops there, no earlier entry stops
      it, and the entry is not a branch class reached while the flag is set
      or after an earlier `ON_PREDICATED`. */
  predicate AcceptsAt(classes: seq<string>, opClass: string, guarded: bool, isPredicated: bool, k: nat)
    requires k < |classes|
  {
    Stops(classes[k], opClass, guarded)
    && (forall j :: 0 <= j < k ==> !Stops(classes[j], opClass, guarded))
    && !(classes[k] == OnBranch && (isPredicated || OnPredicated in classes[..k]))
  }

  /** An accepting scan accepts at some entry. */
  lemma {:induction false} ClassScanAccepts(classes: seq<string>, opClass: string, guarded: bool, isPredicated: bool)
      returns (k: nat)
    requires ClassScan(classes, opClass, guarded, isPredicated)
    ensures k < |classes| && AcceptsAt(classes, opClass, guarded, isPredicated, k)
    decreases |classes|
  {
    if Stops(classes[0], opClass, guarded) {
      k := 0;
      assert classes[..0] == [];
    } else {
      var rest := classes[1..];
      var i := ClassScanAccepts(rest, opClass, guarded, isPredicated || classes[0] == OnPredicated);
      k := i + 1;
      assert classes[..k] == [classes[0]] + rest[..i];
      assert forall j :: 0 < j < k ==> classes[j] == rest[j - 1];
    }
  }

  /** A scan that accepts at some entry accepts. */
  lemma {:induction false} AcceptingEntry(classes: seq<string>, opClass: string, guarded: bool, isPredicated: bool, k: nat)
    requires k < |classes| && AcceptsAt(classes, opClass, guarded, isPredicated, k)
    ensures ClassScan(classes, opClass, guarded, isPredicated)
    decreases k
  {
    if k > 0 {
      var rest := classes[1..];
      assert classes[..k] == [classes[0]] + rest[..k - 1];
      assert forall j :: 0 <= j < k - 1 ==> rest[j] == classes[j + 1];
      AcceptingEntry(rest, opClass, guarded, isPredicated || classes[0] == OnPredicated, k - 1);
    }
  }

  /** The class scan accepts exactly when it accepts at some entry. */
  lemma ClassScanMeaning(classes: seq<string>, opClass: string, guarded: bool, isPredicated: bool)
    ensures ClassScan(classes, opClass, guarded, isPredicated) <==>
      exists k: nat :: k < |classes| && AcceptsAt(classes, opClass, guarded, isPredicated, k)
  {
    if ClassScan(classes, opClass, guarded, isPredicated) {
      var k := ClassScanAccepts(classes, opClass, guarded, isPredicated);
    }
    forall k: nat | k < |classes| && AcceptsAt(classes, opClass, guarded, isPredicated, k)
      ensures ClassScan(classes, opClass, guarded, isPredicated)
    {
      AcceptingEntry(classes, opClass, guarded, isPredicated, k);
    }
  }

  /** The address-space filter accepts exactly when some listed name maps to
      the instruction's space. */
  lemma {:induction false} SpaceScanMeaning(spaces: seq<string>, ins: Instruction)
    ensures SpaceScan(spaces, ins) <==> exists i :: 0 <= i < |spaces| && AddressSpaceOf(spaces[i]) == ins.addressSpace
    decreases |spaces|
  {
    if |spaces| > 0 {
      SpaceScanMeaning(spaces[1..], ins);
      assert forall i :: 0 < i < |spaces| ==> spaces[i] == spaces[1..][i - 1];
    }
  }

  /** The data-type filter accepts exactly when some listed name is the class
      of the instruction's type. */
  lemma {:induction false} TypeScanMeaning(types: seq<string>, ins: Instruction)
    ensures TypeScan(types, ins) <==> exists i :: 0 <= i < |types| && DataTypeClass(ins.dataType) == types[i]
    decreases |types|
  {
    if |types| > 0 {
      TypeScanMeaning(types[1..], ins);
      assert forall i :: 0 < i < |types| ==> types[i] == types[1..][i - 1];
    }
  }

  /** The matcher is the conjunction of the three filters, each vacuous when
      its vector is empty. */
  lemma ConditionsMetMeaning(spec: Specifier, ins: Instruction)
    ensures ConditionsMet(spec, ins) <==>
      (|spec.instructionClassVector| == 0 || ClassScan(spec.instructionClassVector, OpcodeClass(ins.opcode), ins.IsGuarded(), spec.isPredicated))
      && (|spec.addressSpaceVector| == 0
          || exists i :: 0 <= i < |spec.addressSpaceVector| && AddressSpaceOf(spec.addressSpaceVector[i]) == ins.addressSpace)
      && (|spec.dataTypeVector| == 0
          || exists i :: 0 <= i < |spec.dataTypeVector| && DataTypeClass(ins.dataType) == spec.dataTypeVector[i])
  {
    SpaceScanMeaning(spec.addressSpaceVector, ins);
    TypeScanMeaning(spec.dataTypeVector, ins);
  }

  /** A specifier without filters accepts every instruction. */
  lemma UnfilteredAcceptsAll(spec: Specifier, ins: Instruction)
    requires spec.instructionClassVector == [] && spec.addressSpaceVector == [] && spec.dataTypeVector == []
    ensures ConditionsMet(spec, ins)
  {
  }

  /** `ON_PREDICATED` alone accepts exactly the guarded instructions. */
  lemma PredicatedClass(opClass: string, guarded: bool, isPredicated: bool)
    ensures ClassScan([OnPredicated], opClass, guarded, isPredicated) <==> guarded
  {
    assert [OnPredicated][1..] == [];
  }

  /** After `ON_PREDICATED`, the branch class accepts guarded branches (through
      the predicated entry) and rejects every unguarded one; listed the other
      way round, it accepts every branch. */
  lemma PredicatedThenBranch(ins: Instruction)
    requires ins.opcode == Bra
    ensures ClassScan([OnPredicated, OnBranch], OpcodeClass(ins.opcode), ins.IsGuarded(), false) <==> ins.IsGuarded()
    ensures ClassScan([OnBranch, OnPredicated], OpcodeClass(ins.opcode), ins.IsGuarded(), false)
  {
    OpcodeClassOfBranch();
    assert [OnPredicated, OnBranch][1..] == [OnBranch];
  }

  lemma OpcodeClassOfBranch()
    ensures OpcodeClass(Bra) == OnBranch
  {
    assert MemoryAndControlAssignments[Bra] == OnBranch;
    assert ArithmeticAssignments[Bra] == OnBranch;
  }

  /** A name outside the address-space table reads as the invalid space, so
      such a filter entry selects exactly the instructions without an
      address space. */
  lemma UnknownSpaceName(name: string, ins: Instruction)
    requires name !in AddressSpaceSpecifiers
    ensures SpaceScan([name], ins) <==> ins.addressSpace == InvalidSpace
  {
    AddressSpaceTable(name);
    assert [name][1..] == [];
  }

  /** The number of elements of `xs` that `accept` holds of. */
  function Count<T>(accept: T -> bool, xs: seq<T>): (r: nat)
    ensures r <= |xs|
  {
    if |xs| == 0 then 0
    else Count(accept, xs[..|xs| - 1]) + (if accept(xs[|xs| - 1]) then 1 else 0)
  }

  /** Counting distributes over concatenation. */
  lemma {:induction false} CountAppend<T>(accept: T -> bool, xs: seq<T>, ys: seq<T>)
    ensures Count(accept, xs + ys) == Count(accept, xs) + Count(accept, ys)
    decreases |ys|
  {
    if |ys| == 0 {
      assert xs + ys == xs;
    } else {
      assert (xs + ys)[..|xs + ys| - 1] == xs + ys[..|ys| - 1];
      CountAppend(accept, xs, ys[..|ys| - 1]);
    }
  }

  /** The count is the full length exactly when every element is accepted,
      and zero exactly when none is. */
  lemma {:induction false} CountExtremes<T>(accept: T -> bool, xs: seq<T>)
    ensures Count(accept, xs) == |xs| <==> forall i :: 0 <= i < |xs| ==> accept(xs[i])
    ensures Count(accept, xs) == 0 <==> forall i :: 0 <= i < |xs| ==> !accept(xs[i])
    decreases |xs|
  {
    var n := |xs|;
    if n > 0 {
      var init := xs[..n - 1];
      CountExtremes(accept, init);
      assert forall i :: 0 <= i < n - 1 ==> init[i] == xs[i];
    }
  }

  /** The instructions of `blocks` in order. */
  function Flatten(blocks: seq<BasicBlock>): seq<Instruction>
  {
    if |blocks| == 0 then [] else Flatten(blocks[..|blocks| - 1]) + blocks[|blocks| - 1].instructions
  }

  /** `kernelInstructionCount`: the instructions of every block after the
      entry block that the specifier accepts. */
  function KernelCount(spec: Specifier, blocks: seq<BasicBlock>): nat
  {
    if |blocks| <= 1 then 0
    else
      var last := Count((ins: Instruction) => ConditionsMet(spec, ins), blocks[|blocks| - 1].instructions);
      KernelCount(spec, blocks[..|blocks| - 1]) + last
  }

  /** The kernel count is the number of accepted instructions of the kernel
      outside the entry block, so it never exceeds their number. */
  lemma {:induction false} KernelCountMeaning(spec: Specifier, blocks: seq<BasicBlock>)
    requires |blocks| > 0
    ensures KernelCount(spec, blocks) == Count((ins: Instruction) => ConditionsMet(spec, ins), Flatten(blocks[1..]))
    ensures KernelCount(spec, blocks) <= |Flatten(blocks[1..])|
    decreases |blocks|
  {
    if |blocks| == 1 {
      assert blocks[1..] == [];
    } else {
      var init := blocks[..|blocks| - 1];
      KernelCountMeaning(spec, init);
      assert blocks[1..][..|blocks[1..]| - 1] == init[1..];
      CountAppend((ins: Instruction) => ConditionsMet(spec, ins), Flatten(init[1..]), blocks[|blocks| - 1].instructions);
    }
  }
}
