/** The label and placeholder vocabulary the lowering step emits, and the
    three classification tables the pass builds once in its constructor.
    The string values of the vocabulary are defined by the translator
    header, which is not part of this model; here each name stands for
    itself. What the pass relies on, and what `VocabularyWellFormed` proves
    of these values, is that they are non-empty and pairwise distinct. */
module Vocabulary {
  import opened Ptx

  // Instrumentation target markers.
  const EnterKernel := "ENTER_KERNEL"
  const ExitKernel := "EXIT_KERNEL"
  const EnterBasicBlock := "ENTER_BASIC_BLOCK"
  const ExitBasicBlock := "EXIT_BASIC_BLOCK"
  const OnInstruction := "ON_INSTRUCTION"

  // Instruction-class names.
  const OnMemRead := "ON_MEM_READ"
  const OnMemWrite := "ON_MEM_WRITE"
  const OnPredicated := "ON_PREDICATED"
  const OnBranch := "ON_BRANCH"
  const OnCall := "ON_CALL"
  const OnBarrier := "ON_BARRIER"
  const OnAtomic := "ON_ATOMIC"
  const OnArithOp := "ON_ARITH_OP"
  const OnFloatingPoint := "ON_FLOATING_POINT"
  const OnTexture := "ON_TEXTURE"

  // Address-space names.
  const GlobalName := "GLOBAL"
  const LocalName := "LOCAL"
  const SharedName := "SHARED"
  const ConstName := "CONST"
  const ParamName := "PARAM"
  const TextureName := "TEXTURE"

  // Type-class names.
  const TypeInt := "TYPE_INT"
  const TypeFp := "TYPE_FP"

  // Placeholders for static attributes.
  const BasicBlockCountName := "BASIC_BLOCK_COUNT"
  const BasicBlockInstCountName := "BASIC_BLOCK_INST_COUNT"
  const BasicBlockExecInstCountName := "BASIC_BLOCK_EXEC_INST_COUNT"
  const BasicBlockPredInstCountName := "BASIC_BLOCK_PRED_INST_COUNT"
  const BasicBlockIdName := "BASIC_BLOCK_ID"
  const InstructionCountName := "INSTRUCTION_COUNT"
  const InstructionIdName := "INSTRUCTION_ID"

  // Reserved pseudo-function names and the exit pseudo-label.
  const ComputeBaseAddressName := "COMPUTE_BASE_ADDRESS"
  const GetPredicateValueName := "GET_PREDICATE_VALUE"
  const ExitName := "EXIT"

  /** The special register whose first use `insertAt` looks for. */
  const CtaIdX := "%ctaid.x"

  /** `functionNames`, filled in the constructor. */
  const FunctionNames := [ComputeBaseAddressName, GetPredicateValueName]
  /** `instructionClasses`, in constructor order. */
  const InstructionClasses := [OnMemRead, OnMemWrite, OnPredicated, OnBranch, OnCall, OnBarrier,
                               OnAtomic, OnArithOp, OnFloatingPoint, OnTexture]
  /** `addressSpaceSpecifiers`, in constructor order. */
  const AddressSpaceSpecifiers := [GlobalName, LocalName, SharedName, ConstName, ParamName, TextureName]
  /** `types`, in constructor order. */
  const Types := [TypeInt, TypeFp]

  const TargetMarkers := [EnterKernel, ExitKernel, EnterBasicBlock, ExitBasicBlock, OnInstruction]

  /** The six placeholders the rewriter turns into immediates. */
  const ImmediatePlaceholders := [BasicBlockCountName, BasicBlockInstCountName, BasicBlockExecInstCountName,
                                  BasicBlockIdName, InstructionCountName, InstructionIdName]

  /** Every name of the vocabulary, each exactly once. */
  const AllNames := TargetMarkers + InstructionClasses + FilterNames + ReservedNames

  /** The names of the two remaining specifier tables. */
  const FilterNames := AddressSpaceSpecifiers + Types

  /** The placeholders, the reserved pseudo-function names and the exit label. */
  const ReservedNames := ImmediatePlaceholders + [BasicBlockPredInstCountName] + FunctionNames + [ExitName]

  /** `opcodeMap`, filled by successive assignments in constructor order, so
      that a later assignment to the same opcode replaces an earlier one. */
  const OpcodeMap: map<Opcode, string> :=
    ArithmeticAssignments[TestP := OnFloatingPoint][CopySign := OnFloatingPoint][Lg2 := OnFloatingPoint]
       [Ex2 := OnFloatingPoint][Fma := OnFloatingPoint][Rcp := OnFloatingPoint]
       [Sqrt := OnFloatingPoint][Rsqrt := OnFloatingPoint][Sin := OnFloatingPoint]
       [Cos := OnFloatingPoint][Tex := OnFloatingPoint]
       [Tld4 := OnTexture][Txq := OnTexture]

  /** The assignments of `opcodeMap` up to and including the arithmetic ones. */
  const ArithmeticAssignments: map<Opcode, string> :=
    MemoryAndControlAssignments
       [Abs := OnArithOp][Add := OnArithOp][AddC := OnArithOp][Bfe := OnArithOp]
       [Bfi := OnArithOp][Bfind := OnArithOp][Brev := OnArithOp][Clz := OnArithOp]
       [Cos := OnArithOp][Div := OnArithOp][Mad24 := OnArithOp][Max := OnArithOp]
       [Min := OnArithOp][Mul24 := OnArithOp][Mul := OnArithOp][Popc := OnArithOp]
       [Prmt := OnArithOp][Sad := OnArithOp][Abs := OnArithOp][Rem := OnArithOp]
       [Sqrt := OnArithOp][Sin := OnArithOp][Sub := OnArithOp][SubC := OnArithOp]
       [Neg := OnArithOp]

  /** The first assignments of `opcodeMap`: memory, control and synchronisation. */
  const MemoryAndControlAssignments: map<Opcode, string> :=
    map[][Ld := OnMemRead][St := OnMemWrite][Bra := OnBranch][Call := OnCall]
       [Bar := OnBarrier][Membar := OnBarrier][Atom := OnAtomic]

  /** `addressSpaceMap`. */
  const AddressSpaceMap: map<string, AddressSpace> :=
    map[][GlobalName := GlobalSpace][LocalName := LocalSpace][SharedName := SharedSpace]
       [ConstName := ConstSpace][ParamName := ParamSpace][TextureName := TextureSpace]

  /** `dataTypeMap`. */
  const DataTypeMap: map<DataType, string> :=
    map[][S8 := TypeInt][S16 := TypeInt][S32 := TypeInt][S64 := TypeInt]
       [U8 := TypeInt][U16 := TypeInt][U32 := TypeInt][U64 := TypeInt]
       [F16 := TypeFp][F32 := TypeFp][F64 := TypeFp]

  /** `opcodeMap[op]`: a missing opcode reads as the empty string. */
  function OpcodeClass(op: Opcode): string {
    if op in OpcodeMap then OpcodeMap[op] else ""
  }

  /** `addressSpaceMap[name]`: a missing name reads as the enumeration's
      zero value, the invalid address space. */
  function AddressSpaceOf(name: string): AddressSpace {
    if name in AddressSpaceMap then AddressSpaceMap[name] else InvalidSpace
  }

  /** `dataTypeMap[t]`: a missing type reads as the empty string. */
  function DataTypeClass(t: DataType): string {
    if t in DataTypeMap then DataTypeMap[t] else ""
  }

  /** `opcodeMap` keeps the last of several assignments to one opcode:
      Sqrt, Sin and Cos are first assigned the arithmetic class and then
      the floating-point class, which is what they keep; Tex is
      floating-point, and the two texture opcodes are texture. */
  lemma OpcodeReassignments()
    ensures OpcodeClass(Sqrt) == OnFloatingPoint && OpcodeClass(Sin) == OnFloatingPoint
    ensures OpcodeClass(Cos) == OnFloatingPoint && OpcodeClass(Tex) == OnFloatingPoint
    ensures OpcodeClass(Tld4) == OnTexture && OpcodeClass(Txq) == OnTexture
  {
    assert ArithmeticAssignments[Sqrt] == OnArithOp;
    assert ArithmeticAssignments[Cos] == OnArithOp;
    assert ArithmeticAssignments[Sin] == OnArithOp;
    assert OpcodeMap[Sqrt] == OnFloatingPoint;
    assert OpcodeMap[Sin] == OnFloatingPoint;
    assert OpcodeMap[Cos] == OnFloatingPoint;
  }

  /** Opcodes the constructor never assigns, such as Mov and every opcode
      outside the tables, read as the empty string; since no class name is
      empty they belong to no instruction class. */
  lemma UnassignedOpcodes(op: Opcode)
    requires op == Mov || op.OtherOpcode?
    ensures OpcodeClass(op) == ""
    ensures forall i :: 0 <= i < |InstructionClasses| ==> OpcodeClass(op) != InstructionClasses[i]
  {
    assert op !in MemoryAndControlAssignments;
    assert op !in ArithmeticAssignments;
  }

  /** The type table: signed and unsigned integers are integer, the three
      float widths floating-point, everything else (bit types, predicates)
      reads as "". */
  lemma DataTypeTable(t: DataType)
    ensures DataTypeClass(t) == TypeInt <==> t in {S8, S16, S32, S64, U8, U16, U32, U64}
    ensures DataTypeClass(t) == TypeFp <==> t in {F16, F32, F64}
    ensures DataTypeClass(t) == "" <==> t in {B8, B16, B32, B64, PredType, OtherType}
  {
  }

  /** The address-space table sends each of the six names to its space and
      nothing else to a valid one. */
  lemma AddressSpaceTable(name: string)
    ensures AddressSpaceOf(name) != InvalidSpace <==> name in AddressSpaceSpecifiers
    ensures AddressSpaceOf(name) == GenericSpace ==> false
  {
  }

  /** The names the pass compares against are non-empty and pairwise
      distinct, so an unassigned table entry (the empty string) never reads
      as a class name and no name means two things. */
  lemma VocabularyWellFormed()
    ensures forall i :: 0 <= i < |AllNames| ==> AllNames[i] != ""
    ensures forall i, j :: 0 <= i < j < |AllNames| ==> AllNames[i] != AllNames[j]
    ensures forall i, j :: 0 <= i < j < |InstructionClasses| ==> InstructionClasses[i] != InstructionClasses[j]
    ensures forall i, j :: 0 <= i < j < |TargetMarkers| ==> TargetMarkers[i] != TargetMarkers[j]
  {
    GroupsDistinct();
    MarkersApart();
    ClassesApart();
    FilterNamesApart();
    ApartConcat(TargetMarkers, InstructionClasses, FilterNames);
    ApartConcat(TargetMarkers, InstructionClasses, ReservedNames);
    DistinctConcat(TargetMarkers, InstructionClasses);
    ApartConcat(TargetMarkers + InstructionClasses, FilterNames, ReservedNames);
    DistinctConcat(TargetMarkers + InstructionClasses, FilterNames);
    DistinctConcat(TargetMarkers + InstructionClasses + FilterNames, ReservedNames);
  }

  /** No name occurs twice in `s`. */
  predicate Distinct(s: seq<string>) {
    forall i, j :: 0 <= i < j < |s| ==> s[i] != s[j]
  }

  /** No name of `a` is a name of `b`. */
  predicate Apart(a: seq<string>, b: seq<string>) {
    forall i, j :: 0 <= i < |a| && 0 <= j < |b| ==> a[i] != b[j]
  }

  lemma DistinctConcat(a: seq<string>, b: seq<string>)
    requires Distinct(a) && Distinct(b) && Apart(a, b)
    ensures Distinct(a + b)
  {
    forall i, j | 0 <= i < j < |a + b|
      ensures (a + b)[i] != (a + b)[j]
    {
      if j < |a| {
      } else if i < |a| {
        assert (a + b)[i] == a[i] && (a + b)[j] == b[j - |a|];
      } else {
        assert (a + b)[i] == b[i - |a|] && (a + b)[j] == b[j - |a|];
      }
    }
  }

  lemma ApartConcat(a: seq<string>, b: seq<string>, c: seq<string>)
    requires Apart(a, c) && Apart(b, c)
    ensures Apart(a + b, c)
  {
    forall i, j | 0 <= i < |a + b| && 0 <= j < |c|
      ensures (a + b)[i] != c[j]
    {
      if i >= |a| {
        assert (a + b)[i] == b[i - |a|];
      }
    }
  }

  lemma GroupsDistinct()
    ensures Distinct(TargetMarkers) && Distinct(InstructionClasses)
    ensures Distinct(FilterNames) && Distinct(ReservedNames)
  {
  }

  lemma MarkersApart()
    ensures Apart(TargetMarkers, InstructionClasses)
    ensures Apart(TargetMarkers, FilterNames) && Apart(TargetMarkers, ReservedNames)
  {
  }

  lemma ClassesApart()
    ensures Apart(InstructionClasses, FilterNames) && Apart(InstructionClasses, ReservedNames)
  {
  }

  lemma FilterNamesApart()
    ensures Apart(FilterNames, ReservedNames)
  {
  }
}
