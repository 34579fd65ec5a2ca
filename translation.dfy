/** The records the pass builds from the translated instrumentation code:
    the specifier that filters instructions, the translation blocks that
    carry one instrumentation target each, and the static attributes that
    fill the placeholders of the inserted code. */
module Translation {
  import opened Ptx

  /** `InstrumentationSpecifier`. */
  datatype Specifier = Specifier(
    id: string,
    checkForPredication: bool,
    isPredicated: bool,
    instructionClassVector: seq<string>,
    addressSpaceVector: seq<string>,
    dataTypeVector: seq<string>,
    predicateVector: seq<string>)

  /** A default-constructed specifier: both flags false and every vector empty. */
  const EmptySpecifier := Specifier("", false, false, [], [], [], [])

  /** `TranslationBlock::InstrumentationTarget`. */
  datatype Target = KernelTarget | BasicBlockTarget | InstructionTarget

  datatype TranslationBlock = TranslationBlock(
    target: Target,
    statements: seq<Statement>,
    labelName: string,
    specifier: Specifier)

  /** A default-constructed translation block. Its target is left
      uninitialised by the source; the model fixes it to the kernel target,
      the only one under which the initial block is ever dispatched. */
  const EmptyBlock := TranslationBlock(KernelTarget, [], "", EmptySpecifier)

  /** `StaticAttributes`: the values substituted for the placeholders. */
  datatype StaticAttributes = StaticAttributes(
    basicBlockCount: nat,
    basicBlockId: nat,
    basicBlockInstructionCount: nat,
    basicBlockExecutedInstructionCount: nat,
    instructionId: nat,
    kernelInstructionCount: nat,
    originalInstruction: Instruction)

  /** Attributes as the source declares them before setting any field; the
      fields it never sets read as zero and a default instruction. */
  const ZeroAttributes := StaticAttributes(0, 0, 0, 0, 0, 0, DefaultInstruction)

  /** `dfg().size() - 2`, computed in `size_t` and stored in an `unsigned int`:
      the subtraction wraps below zero and the result keeps its low 32 bits. */
  function BasicBlockCount(graphSize: nat): (r: nat)
    ensures r < 0x1_0000_0000
    ensures 2 <= graphSize < 0x1_0000_0002 ==> r == graphSize - 2
    ensures graphSize == 0 ==> r == 0xFFFF_FFFE
  {
    (graphSize - 2) % 0x1_0000_0000
  }
}
