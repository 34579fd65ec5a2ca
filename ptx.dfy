/** The part of the PTX intermediate representation that the instrumentation
    pass reads and writes: opcodes, operands, instructions, statements and
    the basic blocks of a kernel's dataflow graph. */
module Ptx {

  type RegisterId = nat

  datatype Option<T> = None | Some(value: T)

  /** The opcodes the pass names. Every other opcode of the instruction set
      is `OtherOpcode`, which the pass never singles out. */
  datatype Opcode =
    | Abs | Add | AddC | Atom | Bar | Bfe | Bfi | Bfind | Bra | Brev | Call | Clz
    | CopySign | Cos | Cvt | Div | Ex2 | Fma | Ld | Lg2 | Mad | Mad24 | Max | Membar
    | Min | Mov | Mul | Mul24 | Neg | Nop | Popc | Prmt | Rcp | Rem | Rsqrt | Sad
    | SelP | SetP | Shl | Shr | Sin | Sqrt | St | Sub | SubC | Tex | TestP | Tld4
    | Txq | Vote
    | OtherOpcode(code: nat)

  datatype AddressMode = Register | Indirect | Immediate | Address | LabelAddress | Special | Invalid

  /** The condition of a guard predicate: `Pred` and `InvPred` guard on a
      predicate register, `PT` and `NPT` are the always-true and always-false
      sentinels of an unguarded instruction. */
  datatype PredicateCondition = Pred | InvPred | PT | NPT

  datatype DataType =
    | S8 | S16 | S32 | S64 | U8 | U16 | U32 | U64 | F16 | F32 | F64
    | B8 | B16 | B32 | B64 | PredType | OtherType

  datatype AddressSpace =
    | InvalidSpace | ConstSpace | GlobalSpace | LocalSpace | ParamSpace
    | SharedSpace | TextureSpace | GenericSpace

  datatype VoteMode = Ballot | All | Any | Uni | VoteModeInvalid

  datatype ComparisonOperator = Eq | Ne | Lt | Le | Gt | Ge | OtherComparison

  /** One operand. `imm` stands for the immediate union (`imm_int` and
      `imm_uint` share storage). */
  datatype Operand = Operand(
    identifier: string,
    addressMode: AddressMode,
    condition: PredicateCondition,
    dataType: DataType,
    reg: RegisterId,
    imm: int,
    offset: int)

  /** The operand a default-constructed instruction holds. */
  const DefaultOperand := Operand("", Invalid, PT, OtherType, 0, 0, 0)

  /** The five operand slots of an instruction, as indices into its operand array. */
  type Slot = i: nat | i < 5
  const A: Slot := 0
  const B: Slot := 1
  const C: Slot := 2
  const D: Slot := 3
  const PG: Slot := 4

  /** The source slots, in the order the pass visits them. */
  const SourceSlots: seq<Slot> := [A, B, C]
  /** All five slots, in the order the pass visits them. */
  const AllSlots: seq<Slot> := [A, B, C, D, PG]

  type OperandArray = s: seq<Operand> | |s| == 5
    witness [DefaultOperand, DefaultOperand, DefaultOperand, DefaultOperand, DefaultOperand]

  datatype Instruction = Instruction(
    opcode: Opcode,
    dataType: DataType,
    addressSpace: AddressSpace,
    vote: VoteMode,
    comparisonOperator: ComparisonOperator,
    operands: OperandArray)
  {
    function Op(s: Slot): Operand { operands[s] }

    function WithOp(s: Slot, o: Operand): (r: Instruction)
      ensures r.Op(s) == o
      ensures forall t: Slot :: t != s ==> r.Op(t) == Op(t)
      ensures r.opcode == opcode && r.dataType == dataType && r.addressSpace == addressSpace
      ensures r.vote == vote && r.comparisonOperator == comparisonOperator
    {
      this.(operands := operands[s := o])
    }

    /** The instruction runs under a predicate register (normal or inverted). */
    predicate IsGuarded() {
      Op(PG).condition == Pred || Op(PG).condition == InvPred
    }
  }

  /** A default-constructed instruction: a `nop` with default operands. The
      model uses it wherever the source leaves an instruction uninitialised. */
  const DefaultInstruction := Instruction(Nop, OtherType, InvalidSpace, VoteModeInvalid, OtherComparison,
    [DefaultOperand, DefaultOperand, DefaultOperand, DefaultOperand, DefaultOperand])

  datatype Directive = Instr | Param | Shared | Label | OtherDirective

  datatype Statement = Statement(directive: Directive, name: string, instruction: Instruction)

  /** A basic block of the dataflow graph: its label and its instructions in order. */
  datatype BasicBlock = BasicBlock(labelName: string, instructions: seq<Instruction>)

  /** `s` with `x` inserted so that it becomes element `i`. */
  function InsertAt<T>(s: seq<T>, i: nat, x: T): (r: seq<T>)
    requires i <= |s|
    ensures |r| == |s| + 1 && r[i] == x
    ensures r[..i] == s[..i] && r[i + 1..] == s[i..]
  {
    s[..i] + [x] + s[i..]
  }

  /** `s` with the run `xs` inserted so that it starts at element `i`. */
  function InsertSeqAt<T>(s: seq<T>, i: nat, xs: seq<T>): (r: seq<T>)
    requires i <= |s|
    ensures |r| == |s| + |xs|
    ensures r[..i] == s[..i] && r[i..i + |xs|] == xs && r[i + |xs|..] == s[i..]
  {
    s[..i] + xs + s[i..]
  }

  /** Inserting a run at the seam of two sequences puts it between them. */
  lemma InsertSeqAtSeam<T>(x: seq<T>, y: seq<T>, xs: seq<T>)
    ensures InsertSeqAt(x + y, |x|, xs) == x + xs + y
  {
    assert (x + y)[..|x|] == x;
    assert (x + y)[|x|..] == y;
  }

  /** Inserting right after the first element. */
  lemma InsertSeqAtFront<T>(s: seq<T>, xs: seq<T>)
    requires |s| > 0
    ensures InsertSeqAt(s, 1, xs) == [s[0]] + xs + s[1..]
  {
    assert s[..1] == [s[0]];
  }

  /** Concatenation regroups freely; stated once so that proofs over long
      concatenations can name the step. */
  lemma Associative<T>(a: seq<T>, b: seq<T>, c: seq<T>)
    ensures (a + b) + c == a + (b + c)
  {
  }
}
