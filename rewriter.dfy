/** The statement rewriter: how one statement of the translated code is
    turned into an instruction that can be spliced into the kernel. It fills
    in the static-attribute placeholders, binds symbolic register names to
    registers of the kernel, and lowers the call, branch, predicate-value,
    uniform-vote and base-address pseudo-instructions. */
module Rewriter {
  import opened Ptx
  import opened Vocabulary
  import opened Translation

  /** `newRegisterMap` together with the register counter of the dataflow
      graph, the two pieces of state register allocation touches. */
  datatype Registers = Registers(names: map<string, RegisterId>, maxRegister: RegisterId)

  /** Every bound register has already been handed out by the counter, so
      the next fresh register is bound to no name. */
  predicate RegistersValid(rs: Registers) {
    forall n :: n in rs.names ==> rs.names[n] <= rs.maxRegister
  }

  /** `newRegisterMap[name]`. An unknown name reads as register 0; the entry
      this inserts is not kept, because every later read of it gives 0 again. */
  function Lookup(names: map<string, RegisterId>, name: string): RegisterId {
    if name in names then names[name] else 0
  }

  /** `dfg().newRegister()` followed by binding `name` to the new register. */
  function Bind(rs: Registers, name: string): (r: Registers)
    ensures r.maxRegister == rs.maxRegister + 1
    ensures r.names == rs.names[name := rs.maxRegister + 1]
    ensures RegistersValid(rs) ==> RegistersValid(r)
    ensures RegistersValid(rs) ==> forall n :: n in rs.names ==> rs.names[n] != r.maxRegister
  {
    Registers(rs.names[name := rs.maxRegister + 1], rs.maxRegister + 1)
  }

  /** The six placeholders that become immediates. */
  predicate IsImmediatePlaceholder(name: string) {
    name == BasicBlockCountName || name == BasicBlockInstCountName || name == BasicBlockExecInstCountName
    || name == BasicBlockIdName || name == InstructionCountName || name == InstructionIdName
  }

  /** The value a placeholder stands for; the predicated-instruction count
      placeholder takes the executed count. */
  function PlaceholderValue(name: string, attrs: StaticAttributes): (v: int)
  {
    if name == BasicBlockCountName then attrs.basicBlockCount
    else if name == BasicBlockInstCountName then attrs.basicBlockInstructionCount
    else if name == BasicBlockExecInstCountName || name == BasicBlockPredInstCountName then
      attrs.basicBlockExecutedInstructionCount
    else if name == BasicBlockIdName then attrs.basicBlockId
    else if name == InstructionIdName then attrs.instructionId
    else attrs.kernelInstructionCount
  }

  predicate IsPlaceholder(name: string) {
    IsImmediatePlaceholder(name) || name == BasicBlockPredInstCountName
  }

  /** One source operand after placeholder substitution. */
  function SubstituteOperand(o: Operand, attrs: StaticAttributes): Operand {
    var mode := if IsImmediatePlaceholder(o.identifier) then Immediate else o.addressMode;
    var imm := if IsPlaceholder(o.identifier) then PlaceholderValue(o.identifier, attrs) else o.imm;
    o.(addressMode := mode, imm := imm)
  }

  /** The instruction after the placeholder loop over its source operands. */
  function Substitute(ins: Instruction, attrs: StaticAttributes): Instruction {
    ins.(operands := [SubstituteOperand(ins.Op(A), attrs), SubstituteOperand(ins.Op(B), attrs),
                      SubstituteOperand(ins.Op(C), attrs), ins.Op(D), ins.Op(PG)])
  }

  /** An operand names a register that the rewriter must bind: a register
      or indirect operand, or a predicate not used as an address, with a
      non-empty identifier. */
  predicate NeedsRegister(o: Operand) {
    (o.addressMode == Register || o.addressMode == Indirect || (o.condition == Pred && o.addressMode != Address))
    && o.identifier != ""
  }

  /** The operand `current` after resolution, decided by the operand
      `original` of the statement as it was given. */
  function ResolveOperand(original: Operand, current: Operand, names: map<string, RegisterId>): Operand {
    if NeedsRegister(original) then current.(reg := Lookup(names, original.identifier), identifier := "")
    else current
  }

  /** The register-resolution loop over all five operands. */
  function Resolve(original: Instruction, current: Instruction, names: map<string, RegisterId>): Instruction {
    current.(operands := seq(5, (i: nat) requires i < 5 =>
      ResolveOperand(original.operands[i], current.operands[i], names)))
  }

  /** `pg` bound to the register of its identifier, which is then cleared. */
  function BindGuard(ins: Instruction, names: map<string, RegisterId>): Instruction {
    ins.WithOp(PG, ins.Op(PG).(reg := Lookup(names, ins.Op(PG).identifier), identifier := ""))
  }

  /** `selp d, 1, 0, guard`: the value of the guard predicate of the
      instrumented instruction, in a fresh register bound to the
      predicate-value name. */
  function LowerPredicateValue(ins: Instruction, original: Instruction, rs: Registers): (Instruction, Registers) {
    var rs' := Bind(rs, ins.Op(D).identifier);
    var d := ins.Op(D).(addressMode := Register, reg := rs'.maxRegister, identifier := "");
    var a := ins.Op(A).(addressMode := Immediate, imm := 1);
    var b := ins.Op(B).(addressMode := Immediate, imm := 0);
    (ins.(opcode := SelP, operands := [a, b, original.Op(PG), d, ins.Op(PG)]), rs')
  }

  /** `vote.uni` for an unguarded instrumented instruction becomes
      `setp.eq.u64 d, 0, 0` (always true); for a guarded one its operand
      becomes the instrumented instruction's guard. */
  function LowerUniformVote(ins: Instruction, original: Instruction): Instruction {
    var g := original.Op(PG).condition;
    if g == PT || g == NPT then
      var a := ins.Op(A).(dataType := U64, addressMode := Immediate, imm := 0);
      var b := ins.Op(B).(dataType := U64, addressMode := Immediate, imm := 0);
      ins.(vote := VoteModeInvalid, opcode := SetP, comparisonOperator := Eq, dataType := U64,
           operands := [a, b, ins.Op(C), ins.Op(D), ins.Op(PG)])
    else
      ins.WithOp(A, original.Op(PG))
  }

  /** The result of preparing a statement: the statement and the register state after it. */
  datatype Prepared = Prepared(statement: Statement, registers: Registers)

  /** `computeBaseAddress(statement, original)`. A statement whose source is
      the base-address name continues an address computation: its
      destination and source take the register bound to that name and its
      offset operand is resolved. Otherwise the destination gets a fresh
      register bound to its name, and when the instrumented instruction is a
      store to, or a load from, an indirect address the statement becomes
      `add d, base, offset` over that address. */
  function ComputeBaseAddress(s: Statement, original: Instruction, rs: Registers): Prepared {
    var ins := s.instruction;
    if ins.Op(A).identifier == ComputeBaseAddressName then
      var base := Lookup(rs.names, ComputeBaseAddressName);
      var d := ins.Op(D).(reg := base, identifier := "");
      var a := ins.Op(A).(reg := base, identifier := "");
      var b := ins.Op(B).(reg := Lookup(rs.names, ins.Op(B).identifier), identifier := "");
      Prepared(s.(instruction := ins.(operands := [a, b, ins.Op(C), d, ins.Op(PG)])), rs)
    else
      var rs' := Bind(rs, ins.Op(D).identifier);
      var bound := ins.WithOp(D, ins.Op(D).(reg := rs'.maxRegister, identifier := ""));
      var result :=
        if original.opcode == St && original.Op(D).addressMode == Indirect then
          var a := bound.Op(A).(identifier := "", addressMode := Register, reg := original.Op(D).reg);
          var b := bound.Op(B).(identifier := "", addressMode := Immediate, imm := original.Op(D).offset);
          bound.(opcode := Add, operands := [a, b, bound.Op(C), bound.Op(D), bound.Op(PG)])
        else if original.opcode == Ld && original.Op(A).addressMode == Indirect then
          var a := bound.Op(A).(addressMode := Register, reg := original.Op(A).reg);
          var b := bound.Op(B).(addressMode := Immediate, imm := original.Op(A).offset);
          bound.(opcode := Add, operands := [a, b, bound.Op(C), bound.Op(D), bound.Op(PG)])
        else bound;
      Prepared(s.(instruction := result), rs')
  }

  /** `prepareStatementToInsert`. `exitLabel` is the label of the last block
      before the graph's exit block, which a branch to the exit pseudo-label
      is redirected to. */
  function Prepare(s: Statement, attrs: StaticAttributes, exitLabel: string, rs: Registers): Prepared {
    var ins := s.instruction;
    if ins.opcode == Call then
      Prepared(s.(instruction := BindGuard(ins, rs.names)), rs)
    else if ins.Op(D).identifier == ComputeBaseAddressName then
      ComputeBaseAddress(s, attrs.originalInstruction, rs)
    else
      var sub := Substitute(ins, attrs);
      if ins.opcode == Bra then
        var guarded := if ins.IsGuarded() then BindGuard(sub, rs.names) else sub;
        var target := if ins.Op(D).identifier == ExitName
          then guarded.WithOp(D, guarded.Op(D).(identifier := exitLabel)) else guarded;
        Prepared(s.(instruction := target), rs)
      else
        var (lowered, rs') :=
          if ins.Op(D).identifier == GetPredicateValueName
          then LowerPredicateValue(sub, attrs.originalInstruction, rs) else (sub, rs);
        var resolved := Resolve(ins, lowered, rs'.names);
        var voted := if ins.opcode == Vote && ins.vote == Uni
          then LowerUniformVote(resolved, attrs.originalInstruction) else resolved;
        Prepared(s.(instruction := voted), rs')
  }

  /** Preparing a statement keeps its directive and name, allocates at most
      one register (for a predicate value or a new base address and only
      then), and keeps every bound register below the counter. */
  lemma PrepareRegisters(s: Statement, attrs: StaticAttributes, exitLabel: string, rs: Registers)
    ensures Prepare(s, attrs, exitLabel, rs).statement.directive == s.directive
    ensures Prepare(s, attrs, exitLabel, rs).statement.name == s.name
    ensures RegistersValid(rs) ==> RegistersValid(Prepare(s, attrs, exitLabel, rs).registers)
    ensures var ins := s.instruction;
      var allocates := ins.opcode != Call &&
        if ins.Op(D).identifier == ComputeBaseAddressName then ins.Op(A).identifier != ComputeBaseAddressName
        else ins.opcode != Bra && ins.Op(D).identifier == GetPredicateValueName;
      Prepare(s, attrs, exitLabel, rs).registers
        == if allocates then Bind(rs, ins.Op(D).identifier) else rs
  {
  }

  /** A call only binds its guard register: every other operand and field is
      left as it was, placeholders included. */
  lemma CallBindsGuardOnly(s: Statement, attrs: StaticAttributes, exitLabel: string, rs: Registers)
    requires s.instruction.opcode == Call
    ensures var r := Prepare(s, attrs, exitLabel, rs).statement.instruction;
      && r.Op(PG).reg == Lookup(rs.names, s.instruction.Op(PG).identifier) && r.Op(PG).identifier == ""
      && (forall t: Slot :: t != PG ==> r.Op(t) == s.instruction.Op(t))
      && r.opcode == Call
  {
  }

  /** Placeholder substitution on one source operand: each of the six
      placeholders becomes the immediate holding its attribute; the
      predicated-instruction count takes the executed count and keeps its
      addressing mode; any other operand keeps mode and value. */
  lemma OperandSubstituted(o: Operand, attrs: StaticAttributes)
    ensures var r := SubstituteOperand(o, attrs);
      && (o.identifier == BasicBlockCountName ==> r.addressMode == Immediate && r.imm == attrs.basicBlockCount)
      && (o.identifier == BasicBlockInstCountName ==> r.addressMode == Immediate && r.imm == attrs.basicBlockInstructionCount)
      && (o.identifier == BasicBlockExecInstCountName ==>
            r.addressMode == Immediate && r.imm == attrs.basicBlockExecutedInstructionCount)
      && (o.identifier == BasicBlockIdName ==> r.addressMode == Immediate && r.imm == attrs.basicBlockId)
      && (o.identifier == InstructionCountName ==> r.addressMode == Immediate && r.imm == attrs.kernelInstructionCount)
      && (o.identifier == InstructionIdName ==> r.addressMode == Immediate && r.imm == attrs.instructionId)
      && (o.identifier == BasicBlockPredInstCountName ==>
            r.addressMode == o.addressMode && r.imm == attrs.basicBlockExecutedInstructionCount)
      && (!IsPlaceholder(o.identifier) ==> r.addressMode == o.addressMode && r.imm == o.imm)
      && r.identifier == o.identifier && r.reg == o.reg
  {
  }

  /** On a statement that reaches the substitution and keeps its operands
      (not a call, not a base-address or predicate-value statement, not a
      uniform vote), each source operand leaves with the mode and value
      substitution gives it; only its register binding can change further. */
  lemma PlaceholdersSubstituted(s: Statement, attrs: StaticAttributes, exitLabel: string, rs: Registers, slot: Slot)
    requires slot == A || slot == B || slot == C
    requires s.instruction.opcode != Call
    requires s.instruction.Op(D).identifier != ComputeBaseAddressName
    requires s.instruction.Op(D).identifier != GetPredicateValueName
    requires !(s.instruction.opcode == Vote && s.instruction.vote == Uni)
    ensures var expected := SubstituteOperand(s.instruction.Op(slot), attrs);
      var r := Prepare(s, attrs, exitLabel, rs).statement.instruction.Op(slot);
      r.addressMode == expected.addressMode && r.imm == expected.imm
  {
    var ins := s.instruction;
    var sub := Substitute(ins, attrs);
    assert sub.Op(slot) == SubstituteOperand(ins.Op(slot), attrs);
    if ins.opcode == Bra {
      BranchKeepsSources(s, attrs, exitLabel, rs, slot);
    } else {
      ResolvedKeepsSources(s, attrs, exitLabel, rs, slot);
    }
  }

  /** A branch keeps its substituted sources. */
  lemma BranchKeepsSources(s: Statement, attrs: StaticAttributes, exitLabel: string, rs: Registers, slot: Slot)
    requires slot == A || slot == B || slot == C
    requires s.instruction.opcode == Bra && s.instruction.Op(D).identifier != ComputeBaseAddressName
    ensures Prepare(s, attrs, exitLabel, rs).statement.instruction.Op(slot) == Substitute(s.instruction, attrs).Op(slot)
  {
  }

  /** Off the branch path, resolution and the vote lowering keep the mode
      and value of each substituted source. */
  lemma ResolvedKeepsSources(s: Statement, attrs: StaticAttributes, exitLabel: string, rs: Registers, slot: Slot)
    requires slot == A || slot == B || slot == C
    requires s.instruction.opcode != Call && s.instruction.opcode != Bra
    requires s.instruction.Op(D).identifier != ComputeBaseAddressName
    requires s.instruction.Op(D).identifier != GetPredicateValueName
    requires !(s.instruction.opcode == Vote && s.instruction.vote == Uni)
    ensures var r := Prepare(s, attrs, exitLabel, rs).statement.instruction.Op(slot);
      var sub := Substitute(s.instruction, attrs).Op(slot);
      r.addressMode == sub.addressMode && r.imm == sub.imm
  {
    var sub := Substitute(s.instruction, attrs);
    var resolved := Resolve(s.instruction, sub, rs.names);
    assert Prepare(s, attrs, exitLabel, rs).statement.instruction == resolved;
    assert resolved.Op(slot) == ResolveOperand(s.instruction.Op(slot), sub.Op(slot), rs.names);
  }

  /** Register resolution on a statement that takes the general path: every
      operand that names a register leaves bound to `newRegisterMap` of its
      name, with the name cleared; every other operand keeps register and
      name. No register is allocated. */
  lemma RegistersResolved(s: Statement, attrs: StaticAttributes, exitLabel: string, rs: Registers, slot: Slot)
    requires s.instruction.opcode != Call && s.instruction.opcode != Bra
    requires s.instruction.Op(D).identifier != ComputeBaseAddressName
    requires s.instruction.Op(D).identifier != GetPredicateValueName
    requires !(s.instruction.opcode == Vote && s.instruction.vote == Uni)
    ensures var o := s.instruction.Op(slot);
      var r := Prepare(s, attrs, exitLabel, rs).statement.instruction.Op(slot);
      && (NeedsRegister(o) ==> r.reg == Lookup(rs.names, o.identifier) && r.identifier == "")
      && (!NeedsRegister(o) ==> r.reg == o.reg && r.identifier == o.identifier)
      && r.condition == o.condition && r.dataType == o.dataType
    ensures Prepare(s, attrs, exitLabel, rs).registers == rs
  {
  }

  /** A statement writing the predicate-value name becomes `selp d, 1, 0, g`
      where `g` is the guard of the instrumented instruction (unless the
      statement's own third operand names a register, which resolution then
      rebinds) and `d` is a fresh register, now bound to that name. */
  lemma PredicateValueLowered(s: Statement, attrs: StaticAttributes, exitLabel: string, rs: Registers)
    requires s.instruction.opcode != Call && s.instruction.opcode != Bra && s.instruction.opcode != Vote
    requires s.instruction.Op(D).identifier == GetPredicateValueName
    ensures var r := Prepare(s, attrs, exitLabel, rs);
      var ins := r.statement.instruction;
      && ins.opcode == SelP
      && ins.Op(A).addressMode == Immediate && ins.Op(A).imm == 1
      && ins.Op(B).addressMode == Immediate && ins.Op(B).imm == 0
      && ins.Op(D).addressMode == Register && ins.Op(D).identifier == ""
      && ins.Op(D).reg == rs.maxRegister + 1
      && r.registers == Registers(rs.names[GetPredicateValueName := rs.maxRegister + 1], rs.maxRegister + 1)
      && (!NeedsRegister(s.instruction.Op(C)) ==> ins.Op(C) == attrs.originalInstruction.Op(PG))
    ensures RegistersValid(rs) ==> forall n :: n in rs.names ==>
      rs.names[n] != Prepare(s, attrs, exitLabel, rs).statement.instruction.Op(D).reg
  {
  }

  /** A branch binds its guard register when it is guarded, jumps to the
      last block before the exit block when it targets the exit
      pseudo-label, and allocates nothing. */
  lemma BranchLowered(s: Statement, attrs: StaticAttributes, exitLabel: string, rs: Registers)
    requires s.instruction.opcode == Bra
    requires s.instruction.Op(D).identifier != ComputeBaseAddressName
    ensures var r := Prepare(s, attrs, exitLabel, rs);
      var ins := r.statement.instruction;
      var g := s.instruction.Op(PG);
      && r.registers == rs && ins.opcode == Bra
      && (s.instruction.IsGuarded() ==> ins.Op(PG) == g.(reg := Lookup(rs.names, g.identifier), identifier := ""))
      && (!s.instruction.IsGuarded() ==> ins.Op(PG) == g)
      && ins.Op(D).identifier == (if s.instruction.Op(D).identifier == ExitName then exitLabel
                                  else s.instruction.Op(D).identifier)
      && ins.Op(D).reg == s.instruction.Op(D).reg
  {
  }

  /** `vote.uni` over an unguarded instrumented instruction becomes the
      always-true `setp.eq.u64 d, 0, 0`; over a guarded one its first
      operand becomes that instruction's guard. */
  lemma UniformVoteLowered(s: Statement, attrs: StaticAttributes, exitLabel: string, rs: Registers)
    requires s.instruction.opcode == Vote && s.instruction.vote == Uni
    requires s.instruction.Op(D).identifier != ComputeBaseAddressName
    requires s.instruction.Op(D).identifier != GetPredicateValueName
    ensures var ins := Prepare(s, attrs, exitLabel, rs).statement.instruction;
      var g := attrs.originalInstruction.Op(PG).condition;
      && ((g == PT || g == NPT) ==>
           ins.opcode == SetP && ins.comparisonOperator == Eq && ins.vote == VoteModeInvalid && ins.dataType == U64
           && ins.Op(A).addressMode == Immediate && ins.Op(A).imm == 0
           && ins.Op(B).addressMode == Immediate && ins.Op(B).imm == 0)
      && (!(g == PT || g == NPT) ==> ins.opcode == Vote && ins.vote == Uni && ins.Op(A) == attrs.originalInstruction.Op(PG))
  {
  }

  /** A base-address statement whose source is the base-address name (the
      continuation of an address computation) takes the register bound to
      that name as destination and source, resolves its offset operand, and
      skips placeholder substitution altogether. */
  lemma BaseAddressContinued(s: Statement, attrs: StaticAttributes, exitLabel: string, rs: Registers)
    requires s.instruction.opcode != Call
    requires s.instruction.Op(D).identifier == ComputeBaseAddressName
    requires s.instruction.Op(A).identifier == ComputeBaseAddressName
    ensures var r := Prepare(s, attrs, exitLabel, rs);
      var ins := r.statement.instruction;
      var base := Lookup(rs.names, ComputeBaseAddressName);
      && r.registers == rs && ins.opcode == s.instruction.opcode
      && ins.Op(D).reg == base && ins.Op(A).reg == base
      && ins.Op(B).reg == Lookup(rs.names, s.instruction.Op(B).identifier)
      && ins.Op(D).identifier == "" && ins.Op(A).identifier == "" && ins.Op(B).identifier == ""
      && ins.Op(B).addressMode == s.instruction.Op(B).addressMode && ins.Op(B).imm == s.instruction.Op(B).imm
      && ins.Op(C) == s.instruction.Op(C)
  {
  }

  /** A base-address statement that starts an address computation binds a
      fresh register to the base-address name as its destination. Over a
      store to an indirect address, or a load from one, it becomes
      `add d, base, offset` with that address's base register and offset;
      over any other instruction its opcode and sources stay as given. */
  lemma BaseAddressStarted(s: Statement, attrs: StaticAttributes, exitLabel: string, rs: Registers)
    requires s.instruction.opcode != Call
    requires s.instruction.Op(D).identifier == ComputeBaseAddressName
    requires s.instruction.Op(A).identifier != ComputeBaseAddressName
    ensures var r := Prepare(s, attrs, exitLabel, rs);
      var ins := r.statement.instruction;
      var orig := attrs.originalInstruction;
      var address := if orig.opcode == St then orig.Op(D) else orig.Op(A);
      var indirect := (orig.opcode == St || orig.opcode == Ld) && address.addressMode == Indirect;
      && r.registers == Registers(rs.names[ComputeBaseAddressName := rs.maxRegister + 1], rs.maxRegister + 1)
      && ins.Op(D).reg == rs.maxRegister + 1 && ins.Op(D).identifier == ""
      && (indirect ==>
            ins.opcode == Add
            && ins.Op(A).addressMode == Register && ins.Op(A).reg == address.reg
            && ins.Op(B).addressMode == Immediate && ins.Op(B).imm == address.offset)
      && (!indirect ==>
            ins.opcode == s.instruction.opcode && ins.Op(A) == s.instruction.Op(A) && ins.Op(B) == s.instruction.Op(B))
  {
  }
}
