/** The two objects of the compiler the pass changes in place: the
    dataflow graph of the kernel (its basic blocks and its register
    counter) and the kernel's declarations. Only the operations the pass
    calls are modelled. */
module Graph {
  import opened Ptx
  import opened Splicer

  /** `analysis::DataflowGraph`: the blocks, the entry block first and the
      exit block last, and the highest register handed out so far. */
  class DataflowGraph {
    var blocks: seq<BasicBlock>
    var maxRegister: RegisterId

    constructor (blocks: seq<BasicBlock>, maxRegister: RegisterId)
      ensures this.blocks == blocks && this.maxRegister == maxRegister
    {
      this.blocks := blocks;
      this.maxRegister := maxRegister;
    }

    /** `newRegister()`: a register no earlier call has returned. */
    method NewRegister() returns (r: RegisterId)
      modifies this
      ensures r == old(maxRegister) + 1 && maxRegister == r
      ensures blocks == old(blocks)
    {
      maxRegister := maxRegister + 1;
      r := maxRegister;
    }

    /** `insert(block, ins, loc)`: `ins` becomes instruction `loc` of block `b`. */
    method Insert(b: nat, ins: Instruction, loc: nat)
      requires b < |blocks| && loc <= |blocks[b].instructions|
      modifies this
      ensures blocks == InsertInto(old(blocks), b, loc, ins)
      ensures maxRegister == old(maxRegister)
    {
      blocks := blocks[b := blocks[b].(instructions := InsertAt(blocks[b].instructions, loc, ins))];
    }
  }

  /** The declarations of `ir::PTXKernel` the pass adds to. */
  class PtxKernel {
    var parameters: seq<Statement>
    var locals: map<string, Statement>

    constructor (parameters: seq<Statement>, locals: map<string, Statement>)
      ensures this.parameters == parameters && this.locals == locals
    {
      this.parameters := parameters;
      this.locals := locals;
    }

    /** `insertParameter(parameter, true)`: appended to the argument list. */
    method InsertParameter(s: Statement)
      modifies this
      ensures parameters == old(parameters) + [s] && locals == old(locals)
    {
      parameters := parameters + [s];
    }

    /** `locals.insert(make_pair(name, local))`: a name already declared
        keeps its declaration. */
    method InsertLocal(s: Statement)
      modifies this
      ensures s.name in old(locals) ==> locals == old(locals)
      ensures s.name !in old(locals) ==> locals == old(locals)[s.name := s]
      ensures parameters == old(parameters)
    {
      if s.name !in locals {
        locals := locals[s.name := s];
      }
    }
  }
}
