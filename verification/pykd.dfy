/** What the WinDbg side reads from the debugger through pykd. Each query is a pure
    function of the debuggee as it stands while it is stopped: register and memory
    contents are not modelled beyond what these functions return. */
module Pykd {
  /** The debuggee as pykd shows it. */
  datatype Target = Target(
    registerNames: seq<string>,  // getRegisterName(i) for i in range(getNumberRegisters())
    reg: string -> int,          // reg(name)
    expr: string -> int,         // expr(text, False): evaluates a WinDbg expression
    isValid: int -> bool,        // isValid(addr): the address is mapped
    ptrPtr: int -> int,          // ptrPtr(addr): the pointer stored at addr
    disasm: int -> string)       // disasm.instruction(disasm(addr)): one disassembly line
}
