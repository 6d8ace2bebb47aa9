/** Contract code as the execution library stores it, and its conversion into
    the parallel engine's code record. The jump-destination analysis itself
    happens inside the execution library; here an already analysed bytecode is
    only copied. */
module Bytecodes {
  import opened Primitives

  /** Legacy code after analysis: zero-padded code, the length before padding,
      and one flag per code offset telling whether it is a valid jump target. */
  datatype LegacyAnalyzedBytecode = LegacyAnalyzedBytecode(
    bytecode: seq<Byte>,
    originalLen: nat,
    jumpTable: seq<bool>)

  datatype Bytecode =
    | LegacyRaw(raw: seq<Byte>)
    | LegacyAnalyzed(analyzed: LegacyAnalyzedBytecode)
    | Eof(container: seq<Byte>)

  /** The parallel engine's code record. */
  datatype EvmCode = EvmCode(bytecode: seq<Byte>, originalLen: nat, jumpTable: seq<bool>)

  /** Only analysed legacy code is supported; every other variant aborts
      (`unimplemented!`), so it is excluded here. */
  function BytecodeToEvmCode(code: Bytecode): (r: EvmCode)
    requires code.LegacyAnalyzed?
    ensures LegacyAnalyzed(LegacyAnalyzedBytecode(r.bytecode, r.originalLen, r.jumpTable)) == code
  {
    EvmCode(code.analyzed.bytecode, code.analyzed.originalLen, code.analyzed.jumpTable)
  }
}
