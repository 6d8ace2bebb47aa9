/** Account state as the execution library's cache database holds it, and the
    per-transaction results and state changes the EVM reports. */
module States {
  import opened Primitives
  import Bytecodes

  datatype AccountInfo = AccountInfo(
    balance: U256,
    nonce: U64,
    codeHash: B256,
    code: Option<Bytecodes.Bytecode>)

  /** A cached account: its info and the storage slots loaded or written. */
  datatype DbAccount = DbAccount(info: AccountInfo, storage: map<U256, U256>)

  /** Accounts by address. `Reth.CacheDb` uses it for the state a cache
      database presents to the EVM: the underlying snapshot with every
      committed change applied. `Pbb.ConvertAccounts` uses it for the entries
      a cache database actually holds, which are only the accounts loaded or
      committed so far (none in a cache that was just created). */
  type DbState = map<Address, DbAccount>

  datatype ExecutionResult =
    | Success(gasUsed: U64, output: seq<Byte>)
    | Revert(gasUsed: U64, output: seq<Byte>)
    | Halt(gasUsed: U64)

  datatype EvmError = TransactionError | HeaderError | DatabaseError | CustomError

  /** What a successful transaction returns: its result and the accounts it changed. */
  datatype ResultAndState = ResultAndState(result: ExecutionResult, state: map<Address, DbAccount>)

  /** Committing state changes: every changed account takes its new value,
      every other account keeps its old one. */
  function ApplyChanges(db: DbState, changes: map<Address, DbAccount>): (r: DbState)
    ensures r.Keys == db.Keys + changes.Keys
    ensures forall a | a in changes :: r[a] == changes[a]
    ensures forall a | a in db && a !in changes :: r[a] == db[a]
  {
    db + changes
  }
}
