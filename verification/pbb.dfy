/** The replay path of the block builder (src/pbb.rs): the block environment
    of the latest committed header, the transaction descriptors built by the
    struct-literal variant of the normalisation, the account conversion, the
    concurrency hint, and the request handed to the parallel engine. */
module Pbb {
  import opened Primitives
  import opened Transactions
  import opened TxEnvs
  import opened BlockEnvs
  import Bytecodes
  import States

  /** The struct-literal normalisation of the replay path. Each arm fills the
      common fields and its own encoding's fields and leaves the rest at
      TxEnv::default(). Signer recovery is unwrapped in the source, so a failed
      recovery aborts; here it is the error InvalidSignature. */
  function GetTxEnv(
    recoverSigner: TransactionSigned -> Option<Address>,
    effectiveGasPrice: (Transaction, Option<U64>) -> U128,
    txSigned: TransactionSigned): (r: Result<TxEnv, TxEnvError>)
    ensures r.Err? <==> recoverSigner(txSigned).None?
    ensures r.Ok? ==>
      var tx := txSigned.transaction;
      && CommonFieldsCopied(tx, recoverSigner(txSigned).value, r.value)
      && UnusedFieldsCleared(tx, r.value)
      && AccessListMirrors(tx.AccessList(), r.value.accessList)
      && r.value.gasPrice == effectiveGasPrice(tx, Some(0))
      && r.value.gasPriorityFee == tx.MaxPriorityFeePerGas()
      && r.value.blobHashes == tx.BlobVersionedHashes()
      && r.value.maxFeePerBlobGas == tx.MaxFeePerBlobGas()
  {
    var transaction := txSigned.transaction;
    var baseFee: Option<U64> := Some(0);
    match recoverSigner(txSigned)
    case None => Err(InvalidSignature)
    case Some(caller) =>
      var transactTo := ToTransactTo(transaction.Kind());
      var gasLimit := transaction.GasLimit();
      var value := transaction.Value();
      var data := transaction.Input();
      var nonce := Some(transaction.Nonce());
      var chainId := transaction.ChainId();
      var gasPrice := effectiveGasPrice(transaction, baseFee);
      var common := DefaultTxEnv().(
        caller := caller, gasLimit := gasLimit, gasPrice := gasPrice, transactTo := transactTo,
        value := value, data := data, nonce := nonce, chainId := chainId);
      match transaction
      case Legacy(_) =>
        Ok(common)
      case Eip2930(tx) =>
        Ok(common.(accessList := ProjectAccessList(tx.accessList)))
      case Eip1559(tx) =>
        Ok(common.(
          accessList := ProjectAccessList(tx.accessList),
          gasPriorityFee := Some(tx.maxPriorityFeePerGas)))
      case Eip4844(tx) =>
        Ok(common.(
          accessList := ProjectAccessList(tx.accessList),
          gasPriorityFee := Some(tx.maxPriorityFeePerGas),
          blobHashes := tx.blobVersionedHashes,
          maxFeePerBlobGas := Some(tx.maxFeePerBlobGas)))
  }

  /** The block environment of the latest committed block, for replaying on
      top of its own state: every field is the header's own value. */
  function ReplayBlockEnv(chain: ChainSpec, formulas: FeeFormulas, header: Header): (r: BlockEnv)
    ensures r.number == header.number && r.timestamp == header.timestamp
    ensures r.gasLimit == header.gasLimit
    ensures r.coinbase == chain.blockCoinbase(header)
    ensures header.baseFeePerGas.Some? ==> r.basefee == header.baseFeePerGas.value
    ensures header.baseFeePerGas.None? ==> r.basefee == 0
    ensures r.difficulty == 0 && r.prevrandao == Some(header.mixHash)
    ensures r.blobExcessGasAndPrice.Some? <==> header.excessBlobGas.Some?
    ensures r.blobExcessGasAndPrice.Some? ==>
      r.blobExcessGasAndPrice.value.excessBlobGas == header.excessBlobGas.value
      && BlobPairPriced(formulas, r.blobExcessGasAndPrice.value)
  {
    var blobExcessGasAndPrice :=
      if header.excessBlobGas.Some? then Some(NewBlobExcessGasAndPrice(formulas, header.excessBlobGas.value))
      else None;
    BlockEnv(
      header.number,
      header.timestamp,
      chain.blockCoinbase(header),
      header.gasLimit,
      match header.baseFeePerGas case Some(b) => b case None => 0,
      0,
      Some(header.mixHash),
      blobExcessGasAndPrice)
  }

  /** The descriptors of a whole batch, in input order. The collection aborts
      at the first transaction whose signer cannot be recovered. */
  function ProjectTransactions(
    recoverSigner: TransactionSigned -> Option<Address>,
    effectiveGasPrice: (Transaction, Option<U64>) -> U128,
    txs: seq<TransactionSigned>): (r: Result<seq<TxEnv>, TxEnvError>)
    ensures r.Ok? <==> forall i | 0 <= i < |txs| :: recoverSigner(txs[i]).Some?
    ensures r.Ok? ==>
      && |r.value| == |txs|
      && forall i | 0 <= i < |txs| ::
           GetTxEnv(recoverSigner, effectiveGasPrice, txs[i]) == Ok(r.value[i])
  {
    if txs == [] then Ok([])
    else
      match GetTxEnv(recoverSigner, effectiveGasPrice, txs[0])
      case Err(e) => Err(e)
      case Ok(first) =>
        match ProjectTransactions(recoverSigner, effectiveGasPrice, txs[1..])
        case Err(e) => Err(e)
        case Ok(rest) => Ok([first] + rest)
  }

  type NonZeroUsize = n: nat | 1 <= n witness 1

  /** The host parallelism when it can be determined, otherwise one. */
  function ConcurrencyLevel(availableParallelism: Option<NonZeroUsize>): (r: nat)
    ensures r >= 1
    ensures availableParallelism.Some? ==> r == availableParallelism.value
    ensures availableParallelism.None? ==> r == 1
  {
    match availableParallelism
    case Some(n) => n
    case None => 1
  }

  datatype AccountBasic = AccountBasic(
    balance: U256,
    nonce: U64,
    codeHash: Option<B256>,
    code: Option<Bytecodes.EvmCode>)

  datatype EvmAccount = EvmAccount(basic: AccountBasic, storage: map<U256, U256>)

  /** An account can be converted when its code is present and analysed;
      otherwise the source's unwrap or unimplemented! aborts. */
  predicate Convertible(account: States.DbAccount)
  {
    account.info.code.Some? && account.info.code.value.LegacyAnalyzed?
  }

  function ConvertAccount(account: States.DbAccount): (r: EvmAccount)
    requires Convertible(account)
  {
    EvmAccount(
      AccountBasic(
        account.info.balance,
        account.info.nonce,
        Some(account.info.codeHash),
        Some(Bytecodes.BytecodeToEvmCode(account.info.code.value))),
      account.storage)
  }

  /** The cached accounts in the parallel engine's shape: one account per
      cache entry, balance, nonce and storage copied, the code hash made
      explicit and the analysed code converted. */
  function ConvertAccounts(cache: States.DbState): (r: Option<map<Address, EvmAccount>>)
    ensures r.Some? <==> forall a | a in cache :: Convertible(cache[a])
    ensures r.Some? ==>
      && r.value.Keys == cache.Keys
      && forall a | a in cache ::
           && r.value[a].basic.balance == cache[a].info.balance
           && r.value[a].basic.nonce == cache[a].info.nonce
           && r.value[a].basic.codeHash == Some(cache[a].info.codeHash)
           && r.value[a].basic.code.Some?
           && Bytecodes.LegacyAnalyzed(Bytecodes.LegacyAnalyzedBytecode(
                r.value[a].basic.code.value.bytecode,
                r.value[a].basic.code.value.originalLen,
                r.value[a].basic.code.value.jumpTable)) == cache[a].info.code.value
           && r.value[a].storage == cache[a].storage
  {
    if forall a | a in cache :: Convertible(cache[a]) then
      Some(map a | a in cache :: ConvertAccount(cache[a]))
    else
      None
  }

  datatype InMemoryStorage = InMemoryStorage(
    accounts: map<Address, EvmAccount>,
    blockHashes: map<U256, B256>)

  /** Everything the replay path hands to the parallel engine. */
  datatype EngineCall = EngineCall(
    storage: InMemoryStorage,
    chainId: U64,
    specId: SpecId,
    blockEnv: BlockEnv,
    txEnvs: seq<TxEnv>,
    concurrencyLevel: nat)

  /** Why the replay path aborts before reaching the engine. */
  datatype Abort = AccountCodeUnsupported | SignatureUnrecoverable

  /** The library calls the replay path relies on. */
  datatype Library = Library(
    recoverSigner: TransactionSigned -> Option<Address>,
    effectiveGasPrice: (Transaction, Option<U64>) -> U128,
    executeRevm: EngineCall -> Result<seq<States.ExecutionResult>, EngineError>)

  datatype EngineError = EngineError

  /** The engine request of `run`, built in the source's order: accounts
      first, then the block environment and descriptors, then the hint. The
      spec id is fixed to Cancun whatever the header says. */
  function EngineRequest(
    lib: Library, chain: ChainSpec, formulas: FeeFormulas, header: Header,
    cache: States.DbState, blockHashes: map<U256, B256>,
    txs: seq<TransactionSigned>, availableParallelism: Option<NonZeroUsize>): (r: Result<EngineCall, Abort>)
    ensures ConvertAccounts(cache).None? ==> r == Err(AccountCodeUnsupported)
    ensures ConvertAccounts(cache).Some? && r.Err? ==> r == Err(SignatureUnrecoverable)
    ensures r.Ok? <==>
      ConvertAccounts(cache).Some? && forall i | 0 <= i < |txs| :: lib.recoverSigner(txs[i]).Some?
    ensures r.Ok? ==>
      && r.value.storage == InMemoryStorage(ConvertAccounts(cache).value, blockHashes)
      && r.value.chainId == chain.chainId
      && r.value.specId == Cancun
      && r.value.blockEnv == ReplayBlockEnv(chain, formulas, header)
      && |r.value.txEnvs| == |txs|
      && (forall i | 0 <= i < |txs| ::
            GetTxEnv(lib.recoverSigner, lib.effectiveGasPrice, txs[i]) == Ok(r.value.txEnvs[i]))
      && r.value.concurrencyLevel == ConcurrencyLevel(availableParallelism)
      && r.value.concurrencyLevel >= 1
  {
    match ConvertAccounts(cache)
    case None => Err(AccountCodeUnsupported)
    case Some(accounts) =>
      var storage := InMemoryStorage(accounts, blockHashes);
      var blockEnv := ReplayBlockEnv(chain, formulas, header);
      match ProjectTransactions(lib.recoverSigner, lib.effectiveGasPrice, txs)
      case Err(_) => Err(SignatureUnrecoverable)
      case Ok(txEnvs) =>
        Ok(EngineCall(storage, chain.chainId, Cancun, blockEnv, txEnvs,
                      ConcurrencyLevel(availableParallelism)))
  }

  datatype RunOutcome =
    | Aborted(reason: Abort)
    | Executed(result: Result<seq<States.ExecutionResult>, EngineError>)

  /** `run`: the engine's single terminal result, or the abort that came
      before it. An engine error is the whole batch's failure: no partial
      results are kept. */
  function Run(
    lib: Library, chain: ChainSpec, formulas: FeeFormulas, header: Header,
    cache: States.DbState, blockHashes: map<U256, B256>,
    txs: seq<TransactionSigned>, availableParallelism: Option<NonZeroUsize>): (r: RunOutcome)
    ensures r.Executed? <==> EngineRequest(lib, chain, formulas, header, cache, blockHashes, txs, availableParallelism).Ok?
    ensures r.Executed? ==>
      r.result == lib.executeRevm(EngineRequest(lib, chain, formulas, header, cache, blockHashes, txs, availableParallelism).value)
  {
    match EngineRequest(lib, chain, formulas, header, cache, blockHashes, txs, availableParallelism)
    case Err(reason) => Aborted(reason)
    case Ok(call) => Executed(lib.executeRevm(call))
  }
}
