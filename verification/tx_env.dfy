/** The normalised execution descriptor (TxEnv) every transaction encoding is
    mapped into, its default value, and the properties a normalised descriptor
    has. */
module TxEnvs {
  import opened Primitives
  import Transactions

  datatype TransactTo = Call(to: Address) | Create

  /** One projected access-list entry: the address and its keys as numbers. */
  datatype AccessedSlots = AccessedSlots(address: Address, keys: seq<U256>)

  datatype TxEnv = TxEnv(
    caller: Address,
    gasLimit: U64,
    gasPrice: U256,
    gasPriorityFee: Option<U256>,
    transactTo: TransactTo,
    value: U256,
    data: seq<Byte>,
    nonce: Option<U64>,
    chainId: Option<U64>,
    accessList: seq<AccessedSlots>,
    blobHashes: seq<B256>,
    maxFeePerBlobGas: Option<U256>)

  /** Why a descriptor could not be built: signer recovery failed (the source
      unwraps the recovery, which aborts). */
  datatype TxEnvError = InvalidSignature

  /** The execution library's TxEnv::default(). */
  function DefaultTxEnv(): TxEnv
  {
    TxEnv(ZERO_ADDRESS, TWO_64 - 1, 0, None, Call(ZERO_ADDRESS), 0, [], None, None, [], [], None)
  }

  /** The execution target of a transaction kind: a call keeps its callee,
      a creation stays a creation. */
  function ToTransactTo(kind: Transactions.TxKind): (r: TransactTo)
    ensures r.Call? <==> kind.Call?
    ensures r.Call? ==> r.to == kind.to
  {
    match kind
    case Call(to) => Call(to)
    case Create => Create
  }

  /** `projected` lists the same entries as `items`, in the same order, with
      the same addresses and key counts, and each key is the number whose
      32 big-endian bytes are the original key. */
  ghost predicate AccessListMirrors(items: seq<Transactions.AccessListItem>, projected: seq<AccessedSlots>)
  {
    && |projected| == |items|
    && (forall i | 0 <= i < |items| ::
          projected[i].address == items[i].address
          && |projected[i].keys| == |items[i].storageKeys|)
    && (forall i, j | 0 <= i < |items| && 0 <= j < |projected[i].keys| ::
          U256ToBeBytes(projected[i].keys[j]) == items[i].storageKeys[j])
  }

  function ProjectKeys(keys: seq<B256>): (r: seq<U256>)
    ensures |r| == |keys|
    ensures forall j | 0 <= j < |keys| :: U256ToBeBytes(r[j]) == keys[j]
  {
    seq(|keys|, j requires 0 <= j < |keys| => U256FromBeBytes(keys[j]))
  }

  /** The access-list comprehension of the source: each entry becomes its
      address paired with its keys read as big-endian 256-bit numbers. */
  function ProjectAccessList(items: seq<Transactions.AccessListItem>): (r: seq<AccessedSlots>)
    ensures AccessListMirrors(items, r)
  {
    seq(|items|, i requires 0 <= i < |items| =>
      AccessedSlots(items[i].address, ProjectKeys(items[i].storageKeys)))
  }

  /** The fields every arm of the normalisation copies from the transaction,
      whatever its encoding. */
  ghost predicate CommonFieldsCopied(tx: Transactions.Transaction, caller: Address, env: TxEnv)
  {
    && env.caller == caller
    && env.gasLimit == tx.GasLimit()
    && env.transactTo == ToTransactTo(tx.Kind())
    && env.value == tx.Value()
    && env.data == tx.Input()
    && env.nonce == Some(tx.Nonce())
    && env.chainId == tx.ChainId()
  }

  /** Fields an encoding does not use hold their empty value: no access list
      and no priority fee without a fee market, no blob fields without blobs,
      and a blob transaction never creates a contract. */
  ghost predicate UnusedFieldsCleared(tx: Transactions.Transaction, env: TxEnv)
  {
    match tx
    case Legacy(_) =>
      env.accessList == [] && env.gasPriorityFee == None
      && env.blobHashes == [] && env.maxFeePerBlobGas == None
    case Eip2930(_) =>
      env.gasPriorityFee == None && env.blobHashes == [] && env.maxFeePerBlobGas == None
    case Eip1559(_) =>
      env.blobHashes == [] && env.maxFeePerBlobGas == None
    case Eip4844(_) =>
      env.transactTo.Call?
  }

  /** Two descriptors that agree on every field except the gas price. */
  ghost predicate AgreeExceptGasPrice(a: TxEnv, b: TxEnv)
  {
    a.(gasPrice := 0) == b.(gasPrice := 0)
  }
}
