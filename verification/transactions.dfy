/** The four signed-transaction encodings the block builder accepts, and the
    encoding-independent accessors of the transaction type. */
module Transactions {
  import opened Primitives

  /** Destination of a transaction: a message call or a contract creation. */
  datatype TxKind = Call(to: Address) | Create

  /** One entry of an EIP-2930 access list: an address and its storage keys. */
  datatype AccessListItem = AccessListItem(address: Address, storageKeys: seq<B256>)

  datatype TxLegacy = TxLegacy(
    chainId: Option<U64>,
    nonce: U64,
    gasPrice: U128,
    gasLimit: U64,
    to: TxKind,
    value: U256,
    input: seq<Byte>)

  datatype TxEip2930 = TxEip2930(
    chainId: U64,
    nonce: U64,
    gasPrice: U128,
    gasLimit: U64,
    to: TxKind,
    value: U256,
    accessList: seq<AccessListItem>,
    input: seq<Byte>)

  datatype TxEip1559 = TxEip1559(
    chainId: U64,
    nonce: U64,
    gasLimit: U64,
    maxFeePerGas: U128,
    maxPriorityFeePerGas: U128,
    to: TxKind,
    value: U256,
    accessList: seq<AccessListItem>,
    input: seq<Byte>)

  /** A blob-carrying transaction: its destination is always an address. */
  datatype TxEip4844 = TxEip4844(
    chainId: U64,
    nonce: U64,
    gasLimit: U64,
    maxFeePerGas: U128,
    maxPriorityFeePerGas: U128,
    to: Address,
    value: U256,
    accessList: seq<AccessListItem>,
    blobVersionedHashes: seq<B256>,
    maxFeePerBlobGas: U128,
    input: seq<Byte>)

  datatype Transaction =
    | Legacy(legacy: TxLegacy)
    | Eip2930(eip2930: TxEip2930)
    | Eip1559(eip1559: TxEip1559)
    | Eip4844(eip4844: TxEip4844)
  {
    function Kind(): TxKind {
      match this
      case Legacy(tx) => tx.to
      case Eip2930(tx) => tx.to
      case Eip1559(tx) => tx.to
      case Eip4844(tx) => Call(tx.to)
    }

    function ChainId(): Option<U64> {
      match this
      case Legacy(tx) => tx.chainId
      case Eip2930(tx) => Some(tx.chainId)
      case Eip1559(tx) => Some(tx.chainId)
      case Eip4844(tx) => Some(tx.chainId)
    }

    function Nonce(): U64 {
      match this
      case Legacy(tx) => tx.nonce
      case Eip2930(tx) => tx.nonce
      case Eip1559(tx) => tx.nonce
      case Eip4844(tx) => tx.nonce
    }

    function GasLimit(): U64 {
      match this
      case Legacy(tx) => tx.gasLimit
      case Eip2930(tx) => tx.gasLimit
      case Eip1559(tx) => tx.gasLimit
      case Eip4844(tx) => tx.gasLimit
    }

    function Value(): U256 {
      match this
      case Legacy(tx) => tx.value
      case Eip2930(tx) => tx.value
      case Eip1559(tx) => tx.value
      case Eip4844(tx) => tx.value
    }

    function Input(): seq<Byte> {
      match this
      case Legacy(tx) => tx.input
      case Eip2930(tx) => tx.input
      case Eip1559(tx) => tx.input
      case Eip4844(tx) => tx.input
    }

    /** The fee cap per gas: the flat gas price for the two encodings that
        have no fee market. */
    function MaxFeePerGas(): U128 {
      match this
      case Legacy(tx) => tx.gasPrice
      case Eip2930(tx) => tx.gasPrice
      case Eip1559(tx) => tx.maxFeePerGas
      case Eip4844(tx) => tx.maxFeePerGas
    }

    /** The priority fee, absent for the encodings without a fee market. */
    function MaxPriorityFeePerGas(): Option<U128> {
      match this
      case Legacy(_) => None
      case Eip2930(_) => None
      case Eip1559(tx) => Some(tx.maxPriorityFeePerGas)
      case Eip4844(tx) => Some(tx.maxPriorityFeePerGas)
    }

    /** The access list; a legacy transaction has none. */
    function AccessList(): seq<AccessListItem> {
      match this
      case Legacy(_) => []
      case Eip2930(tx) => tx.accessList
      case Eip1559(tx) => tx.accessList
      case Eip4844(tx) => tx.accessList
    }

    function BlobVersionedHashes(): seq<B256> {
      match this
      case Eip4844(tx) => tx.blobVersionedHashes
      case _ => []
    }

    function MaxFeePerBlobGas(): Option<U128> {
      match this
      case Eip4844(tx) => Some(tx.maxFeePerBlobGas)
      case _ => None
    }
  }

  datatype Signature = Signature(r: U256, s: U256, oddYParity: bool)

  datatype TransactionSigned = TransactionSigned(
    hash: B256,
    signature: Signature,
    transaction: Transaction)
}
