/** The per-block execution context (BlockEnv), the chain data it is derived
    from, and the chain-specification and fee formulas the derivation consults.
    The formulas belong to the node and execution libraries; they enter the
    model as functions supplied by the caller, about which nothing is assumed. */
module BlockEnvs {
  import opened Primitives

  /** The protocol rule sets of the execution library, oldest first. */
  datatype SpecId =
    | Frontier | FrontierThawing | Homestead | DaoFork | Tangerine | SpuriousDragon
    | Byzantium | Constantinople | Petersburg | Istanbul | MuirGlacier | Berlin
    | London | ArrowGlacier | GrayGlacier | Merge | Shanghai | Cancun | Prague | Latest

  /** A sealed chain header, reduced to the fields the block builder reads. */
  datatype Header = Header(
    hash: B256,
    number: U64,
    timestamp: U64,
    beneficiary: Address,
    gasLimit: U64,
    gasUsed: U64,
    baseFeePerGas: Option<U64>,
    mixHash: B256,
    blobGasUsed: Option<U64>,
    excessBlobGas: Option<U64>)

  /** The consensus layer's attributes for the next block. */
  datatype PayloadAttributes = PayloadAttributes(
    timestamp: U64,
    prevRandao: B256,
    suggestedFeeRecipient: Address)

  datatype BaseFeeParams = BaseFeeParams(maxChangeDenominator: U128, elasticityMultiplier: U128)

  /** The chain specification, read-only and shared by every derivation. */
  datatype ChainSpec = ChainSpec(
    chainId: U64,
    // revm_spec_by_timestamp_after_merge
    specAtTimestamp: U64 -> SpecId,
    // base_fee_params_at_timestamp
    baseFeeParamsAt: U64 -> BaseFeeParams,
    // block_coinbase(chain_spec, header, after_merge = true)
    blockCoinbase: Header -> Address)

  /** The fee formulas of the node and execution libraries. */
  datatype FeeFormulas = FeeFormulas(
    // the EIP-1559 base fee of the block after the given header
    nextBlockBaseFee: (Header, BaseFeeParams) -> Option<U64>,
    // the EIP-4844 excess blob gas of the block after the given header
    nextBlockExcessBlobGas: Header -> Option<U64>,
    // the EIP-4844 blob gas price for an excess blob gas
    blobGasPrice: U64 -> U128)

  datatype BlobExcessGasAndPrice = BlobExcessGasAndPrice(excessBlobGas: U64, blobGasprice: U128)

  datatype BlockEnv = BlockEnv(
    number: U256,
    timestamp: U256,
    coinbase: Address,
    gasLimit: U256,
    basefee: U256,
    difficulty: U256,
    prevrandao: Option<B256>,
    blobExcessGasAndPrice: Option<BlobExcessGasAndPrice>)

  /** BlobExcessGasAndPrice::new: pairs an excess blob gas with its price. */
  function NewBlobExcessGasAndPrice(formulas: FeeFormulas, excess: U64): (r: BlobExcessGasAndPrice)
    ensures r.excessBlobGas == excess
    ensures BlobPairPriced(formulas, r)
  {
    BlobExcessGasAndPrice(excess, formulas.blobGasPrice(excess))
  }

  /** The price carried by a blob pair is the one the blob fee formula gives
      for its excess blob gas. */
  ghost predicate BlobPairPriced(formulas: FeeFormulas, pair: BlobExcessGasAndPrice)
  {
    pair.blobGasprice == formulas.blobGasPrice(pair.excessBlobGas)
  }

  /** Option::map(BlobExcessGasAndPrice::new). */
  function PairFor(formulas: FeeFormulas, excess: Option<U64>): (r: Option<BlobExcessGasAndPrice>)
    ensures r.Some? <==> excess.Some?
    ensures r.Some? ==> r.value.excessBlobGas == excess.value && BlobPairPriced(formulas, r.value)
  {
    match excess
    case Some(e) => Some(NewBlobExcessGasAndPrice(formulas, e))
    case None => None
  }
}
