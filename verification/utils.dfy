/** The step-by-step normalisation of src/utils.rs: start from the default
    descriptor and overwrite or clear every field in the arm of the
    transaction's encoding. */
module Utils {
  import opened Primitives
  import opened Transactions
  import opened TxEnvs
  import Pbb

  /** Signer recovery is unwrapped in the source, so a failed recovery aborts
      before any field is touched; here it is the error InvalidSignature.
      The gas price is the fee cap of the encoding (the flat price without a
      fee market), and the descriptor agrees with the replay path's variant
      on every other field. */
  method GetTxEnv(
    recoverSigner: TransactionSigned -> Option<Address>,
    txSigned: TransactionSigned) returns (r: Result<TxEnv, TxEnvError>)
    ensures r.Err? <==> recoverSigner(txSigned).None?
    ensures r.Ok? ==>
      var tx := txSigned.transaction;
      && CommonFieldsCopied(tx, recoverSigner(txSigned).value, r.value)
      && UnusedFieldsCleared(tx, r.value)
      && AccessListMirrors(tx.AccessList(), r.value.accessList)
      && r.value.gasPrice == tx.MaxFeePerGas()
      && r.value.gasPriorityFee == tx.MaxPriorityFeePerGas()
      && r.value.blobHashes == tx.BlobVersionedHashes()
      && r.value.maxFeePerBlobGas == tx.MaxFeePerBlobGas()
    ensures forall effectiveGasPrice: (Transaction, Option<U64>) -> U128 ::
      r.Ok? ==> AgreeExceptGasPrice(r.value, Pbb.GetTxEnv(recoverSigner, effectiveGasPrice, txSigned).value)
  {
    var txEnv := DefaultTxEnv();

    var signer := recoverSigner(txSigned);
    if signer.None? {
      return Err(InvalidSignature);
    }
    txEnv := txEnv.(caller := signer.value);

    match txSigned.transaction {
      case Legacy(tx) =>
        txEnv := txEnv.(gasLimit := tx.gasLimit);
        txEnv := txEnv.(gasPrice := tx.gasPrice);
        txEnv := txEnv.(gasPriorityFee := None);
        txEnv := txEnv.(transactTo := ToTransactTo(tx.to));
        txEnv := txEnv.(value := tx.value);
        txEnv := txEnv.(data := tx.input);
        txEnv := txEnv.(chainId := tx.chainId);
        txEnv := txEnv.(nonce := Some(tx.nonce));
        txEnv := txEnv.(accessList := []);
        txEnv := txEnv.(blobHashes := []);
        txEnv := txEnv.(maxFeePerBlobGas := None);
      case Eip2930(tx) =>
        txEnv := txEnv.(gasLimit := tx.gasLimit);
        txEnv := txEnv.(gasPrice := tx.gasPrice);
        txEnv := txEnv.(gasPriorityFee := None);
        txEnv := txEnv.(transactTo := ToTransactTo(tx.to));
        txEnv := txEnv.(value := tx.value);
        txEnv := txEnv.(data := tx.input);
        txEnv := txEnv.(chainId := Some(tx.chainId));
        txEnv := txEnv.(nonce := Some(tx.nonce));
        txEnv := txEnv.(accessList := ProjectAccessList(tx.accessList));
        txEnv := txEnv.(blobHashes := []);
        txEnv := txEnv.(maxFeePerBlobGas := None);
      case Eip1559(tx) =>
        txEnv := txEnv.(gasLimit := tx.gasLimit);
        txEnv := txEnv.(gasPrice := tx.maxFeePerGas);
        txEnv := txEnv.(gasPriorityFee := Some(tx.maxPriorityFeePerGas));
        txEnv := txEnv.(transactTo := ToTransactTo(tx.to));
        txEnv := txEnv.(value := tx.value);
        txEnv := txEnv.(data := tx.input);
        txEnv := txEnv.(chainId := Some(tx.chainId));
        txEnv := txEnv.(nonce := Some(tx.nonce));
        txEnv := txEnv.(accessList := ProjectAccessList(tx.accessList));
        txEnv := txEnv.(blobHashes := []);
        txEnv := txEnv.(maxFeePerBlobGas := None);
      case Eip4844(tx) =>
        txEnv := txEnv.(gasLimit := tx.gasLimit);
        txEnv := txEnv.(gasPrice := tx.maxFeePerGas);
        txEnv := txEnv.(gasPriorityFee := Some(tx.maxPriorityFeePerGas));
        txEnv := txEnv.(transactTo := TransactTo.Call(tx.to));
        txEnv := txEnv.(value := tx.value);
        txEnv := txEnv.(data := tx.input);
        txEnv := txEnv.(chainId := Some(tx.chainId));
        txEnv := txEnv.(nonce := Some(tx.nonce));
        txEnv := txEnv.(accessList := ProjectAccessList(tx.accessList));
        txEnv := txEnv.(blobHashes := tx.blobVersionedHashes);
        txEnv := txEnv.(maxFeePerBlobGas := Some(tx.maxFeePerBlobGas));
    }
    r := Ok(txEnv);
  }
}
