/** Ledger values shared by the components. */
module Ledger {
  import opened Bytes

  type AccountId = Bytes

  datatype OutputRef = OutputRef(txHash: Hash32, index: U64)

  // A transaction output at the account script, with the store root its datum carries.
  datatype TxOut = TxOut(payload: Bytes, storeRoot: Hash32)

  // An output together with its reference.
  datatype Utxo = Utxo(output: TxOut, ref: OutputRef)
}
