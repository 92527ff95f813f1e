/** The ledger's entities (Blockchain/tx.go, Blockchain/transaction.go, Blockchain/block.go).
    Go's int is modelled as an unbounded int; a nil slice and an empty slice are both []. */
module Types {
  import opened ByteStrings

  /** An amount locked to the hash of a public key. */
  datatype TxOutput = TxOutput(value: int, pubKeyHash: Bytes)

  /** A reference to output outputIdx of transaction id, with the spender's signature and
      unhashed public key. */
  datatype TxInput = TxInput(id: Bytes, outputIdx: int, signature: Bytes, pubKey: Bytes)

  datatype Transaction = Transaction(id: Bytes, inputs: seq<TxInput>, outputs: seq<TxOutput>)

  datatype Block = Block(hash: Bytes, transactions: seq<Transaction>, prevHash: Bytes, nonce: int64)

  /** An ECDSA P-256 private key with its public point. */
  datatype PrivateKey = PrivateKey(d: nat, x: nat, y: nat)
}
