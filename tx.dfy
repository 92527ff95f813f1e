/** Locking outputs to addresses and unlocking them with public keys (Blockchain/tx.go).
    Outputs are values: Lock returns the locked output instead of assigning its field. */
module Tx {
  import opened ByteStrings
  import opened Outcomes
  import opened Types
  import opened Crypto
  import W = Wallet

  /** The output locked to an address: its public-key hash becomes the decoded address without
      the version byte and the checksum. */
  function Lock(p: Primitives, out: TxOutput, address: Bytes): (r: Result<TxOutput>)
    ensures p.base58Decode(address).None? ==> r == Err(InvalidAddress)
    ensures p.base58Decode(address).Some? ==>
      var decoded := p.base58Decode(address).value;
      && (|decoded| < 1 + W.ChecksumLength ==> r == Err(IndexOutOfRange))
      && (|decoded| >= 1 + W.ChecksumLength ==>
            r.Ok? && r.value.value == out.value
            && [decoded[0]] + r.value.pubKeyHash + decoded[|decoded| - W.ChecksumLength..] == decoded)
  {
    match p.base58Decode(address)
    case None => Err(InvalidAddress)
    case Some(decoded) =>
      if |decoded| < 1 + W.ChecksumLength then Err(IndexOutOfRange)
      else
        var pubKeyHash := decoded[1..|decoded| - W.ChecksumLength];
        assert [decoded[0]] + pubKeyHash + decoded[|decoded| - W.ChecksumLength..] == decoded;
        Ok(out.(pubKeyHash := pubKeyHash))
  }

  /** A new output of value locked to address: its public-key hash is the payload of the
      decoded address, between the version byte and the checksum. */
  function NewTxOutput(p: Primitives, value: int, address: Bytes): (r: Result<TxOutput>)
    ensures r.Ok? ==> r.value.value == value
    ensures r.Ok? ==> p.base58Decode(address).Some?
    ensures r.Ok? ==>
      var decoded := p.base58Decode(address).value;
      && |decoded| >= 1 + W.ChecksumLength
      && r.value.pubKeyHash == decoded[1..|decoded| - W.ChecksumLength]
    ensures r.Err? <==> Lock(p, TxOutput(value, []), address).Err?
  {
    Lock(p, TxOutput(value, []), address)
  }

  predicate IsLockedWithKey(out: TxOutput, pubKeyHash: Bytes) {
    out.pubKeyHash == pubKeyHash
  }

  predicate UsesKey(p: Primitives, input: TxInput, pubKeyHash: Bytes) {
    W.CreatePubKeyHash(p, input.pubKey) == pubKeyHash
  }

  /** An output paid to a wallet's address is locked with that wallet's public-key hash. */
  lemma NewTxOutputToWallet(p: Primitives, value: int, w: W.Wallet)
    requires Base58RoundTrip(p)
    ensures NewTxOutput(p, value, W.CreateAddress(p, w))
            == Ok(TxOutput(value, W.CreatePubKeyHash(p, w.publicKey)))
  {
    var versioned := [W.Version] + W.CreatePubKeyHash(p, w.publicKey);
    var decoded := versioned + W.Checksum(p, versioned);
    assert decoded[1..|decoded| - W.ChecksumLength] == W.CreatePubKeyHash(p, w.publicKey);
  }

  /** An input carrying a wallet's public key unlocks exactly the outputs locked to that
      wallet's public-key hash. */
  lemma OwnerUnlocks(p: Primitives, value: int, w: W.Wallet, input: TxInput)
    requires Base58RoundTrip(p)
    requires input.pubKey == w.publicKey
    ensures NewTxOutput(p, value, W.CreateAddress(p, w)).Ok?
    ensures forall pkh :: UsesKey(p, input, pkh)
                        <==> IsLockedWithKey(NewTxOutput(p, value, W.CreateAddress(p, w)).value, pkh)
  {
    NewTxOutputToWallet(p, value, w);
  }
}
