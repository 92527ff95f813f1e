/** Blocks (Blockchain/block.go): a block is mined by running the proof of work over its
    transactions and previous hash; the resulting digest and nonce are stored in it. */
module Blocks {
  import opened ByteStrings
  import opened Types
  import opened Crypto
  import opened Proof

  /** The proof of work reads a block's transactions and previous hash, never its hash or
      nonce fields. */
  lemma AttemptIgnoresHashAndNonce(p: Primitives, b: Block, h: Bytes, n: int64, nonce: int64)
    ensures Attempt(p, NewProof(b.(hash := h, nonce := n)), nonce) == Attempt(p, NewProof(b), nonce)
  {
    assert InitData(p, NewProof(b.(hash := h, nonce := n)), nonce) == InitData(p, NewProof(b), nonce);
  }

  /** CreateBlock: mine the block with the given transactions and previous hash. Its nonce is the
      least one that meets the target and its hash is the digest of that attempt; only when the
      whole nonce range is exhausted is the nonce MaxNonce, with the digest of the last attempt,
      MaxNonce - 1. */
  method CreateBlock(p: Primitives, txs: seq<Transaction>, prevHash: Bytes) returns (block: Block)
    ensures block.transactions == txs && block.prevHash == prevHash && |block.hash| == 32
    ensures 0 <= block.nonce <= MaxNonce
    ensures forall n: int64 :: 0 <= n < block.nonce ==> !Meets(p, NewProof(block), n)
    ensures block.nonce < MaxNonce ==>
              && Validate(p, NewProof(block))
              && block.hash == Attempt(p, NewProof(block), block.nonce)
    ensures block.nonce == MaxNonce ==> block.hash == Attempt(p, NewProof(block), MaxNonce - 1)
  {
    block := Block([], txs, prevHash, 0);
    var proof := NewProof(block);
    var nonce, hash := Run(p, proof);
    ghost var start := block;
    block := block.(hash := hash);
    block := block.(nonce := nonce);
    forall n: int64 | 0 <= n <= nonce
      ensures Attempt(p, NewProof(block), n) == Attempt(p, proof, n)
      ensures Meets(p, NewProof(block), n) == Meets(p, proof, n)
    {
      AttemptIgnoresHashAndNonce(p, start, hash, nonce, n);
    }
  }

  /** Genesis: the block holding only the coinbase transaction, with an empty previous hash. */
  method Genesis(p: Primitives, coinbase: Transaction) returns (block: Block)
    ensures block.transactions == [coinbase] && block.prevHash == [] && |block.hash| == 32
    ensures block.nonce < MaxNonce ==> Validate(p, NewProof(block))
  {
    block := CreateBlock(p, [coinbase], []);
  }
}
