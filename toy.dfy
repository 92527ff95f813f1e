/** The in-memory chain of main.go: blocks that carry a piece of data and the hash of the
    block before them, kept in a slice of references that only grows. A Go string is modelled as
    its bytes. */
module Toy {
  import opened ByteStrings
  import opened Crypto

  class Block {
    var hash: Bytes
    var data: Bytes
    var prevHash: Bytes

    /** The struct literal Block{[]byte{}, data, prevHash}. */
    constructor (data: Bytes, prevHash: Bytes)
      ensures this.hash == [] && this.data == data && this.prevHash == prevHash
    {
      this.hash := [];
      this.data := data;
      this.prevHash := prevHash;
    }

    /** The block's hash is the SHA-256 of its data followed by the previous hash. */
    predicate Derived(p: Primitives)
      reads this
    {
      hash == p.sha256(data + prevHash)
    }

    /** DeriveHash: join the data and the previous hash with no separator and store their
        SHA-256 as the hash. */
    method DeriveHash(p: Primitives)
      modifies this
      ensures Derived(p)
      ensures data == old(data) && prevHash == old(prevHash)
    {
      var info := data + prevHash;
      var h := p.sha256(info);
      hash := h;
    }
  }

  /** CreateBlock: a new block holding data, linked to prevHash, with its hash derived. */
  method CreateBlock(p: Primitives, data: Bytes, prevHash: Bytes) returns (block: Block)
    ensures fresh(block)
    ensures block.data == data && block.prevHash == prevHash && block.Derived(p)
  {
    block := new Block(data, prevHash);
    block.DeriveHash(p);
  }

  const GenesisData: Bytes := Ascii("Genesis")

  /** Genesis: the first block, with the data "Genesis" and an empty previous hash. */
  method Genesis(p: Primitives) returns (block: Block)
    ensures fresh(block)
    ensures block.data == GenesisData && block.prevHash == [] && block.Derived(p)
  {
    block := CreateBlock(p, GenesisData, []);
  }

  class Blockchain {
    var blocks: seq<Block>

    constructor (blocks: seq<Block>)
      ensures this.blocks == blocks
    {
      this.blocks := blocks;
    }

    /** The data of the blocks, oldest first. */
    ghost function Contents(): (r: seq<Bytes>)
      reads this, blocks
      ensures |r| == |blocks|
      ensures forall i :: 0 <= i < |blocks| ==> r[i] == blocks[i].data
    {
      seq(|blocks|, i reads this, blocks requires 0 <= i < |blocks| => blocks[i].data)
    }

    /** Every block after the first names the hash of the block before it. */
    ghost predicate Linked()
      reads this, blocks
    {
      forall i :: 0 < i < |blocks| ==> blocks[i].prevHash == blocks[i - 1].hash
    }

    /** Every block's hash is derived from its own contents. */
    ghost predicate AllDerived(p: Primitives)
      reads this, blocks
    {
      forall i :: 0 <= i < |blocks| ==> blocks[i].Derived(p)
    }

    /** The chain starts with a genesis block, is linked, and every hash is derived. */
    ghost predicate Valid(p: Primitives)
      reads this, blocks
    {
      && |blocks| > 0
      && blocks[0].data == GenesisData && blocks[0].prevHash == []
      && Linked()
      && AllDerived(p)
    }

    /** AddBlock: append one new block holding data and linked to the hash of the last block.
        The source indexes the last block, so the chain must not be empty. */
    method AddBlock(p: Primitives, data: Bytes)
      requires |blocks| > 0
      modifies this
      ensures |blocks| == |old(blocks)| + 1 && blocks[..|old(blocks)|] == old(blocks)
      ensures fresh(blocks[|blocks| - 1])
      ensures blocks[|blocks| - 1].prevHash == old(blocks[|blocks| - 1].hash)
      ensures Contents() == old(Contents()) + [data]
      ensures Linked() <==> old(Linked())
      ensures AllDerived(p) <==> old(AllDerived(p))
      ensures Valid(p) <==> old(Valid(p))
    {
      var prevBlock := blocks[|blocks| - 1];
      var block := CreateBlock(p, data, prevBlock.hash);
      blocks := blocks + [block];
    }
  }

  /** InitBlockChain: a chain holding the genesis block alone. */
  method InitBlockChain(p: Primitives) returns (chain: Blockchain)
    ensures fresh(chain) && |chain.blocks| == 1 && fresh(chain.blocks[0])
    ensures chain.Contents() == [GenesisData]
    ensures chain.Valid(p)
  {
    var genesis := Genesis(p);
    chain := new Blockchain([genesis]);
  }
}
