/** The chain object (Blockchain/blockchain.go): the hash of the newest block and the store the
    blocks live in, keyed by their hashes, with the newest hash under the key "lh". Each
    db.Update is atomic: a failure inside it writes nothing. */
module Chain {
  import opened ByteStrings
  import opened Outcomes
  import opened Types
  import opened Crypto
  import opened Store
  import opened Proof
  import opened Blocks
  import opened Transactions
  import opened ChainSpec

  const LastHashKey: Bytes := Ascii("lh")
  const GenesisData: Bytes := Ascii("First Transaction from Genesis")

  class BlockchainIterator {
    var currentHash: Bytes
    const database: Db

    constructor (currentHash: Bytes, database: Db)
      ensures this.currentHash == currentHash && this.database == database
    {
      this.currentHash := currentHash;
      this.database := database;
    }

    /** Next: read and decode the block under the current hash, then move to its previous hash.
        A missing key or undecodable bytes make the source panic. */
    method Next(p: Primitives) returns (r: Result<Block>)
      modifies this
      ensures r == BlockAt(p, database.data, old(currentHash))
      ensures r.Ok? ==> currentHash == r.value.prevHash
      ensures r.Err? ==> currentHash == old(currentHash)
    {
      var item := database.Get(currentHash);
      if item.Err? {
        return Err(item.error);
      }
      var block := p.decodeBlock(item.value);
      if block.None? {
        return Err(SerializationError);
      }
      currentHash := block.value.prevHash;
      r := Ok(block.value);
    }
  }

  class Blockchain {
    var lastHash: Bytes
    const database: Db

    constructor (lastHash: Bytes, database: Db)
      ensures this.lastHash == lastHash && this.database == database
    {
      this.lastHash := lastHash;
      this.database := database;
    }

    /** AddBlock: mine a block on top of the hash stored under "lh", store it under its hash and
        make it the tip, in the store and in the chain object. */
    method AddBlock(p: Primitives, transactions: seq<Transaction>) returns (r: Result<Block>)
      modifies this, database
      ensures LastHashKey !in old(database.data) ==>
                r == Err(NotFound) && lastHash == old(lastHash) && database.data == old(database.data)
      ensures LastHashKey in old(database.data) ==>
                && r.Ok?
                && r.value.transactions == transactions
                && r.value.prevHash == old(database.data[LastHashKey])
                && |r.value.hash| == 32
                && database.data == WithTip(p, old(database.data), r.value, LastHashKey)
                && lastHash == r.value.hash
                && (r.value.nonce < MaxNonce ==> Validate(p, NewProof(r.value)))
      ensures database.present == old(database.present)
    {
      var item := database.Get(LastHashKey);
      if item.Err? {
        return Err(item.error);
      }
      var prevHash := item.value;
      var newBlock := CreateBlock(p, transactions, prevHash);
      database.Set(newBlock.hash, p.encodeBlock(newBlock));
      database.Set(LastHashKey, newBlock.hash);
      lastHash := newBlock.hash;
      r := Ok(newBlock);
    }

    method Iterator() returns (iter: BlockchainIterator)
      ensures fresh(iter) && iter.currentHash == lastHash && iter.database == database
    {
      iter := new BlockchainIterator(lastHash, database);
    }

    /** FindUTXO: walk from the tip to the genesis block and scan every transaction, newest
        first. The walk must end: on a cycle of blocks the source never returns. */
    method FindUTXO(p: Primitives, ghost fuel: nat) returns (r: Result<map<Bytes, seq<TxOutput>>>)
      requires Terminates(p, database.data, lastHash, fuel)
      ensures r == FindUTXOSpec(p, database.data, lastHash, fuel)
    {
      var utxo: map<Bytes, seq<TxOutput>> := map[];
      var spent: set<(Bytes, int)> := {};
      var iter := Iterator();
      ghost var visited: seq<Block> := [];
      PrependNothing(BlocksFrom(p, database.data, lastHash, fuel));
      while true
        invariant iter.database == database
        invariant |visited| < fuel && Terminates(p, database.data, iter.currentHash, fuel - |visited|)
        invariant BlocksFrom(p, database.data, lastHash, fuel)
                  == Prepend(visited, BlocksFrom(p, database.data, iter.currentHash, fuel - |visited|))
        invariant Scan(utxo, spent) == FoldTxs(Scan(map[], {}), AllTxs(visited))
        decreases fuel - |visited|
      {
        ghost var here := iter.currentHash;
        var block :- iter.Next(p);
        WalkStep(p, database.data, here, fuel - |visited|, visited, block);
        utxo, spent := ScanBlock(utxo, spent, block.transactions);
        AllTxsAppend(visited, block);
        FoldTxsAppend(Scan(map[], {}), AllTxs(visited), block.transactions);
        visited := visited + [block];
        if |block.prevHash| == 0 {
          break;  // the genesis block
        }
      }
      r := Ok(utxo);
    }

    /** FindTransaction as written: the loop body returns after the newest block, and when that
        is the genesis block after its first transaction. */
    method FindTransaction(p: Primitives, id: Bytes) returns (r: Result<Transaction>)
      ensures r == FindAsWritten(p, database.data, lastHash, id)
    {
      var iter := Iterator();
      var block :- iter.Next(p);
      var k := 0;
      while k < |block.transactions|
        invariant 0 <= k <= |block.transactions|
        invariant block.prevHash == [] ==> k == 0
        invariant forall j :: 0 <= j < k ==> block.transactions[j].id != id
      {
        if block.transactions[k].id == id {
          if block.prevHash == [] {
            FirstWithIdAt(block.transactions[..1], id, k);
          } else {
            FirstWithIdAt(block.transactions, id, k);
          }
          return Ok(block.transactions[k]);
        }
        k := k + 1;
        if |block.prevHash| == 0 {
          break;
        }
      }
      r := Err(TransactionNotFound);
    }

    /** The corrected lookup: walk back block by block to the first transaction with the ID. */
    method FindTransactionOnChain(p: Primitives, id: Bytes, ghost fuel: nat) returns (r: Result<Transaction>)
      requires Terminates(p, database.data, lastHash, fuel)
      ensures r == FindOnChain(p, database.data, lastHash, fuel, id)
    {
      var iter := Iterator();
      ghost var f := fuel;
      while true
        invariant iter.database == database
        invariant Terminates(p, database.data, iter.currentHash, f)
        invariant FindOnChain(p, database.data, lastHash, fuel, id)
                  == FindOnChain(p, database.data, iter.currentHash, f, id)
        decreases f
      {
        var block :- iter.Next(p);
        for k := 0 to |block.transactions|
          invariant forall j :: 0 <= j < k ==> block.transactions[j].id != id
        {
          if block.transactions[k].id == id {
            return Ok(block.transactions[k]);
          }
        }
        if |block.prevHash| == 0 {
          break;  // the genesis block
        }
        f := f - 1;
      }
      r := Err(TransactionNotFound);
    }

    /** SignTransaction: collect the transaction each input names, keyed by its ID, then sign. */
    method SignTransaction(p: Primitives, tx: Transaction, key: PrivateKey, ghost fuel: nat)
      returns (r: Result<Transaction>)
      requires Terminates(p, database.data, lastHash, fuel)
      ensures r == SignOnChain(p, database.data, lastHash, fuel, tx, key)
    {
      var prevTxs :- CollectPrevTxsFor(p, tx.inputs, fuel);
      r := Sign(p, Fixed32, tx, key, prevTxs);
    }

    /** VerifyTransaction: a coinbase is valid; otherwise collect as for signing and check every
        input. */
    method VerifyTransaction(p: Primitives, tx: Transaction, ghost fuel: nat) returns (r: Result<bool>)
      requires Terminates(p, database.data, lastHash, fuel)
      ensures r == VerifyOnChain(p, database.data, lastHash, fuel, tx)
    {
      if IsCoinbase(tx) {
        return Ok(true);
      }
      var prevTxs :- CollectPrevTxsFor(p, tx.inputs, fuel);
      r := VerifyAllInputs(p, tx, prevTxs);
    }

    /** The loop SignTransaction and VerifyTransaction share. */
    method CollectPrevTxsFor(p: Primitives, inputs: seq<TxInput>, ghost fuel: nat)
      returns (r: Result<map<Bytes, Transaction>>)
      requires Terminates(p, database.data, lastHash, fuel)
      ensures r == CollectPrevTxs(p, database.data, lastHash, fuel, inputs)
    {
      var prevTxs: map<Bytes, Transaction> := map[];
      for k := 0 to |inputs|
        invariant CollectPrevTxs(p, database.data, lastHash, fuel, inputs[..k]) == Ok(prevTxs)
      {
        assert inputs[..k + 1][..k] == inputs[..k];
        var found := FindTransactionOnChain(p, inputs[k].id, fuel);
        if found.Err? {
          CollectStopsAtFailure(p, database.data, lastHash, fuel, inputs, k + 1);
          return Err(found.error);
        }
        var prevTx := found.value;
        prevTxs := prevTxs[prevTx.id := prevTx];
      }
      assert inputs[..|inputs|] == inputs;
      r := Ok(prevTxs);
    }
  }

  /** The transactions of one block, in order. */
  method ScanBlock(utxo: map<Bytes, seq<TxOutput>>, spent: set<(Bytes, int)>, txs: seq<Transaction>)
    returns (utxo': map<Bytes, seq<TxOutput>>, spent': set<(Bytes, int)>)
    ensures Scan(utxo', spent') == FoldTxs(Scan(utxo, spent), txs)
  {
    utxo', spent' := utxo, spent;
    for k := 0 to |txs|
      invariant Scan(utxo', spent') == FoldTxs(Scan(utxo, spent), txs[..k])
    {
      assert txs[..k + 1][..k] == txs[..k];
      utxo', spent' := ScanTransaction(utxo', spent', txs[k]);
    }
    assert txs[..|txs|] == txs;
  }

  /** One transaction of FindUTXO: its outputs whose index is not spent go under its ID; then,
      unless it is a coinbase, its inputs are recorded as spent. */
  method ScanTransaction(utxo: map<Bytes, seq<TxOutput>>, spent: set<(Bytes, int)>, tx: Transaction)
    returns (utxo': map<Bytes, seq<TxOutput>>, spent': set<(Bytes, int)>)
    ensures Scan(utxo', spent') == StepTx(Scan(utxo, spent), tx)
  {
    utxo' := utxo;
    ghost var kept: seq<TxOutput> := [];
    for outIdx := 0 to |tx.outputs|
      invariant kept == KeepUnspent(tx.outputs[..outIdx], tx.id, spent)
      invariant utxo' == if kept == [] then utxo else utxo[tx.id := Lookup(utxo, tx.id) + kept]
    {
      assert tx.outputs[..outIdx + 1][..outIdx] == tx.outputs[..outIdx];
      if (tx.id, outIdx) !in spent {
        var outputs := Lookup(utxo', tx.id);
        assert outputs == Lookup(utxo, tx.id) + kept;
        utxo' := utxo'[tx.id := outputs + [tx.outputs[outIdx]]];
        kept := kept + [tx.outputs[outIdx]];
        assert Lookup(utxo, tx.id) + kept == outputs + [tx.outputs[outIdx]];
      }
    }
    assert tx.outputs[..|tx.outputs|] == tx.outputs;
    spent' := spent;
    if !IsCoinbase(tx) {
      spent' := spent' + set input | input in tx.inputs :: (input.id, input.outputIdx);
    }
  }

  /** InitBlockChain: refuse when a database exists; otherwise open one and store the genesis
      block, whose coinbase pays address, as the tip. */
  method InitBlockChain(p: Primitives, db: Db, address: Bytes) returns (r: Result<Blockchain>, ghost genesis: Block)
    modifies db
    ensures old(db.present) ==> r == Err(AlreadyExists) && db.data == old(db.data) && db.present
    ensures !old(db.present) ==> db.present
    ensures !old(db.present) && CoinbaseTx(p, address, GenesisData).Err? ==>
              r.Err? && db.data == old(db.data)
    ensures !old(db.present) && CoinbaseTx(p, address, GenesisData).Ok? ==>
              && r.Ok? && fresh(r.value) && r.value.database == db
              && genesis.transactions == [CoinbaseTx(p, address, GenesisData).value]
              && genesis.prevHash == [] && |genesis.hash| == 32
              && (genesis.nonce < MaxNonce ==> Validate(p, NewProof(genesis)))
              && r.value.lastHash == genesis.hash
              && db.data == WithTip(p, old(db.data), genesis, LastHashKey)
  {
    genesis := Block([], [], [], 0);
    if db.present {
      return Err(AlreadyExists), genesis;  // "Blockchain already exists"
    }
    db.Open();
    var cbtx :- CoinbaseTx(p, address, GenesisData);
    var block := Genesis(p, cbtx);
    genesis := block;
    db.Set(block.hash, p.encodeBlock(block));
    db.Set(LastHashKey, block.hash);
    var chain := new Blockchain(block.hash, db);
    r := Ok(chain);
  }

  /** ContinueBlockchain: with a database present, the chain whose tip is stored under "lh". */
  method ContinueBlockchain(db: Db) returns (r: Result<Blockchain>)
    ensures !db.present ==> r == Err(NotFound)
    ensures db.present && LastHashKey !in db.data ==> r == Err(NotFound)
    ensures db.present && LastHashKey in db.data ==>
              r.Ok? && fresh(r.value) && r.value.database == db && r.value.lastHash == db.data[LastHashKey]
  {
    if !db.present {
      return Err(NotFound);  // "No existing blockchain found, create one!"
    }
    var lastHash :- db.Get(LastHashKey);
    var chain := new Blockchain(lastHash, db);
    r := Ok(chain);
  }
}
