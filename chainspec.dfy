/** What walking the chain computes (Blockchain/blockchain.go): the blocks met from a hash back
    to the genesis block, the unspent outputs found on the way, and the transaction with an ID. */
module ChainSpec {
  import opened ByteStrings
  import opened Outcomes
  import opened Types
  import opened Crypto
  import opened Transactions

  /** The block stored under h: NotFound when no key h exists, SerializationError when its bytes
      do not decode. */
  function BlockAt(p: Primitives, data: map<Bytes, Bytes>, h: Bytes): (r: Result<Block>)
    ensures h !in data ==> r == Err(NotFound)
    ensures h in data && p.decodeBlock(data[h]).None? ==> r == Err(SerializationError)
    ensures h in data && p.decodeBlock(data[h]).Some? ==> r == Ok(p.decodeBlock(data[h]).value)
  {
    if h !in data then Err(NotFound)
    else match p.decodeBlock(data[h])
      case None => Err(SerializationError)
      case Some(b) => Ok(b)
  }

  /** A block stored under its hash reads back as itself. */
  lemma StoredBlockReadsBack(p: Primitives, data: map<Bytes, Bytes>, b: Block)
    requires CodecRoundTrip(p)
    ensures BlockAt(p, data[b.hash := p.encodeBlock(b)], b.hash) == Ok(b)
  {
  }

  /** Walking back from h stops within fuel blocks: at a block that cannot be read, or at the
      genesis block (empty previous hash). On a cycle of blocks the source never stops. */
  predicate Terminates(p: Primitives, data: map<Bytes, Bytes>, h: Bytes, fuel: nat)
    decreases fuel
  {
    fuel > 0 &&
    match BlockAt(p, data, h)
    case Err(_) => true
    case Ok(b) => b.prevHash == [] || Terminates(p, data, b.prevHash, fuel - 1)
  }

  /** The blocks met walking back from h, newest first: each is stored under the previous hash
      of the one before, and the last is the genesis block. */
  function BlocksFrom(p: Primitives, data: map<Bytes, Bytes>, h: Bytes, fuel: nat): (r: Result<seq<Block>>)
    requires Terminates(p, data, h, fuel)
    ensures r.Ok? ==> r.value != [] && BlockAt(p, data, h) == Ok(r.value[0])
    ensures r.Ok? ==> r.value[|r.value| - 1].prevHash == []
    ensures r.Ok? ==> forall i :: 0 <= i < |r.value| - 1 ==>
              r.value[i].prevHash != [] && BlockAt(p, data, r.value[i].prevHash) == Ok(r.value[i + 1])
    decreases fuel
  {
    var b :- BlockAt(p, data, h);
    if b.prevHash == [] then Ok([b])
    else
      var rest :- BlocksFrom(p, data, b.prevHash, fuel - 1);
      Ok([b] + rest)
  }

  /** Walking back from h never reads a key in keys. */
  predicate WalkAvoids(p: Primitives, data: map<Bytes, Bytes>, h: Bytes, fuel: nat, keys: set<Bytes>)
    requires Terminates(p, data, h, fuel)
    decreases fuel
  {
    h !in keys &&
    match BlockAt(p, data, h)
    case Err(_) => true
    case Ok(b) => b.prevHash == [] || WalkAvoids(p, data, b.prevHash, fuel - 1, keys)
  }

  /** Changing only keys the walk never reads leaves the walk as it was. */
  lemma {:induction false} WalkUnchanged(p: Primitives, data: map<Bytes, Bytes>, data': map<Bytes, Bytes>,
                                         h: Bytes, fuel: nat, keys: set<Bytes>)
    requires Terminates(p, data, h, fuel) && WalkAvoids(p, data, h, fuel, keys)
    requires forall k :: k !in keys ==> (k in data <==> k in data')
    requires forall k :: k !in keys && k in data ==> data'[k] == data[k]
    ensures Terminates(p, data', h, fuel)
    ensures BlocksFrom(p, data', h, fuel) == BlocksFrom(p, data, h, fuel)
    decreases fuel
  {
    assert BlockAt(p, data', h) == BlockAt(p, data, h);
    if BlockAt(p, data, h).Ok? && BlockAt(p, data, h).value.prevHash != [] {
      WalkUnchanged(p, data, data', BlockAt(p, data, h).value.prevHash, fuel - 1, keys);
    }
  }

  /** Deleting keys never makes the walk from h longer: it either reaches a deleted key, where
      reading the block fails, or reads what it read before. */
  lemma {:induction false} TerminatesWithout(p: Primitives, data: map<Bytes, Bytes>, h: Bytes, fuel: nat, keys: set<Bytes>)
    requires Terminates(p, data, h, fuel)
    ensures Terminates(p, data - keys, h, fuel)
    decreases fuel
  {
    if h !in keys {
      assert BlockAt(p, data - keys, h) == BlockAt(p, data, h);
      if BlockAt(p, data, h).Ok? && BlockAt(p, data, h).value.prevHash != [] {
        TerminatesWithout(p, data, BlockAt(p, data, h).value.prevHash, fuel - 1, keys);
      }
    }
  }

  /** The store InitBlockChain leaves: the genesis block under its hash, which is the tip. */
  function WithTip(p: Primitives, data: map<Bytes, Bytes>, b: Block, tipKey: Bytes): map<Bytes, Bytes> {
    data[b.hash := p.encodeBlock(b)][tipKey := b.hash]
  }

  /** After InitBlockChain the chain is the genesis block alone. */
  lemma GenesisIsWholeChain(p: Primitives, data: map<Bytes, Bytes>, genesis: Block, tipKey: Bytes)
    requires CodecRoundTrip(p)
    requires genesis.prevHash == [] && genesis.hash != tipKey
    ensures var data' := WithTip(p, data, genesis, tipKey);
            && data'[tipKey] == genesis.hash
            && Terminates(p, data', genesis.hash, 1)
            && BlocksFrom(p, data', genesis.hash, 1) == Ok([genesis])
  {
    assert BlockAt(p, WithTip(p, data, genesis, tipKey), genesis.hash) == Ok(genesis);
  }

  /** After AddBlock the chain is the new block followed by the chain it was added to, provided
      walking that chain never read the new block's hash or the tip key. */
  lemma AddedBlockExtendsWalk(p: Primitives, data: map<Bytes, Bytes>, b: Block, fuel: nat, tipKey: Bytes)
    requires CodecRoundTrip(p)
    requires b.prevHash != [] && b.hash != tipKey
    requires Terminates(p, data, b.prevHash, fuel)
    requires WalkAvoids(p, data, b.prevHash, fuel, {b.hash, tipKey})
    ensures var data' := WithTip(p, data, b, tipKey);
            && data'[tipKey] == b.hash
            && Terminates(p, data', b.hash, fuel + 1)
            && BlocksFrom(p, data', b.hash, fuel + 1)
               == (var before := BlocksFrom(p, data, b.prevHash, fuel);
                   if before.Ok? then Ok([b] + before.value) else before)
  {
    var data' := WithTip(p, data, b, tipKey);
    WalkUnchanged(p, data, data', b.prevHash, fuel, {b.hash, tipKey});
    assert BlockAt(p, data', b.hash) == Ok(b);
  }

  /** The walk from a hash when visited blocks were met before it. */
  function Prepend(visited: seq<Block>, rest: Result<seq<Block>>): (r: Result<seq<Block>>)
    ensures r.Ok? <==> rest.Ok?
    ensures r.Ok? ==> |r.value| == |visited| + |rest.value|
                      && r.value[..|visited|] == visited && r.value[|visited|..] == rest.value
  {
    if rest.Ok? then Ok(visited + rest.value) else rest
  }

  lemma PrependNothing(rest: Result<seq<Block>>)
    ensures Prepend([], rest) == rest
  {
    if rest.Ok? {
      assert [] + rest.value == rest.value;
    }
  }

  /** One step of the walk: the block read at h, then either the end of the walk or the walk
      from its previous hash with one unit of fuel less. */
  lemma WalkStep(p: Primitives, data: map<Bytes, Bytes>, h: Bytes, fuel: nat, visited: seq<Block>, b: Block)
    requires Terminates(p, data, h, fuel) && BlockAt(p, data, h) == Ok(b)
    ensures b.prevHash == [] ==> Prepend(visited, BlocksFrom(p, data, h, fuel)) == Ok(visited + [b])
    ensures b.prevHash != [] ==>
              && fuel - 1 > 0 && Terminates(p, data, b.prevHash, fuel - 1)
              && Prepend(visited, BlocksFrom(p, data, h, fuel))
                 == Prepend(visited + [b], BlocksFrom(p, data, b.prevHash, fuel - 1))
  {
    if b.prevHash != [] {
      var rest := BlocksFrom(p, data, b.prevHash, fuel - 1);
      if rest.Ok? {
        assert visited + ([b] + rest.value) == (visited + [b]) + rest.value;
      }
    }
  }

  /** The transactions of blocks, block by block, each block's in order. */
  function AllTxs(blocks: seq<Block>): (r: seq<Transaction>)
    ensures forall b, tx :: b in blocks && tx in b.transactions ==> tx in r
    ensures forall tx :: tx in r ==> exists b :: b in blocks && tx in b.transactions
  {
    if blocks == [] then [] else blocks[0].transactions + AllTxs(blocks[1..])
  }

  lemma {:induction false} AllTxsAppend(blocks: seq<Block>, b: Block)
    ensures AllTxs(blocks + [b]) == AllTxs(blocks) + b.transactions
  {
    if blocks != [] {
      assert (blocks + [b])[1..] == blocks[1..] + [b];
      AllTxsAppend(blocks[1..], b);
    }
  }

  /** The first transaction with ID id, or TransactionNotFound. */
  function FirstWithId(txs: seq<Transaction>, id: Bytes): (r: Result<Transaction>)
    ensures r.Err? <==> forall k :: 0 <= k < |txs| ==> txs[k].id != id
    ensures r.Err? ==> r.error == TransactionNotFound
    ensures r.Ok? ==> exists k :: 0 <= k < |txs| && txs[k] == r.value && r.value.id == id
                                  && forall j :: 0 <= j < k ==> txs[j].id != id
  {
    if txs == [] then Err(TransactionNotFound)
    else if txs[0].id == id then Ok(txs[0])
    else
      var r := FirstWithId(txs[1..], id);
      assert r.Ok? ==> exists k :: 1 <= k < |txs| && txs[k] == r.value && r.value.id == id
                                   && forall j :: 0 <= j < k ==> txs[j].id != id by {
        if r.Ok? {
          var k :| 0 <= k < |txs| - 1 && txs[1..][k] == r.value && r.value.id == id
                   && forall j :: 0 <= j < k ==> txs[1..][j].id != id;
          assert forall j :: 1 <= j < k + 1 ==> txs[j] == txs[1..][j - 1];
        }
      }
      r
  }

  lemma {:induction false} FirstWithIdAt(txs: seq<Transaction>, id: Bytes, k: nat)
    requires k < |txs| && txs[k].id == id
    requires forall j :: 0 <= j < k ==> txs[j].id != id
    ensures FirstWithId(txs, id) == Ok(txs[k])
    decreases k
  {
    if k > 0 {
      FirstWithIdAt(txs[1..], id, k - 1);
    }
  }

  lemma {:induction false} FirstWithIdAppend(a: seq<Transaction>, b: seq<Transaction>, id: Bytes)
    ensures FirstWithId(a + b, id) == if FirstWithId(a, id).Ok? then FirstWithId(a, id) else FirstWithId(b, id)
  {
    if a != [] {
      assert (a + b)[1..] == a[1..] + b;
      FirstWithIdAppend(a[1..], b, id);
    } else {
      assert a + b == b;
    }
  }

  /** FindTransaction as written: only the newest block is searched, and when that is the
      genesis block only its first transaction. */
  function FindAsWritten(p: Primitives, data: map<Bytes, Bytes>, tip: Bytes, id: Bytes): (r: Result<Transaction>)
    ensures BlockAt(p, data, tip).Err? ==> r == Err(BlockAt(p, data, tip).error)
    ensures r.Ok? ==> r.value.id == id && r.value in BlockAt(p, data, tip).value.transactions
    ensures BlockAt(p, data, tip).Ok? && BlockAt(p, data, tip).value.prevHash != [] ==>
      r == FirstWithId(BlockAt(p, data, tip).value.transactions, id)
    ensures BlockAt(p, data, tip).Ok? && BlockAt(p, data, tip).value.prevHash == [] ==>
      var txs := BlockAt(p, data, tip).value.transactions;
      r == if txs != [] && txs[0].id == id then Ok(txs[0]) else Err(TransactionNotFound)
  {
    var b :- BlockAt(p, data, tip);
    if b.prevHash == [] then FirstWithId(b.transactions[..if |b.transactions| < 1 then 0 else 1], id)
    else FirstWithId(b.transactions, id)
  }

  /** The evident intent: walk back from the tip, block by block, to the first transaction with
      ID id. */
  function FindOnChain(p: Primitives, data: map<Bytes, Bytes>, h: Bytes, fuel: nat, id: Bytes): (r: Result<Transaction>)
    requires Terminates(p, data, h, fuel)
    ensures r.Ok? ==> r.value.id == id
    decreases fuel
  {
    var b :- BlockAt(p, data, h);
    var here := FirstWithId(b.transactions, id);
    if here.Ok? || b.prevHash == [] then here
    else FindOnChain(p, data, b.prevHash, fuel - 1, id)
  }

  /** On a chain that reads back to its genesis block, FindOnChain returns the first transaction
      with the ID among all the chain's transactions, newest block first. */
  lemma {:induction false} FindOnChainIsFirstOnChain(p: Primitives, data: map<Bytes, Bytes>, h: Bytes, fuel: nat, id: Bytes)
    requires Terminates(p, data, h, fuel)
    requires BlocksFrom(p, data, h, fuel).Ok?
    ensures FindOnChain(p, data, h, fuel, id) == FirstWithId(AllTxs(BlocksFrom(p, data, h, fuel).value), id)
    decreases fuel
  {
    var b := BlockAt(p, data, h).value;
    var blocks := BlocksFrom(p, data, h, fuel).value;
    if b.prevHash == [] {
      assert blocks == [b];
      assert AllTxs(blocks) == b.transactions + AllTxs([]);
      assert b.transactions + [] == b.transactions;
    } else {
      var rest := BlocksFrom(p, data, b.prevHash, fuel - 1).value;
      assert blocks == [b] + rest;
      assert blocks[1..] == rest;
      FindOnChainIsFirstOnChain(p, data, b.prevHash, fuel - 1, id);
      FirstWithIdAppend(b.transactions, AllTxs(rest), id);
    }
  }

  /** Where the source and the intent part: a transaction in the genesis block is not found once
      another block has been added. */
  lemma FindTransactionMissesOlderBlocks(p: Primitives, genesis: Block, tip: Block, coinbase: Transaction)
    requires CodecRoundTrip(p)
    requires genesis.prevHash == [] && genesis.transactions == [coinbase]
    requires tip.prevHash == genesis.hash && genesis.hash != [] && tip.hash != genesis.hash
    requires forall tx :: tx in tip.transactions ==> tx.id != coinbase.id
    ensures var data := map[genesis.hash := p.encodeBlock(genesis), tip.hash := p.encodeBlock(tip)];
            && FindAsWritten(p, data, tip.hash, coinbase.id) == Err(TransactionNotFound)
            && Terminates(p, data, tip.hash, 2)
            && FindOnChain(p, data, tip.hash, 2, coinbase.id) == Ok(coinbase)
  {
    var data := map[genesis.hash := p.encodeBlock(genesis), tip.hash := p.encodeBlock(tip)];
    assert BlockAt(p, data, tip.hash) == Ok(tip);
    assert BlockAt(p, data, genesis.hash) == Ok(genesis);
    assert FirstWithId(genesis.transactions, coinbase.id) == Ok(coinbase);
  }

  // ---- FindUTXO ----

  /** The scan state: unspent outputs per transaction ID, and the (ID, index) pairs spent by the
      transactions scanned so far. */
  datatype Scan = Scan(utxo: map<Bytes, seq<TxOutput>>, spent: set<(Bytes, int)>)

  /** The outputs of transaction id, in order, whose index is not spent. */
  function KeepUnspent(outs: seq<TxOutput>, id: Bytes, spent: set<(Bytes, int)>): (r: seq<TxOutput>)
    ensures |r| <= |outs|
    decreases |outs|
  {
    if outs == [] then []
    else
      var n := |outs| - 1;
      KeepUnspent(outs[..n], id, spent) + if (id, n) in spent then [] else [outs[n]]
  }

  /** KeepUnspent keeps an output exactly when its index is not spent. */
  lemma {:induction false} KeepUnspentMembers(outs: seq<TxOutput>, id: Bytes, spent: set<(Bytes, int)>)
    ensures forall i :: 0 <= i < |outs| && (id, i) !in spent ==> outs[i] in KeepUnspent(outs, id, spent)
    ensures forall o :: o in KeepUnspent(outs, id, spent) ==>
              exists i :: 0 <= i < |outs| && (id, i) !in spent && outs[i] == o
    decreases |outs|
  {
    if outs != [] {
      var n := |outs| - 1;
      KeepUnspentMembers(outs[..n], id, spent);
      assert forall i :: 0 <= i < n ==> outs[..n][i] == outs[i];
    }
  }

  lemma {:induction false} KeepUnspentNothingSpent(outs: seq<TxOutput>, id: Bytes, spent: set<(Bytes, int)>)
    requires forall i :: 0 <= i < |outs| ==> (id, i) !in spent
    ensures KeepUnspent(outs, id, spent) == outs
    decreases |outs|
  {
    if outs != [] {
      var n := |outs| - 1;
      KeepUnspentNothingSpent(outs[..n], id, spent);
      assert outs[..n] + [outs[n]] == outs;
    }
  }

  /** The outputs a transaction spends; a coinbase spends none. */
  function SpendsOf(tx: Transaction): set<(Bytes, int)> {
    if IsCoinbase(tx) then {} else set input | input in tx.inputs :: (input.id, input.outputIdx)
  }

  function Lookup(utxo: map<Bytes, seq<TxOutput>>, id: Bytes): seq<TxOutput> {
    if id in utxo then utxo[id] else []
  }

  /** One transaction: its outputs not yet spent are appended under its ID (no entry is made when
      there are none), then its inputs are recorded as spent. */
  function StepTx(st: Scan, tx: Transaction): Scan {
    var kept := KeepUnspent(tx.outputs, tx.id, st.spent);
    var utxo := if kept == [] then st.utxo else st.utxo[tx.id := Lookup(st.utxo, tx.id) + kept];
    Scan(utxo, st.spent + SpendsOf(tx))
  }

  function FoldTxs(st: Scan, txs: seq<Transaction>): Scan
    decreases |txs|
  {
    if txs == [] then st else StepTx(FoldTxs(st, txs[..|txs| - 1]), txs[|txs| - 1])
  }

  lemma {:induction false} FoldTxsAppend(st: Scan, a: seq<Transaction>, b: seq<Transaction>)
    ensures FoldTxs(st, a + b) == FoldTxs(FoldTxs(st, a), b)
    decreases |b|
  {
    if b == [] {
      assert a + b == a;
    } else {
      var n := |b| - 1;
      assert (a + b)[..|a + b| - 1] == a + b[..n];
      FoldTxsAppend(st, a, b[..n]);
    }
  }

  /** FindUTXO: the scan of every transaction on the chain, newest first. */
  function FindUTXOSpec(p: Primitives, data: map<Bytes, Bytes>, tip: Bytes, fuel: nat): Result<map<Bytes, seq<TxOutput>>>
    requires Terminates(p, data, tip, fuel)
  {
    var blocks :- BlocksFrom(p, data, tip, fuel);
    Ok(FoldTxs(Scan(map[], {}), AllTxs(blocks)).utxo)
  }

  /** Everything the transactions txs spend. */
  function SpentBy(txs: seq<Transaction>): set<(Bytes, int)>
    decreases |txs|
  {
    if txs == [] then {} else SpentBy(txs[..|txs| - 1]) + SpendsOf(txs[|txs| - 1])
  }

  predicate DistinctIds(txs: seq<Transaction>) {
    forall i, j :: 0 <= i < j < |txs| ==> txs[i].id != txs[j].id
  }

  /** The outputs of transaction k that no transaction before it spends. */
  function UnspentAt(txs: seq<Transaction>, k: nat): seq<TxOutput>
    requires k < |txs|
  {
    KeepUnspent(txs[k].outputs, txs[k].id, SpentBy(txs[..k]))
  }

  /** st is the scan of txs: it records what txs spend, holds for each transaction exactly its
      outputs that no transaction before it spends, has no entry for a transaction with none,
      and no entry that is not some transaction's ID; every entry is non-empty. */
  ghost predicate Characterizes(txs: seq<Transaction>, st: Scan) {
    && st.spent == SpentBy(txs)
    && (forall id :: id in st.utxo ==> st.utxo[id] != [] && exists k :: 0 <= k < |txs| && txs[k].id == id)
    && (forall k :: 0 <= k < |txs| ==> (txs[k].id in st.utxo <==> UnspentAt(txs, k) != []))
    && (forall k :: 0 <= k < |txs| && txs[k].id in st.utxo ==> st.utxo[txs[k].id] == UnspentAt(txs, k))
  }

  /** When IDs are distinct, the scan of txs is characterized by what each transaction leaves
      unspent. */
  lemma {:induction false} ScanCharacterized(txs: seq<Transaction>)
    requires DistinctIds(txs)
    ensures Characterizes(txs, FoldTxs(Scan(map[], {}), txs))
    decreases |txs|
  {
    if txs != [] {
      var n := |txs| - 1;
      assert txs[..n] + [txs[n]] == txs;
      ScanCharacterized(txs[..n]);
      assert forall k :: 0 <= k < n ==> txs[..n][k].id != txs[n].id;
      ScanStepCharacterized(txs[..n], txs[n], FoldTxs(Scan(map[], {}), txs[..n]));
    }
  }

  lemma ScanStepCharacterized(pre: seq<Transaction>, t: Transaction, st: Scan)
    requires forall k :: 0 <= k < |pre| ==> pre[k].id != t.id
    requires Characterizes(pre, st)
    ensures Characterizes(pre + [t], StepTx(st, t))
  {
    var txs := pre + [t];
    var n := |pre|;
    var st' := StepTx(st, t);
    assert txs[..n] == pre;
    assert t.id !in st.utxo;
    assert st'.spent == SpentBy(txs);
    ScanStepKeys(pre, t, st);
    ScanStepEntries(pre, t, st);
  }

  lemma ScanStepKeys(pre: seq<Transaction>, t: Transaction, st: Scan)
    requires t.id !in st.utxo
    requires forall id :: id in st.utxo ==> st.utxo[id] != [] && exists k :: 0 <= k < |pre| && pre[k].id == id
    ensures var st' := StepTx(st, t);
      forall id :: id in st'.utxo ==> st'.utxo[id] != [] && exists k :: 0 <= k < |pre + [t]| && (pre + [t])[k].id == id
  {
    var txs := pre + [t];
    var st' := StepTx(st, t);
    forall id | id in st'.utxo
      ensures st'.utxo[id] != [] && exists k :: 0 <= k < |txs| && txs[k].id == id
    {
      if id != t.id {
        var k :| 0 <= k < |pre| && pre[k].id == id;
        assert txs[k].id == id;
      } else {
        assert txs[|pre|].id == id;
      }
    }
  }

  lemma ScanStepEntries(pre: seq<Transaction>, t: Transaction, st: Scan)
    requires t.id !in st.utxo
    requires forall k :: 0 <= k < |pre| ==> pre[k].id != t.id
    requires st.spent == SpentBy(pre)
    requires forall k :: 0 <= k < |pre| ==> (pre[k].id in st.utxo <==> UnspentAt(pre, k) != [])
    requires forall k :: 0 <= k < |pre| && pre[k].id in st.utxo ==> st.utxo[pre[k].id] == UnspentAt(pre, k)
    ensures var txs := pre + [t]; var st' := StepTx(st, t);
      && (forall k :: 0 <= k < |txs| ==> (txs[k].id in st'.utxo <==> UnspentAt(txs, k) != []))
      && (forall k :: 0 <= k < |txs| && txs[k].id in st'.utxo ==> st'.utxo[txs[k].id] == UnspentAt(txs, k))
  {
    var txs := pre + [t];
    var n := |pre|;
    var st' := StepTx(st, t);
    assert txs[..n] == pre;
    assert UnspentAt(txs, n) == KeepUnspent(t.outputs, t.id, st.spent);
    forall k | 0 <= k < n
      ensures UnspentAt(txs, k) == UnspentAt(pre, k)
    {
      assert txs[..k] == pre[..k];
    }
  }

  /** The spent record does not depend on IDs being distinct. */
  lemma {:induction false} ScanSpent(txs: seq<Transaction>)
    ensures FoldTxs(Scan(map[], {}), txs).spent == SpentBy(txs)
    decreases |txs|
  {
    if txs != [] {
      ScanSpent(txs[..|txs| - 1]);
    }
  }

  /** The scan never stores an empty list of outputs. */
  lemma {:induction false} ScanEntriesNonEmpty(txs: seq<Transaction>)
    ensures forall id :: id in FoldTxs(Scan(map[], {}), txs).utxo ==> FoldTxs(Scan(map[], {}), txs).utxo[id] != []
    decreases |txs|
  {
    if txs != [] {
      ScanEntriesNonEmpty(txs[..|txs| - 1]);
    }
  }

  /** An output spent by a newer transaction is not reported for a transaction with a distinct ID:
      output i's position is among those spent before transaction k, the entry is exactly k's
      outputs at unspent positions, so it is shorter than k's outputs. */
  lemma SpentOutputsExcluded(txs: seq<Transaction>, j: nat, k: nat, i: nat)
    requires DistinctIds(txs)
    requires j < k < |txs| && i < |txs[k].outputs|
    requires (txs[k].id, i) in SpendsOf(txs[j])
    ensures (txs[k].id, i) in SpentBy(txs[..k])
    ensures var st := FoldTxs(Scan(map[], {}), txs);
            txs[k].id in st.utxo ==> st.utxo[txs[k].id] == KeepUnspent(txs[k].outputs, txs[k].id, SpentBy(txs[..k]))
    ensures var st := FoldTxs(Scan(map[], {}), txs);
            txs[k].id in st.utxo ==> |st.utxo[txs[k].id]| < |txs[k].outputs|
  {
    ScanCharacterized(txs);
    SpentByContains(txs[..k], j);
    assert txs[..k][j] == txs[j];
    var st := FoldTxs(Scan(map[], {}), txs);
    if txs[k].id in st.utxo {
      assert st.utxo[txs[k].id] == UnspentAt(txs, k);
    }
    UnspentShorter(txs[k].outputs, txs[k].id, SpentBy(txs[..k]), i);
  }

  lemma {:induction false} SpentByContains(txs: seq<Transaction>, j: nat)
    requires j < |txs|
    ensures SpendsOf(txs[j]) <= SpentBy(txs)
    decreases |txs|
  {
    if j < |txs| - 1 {
      SpentByContains(txs[..|txs| - 1], j);
    }
  }

  lemma {:induction false} UnspentShorter(outs: seq<TxOutput>, id: Bytes, spent: set<(Bytes, int)>, i: nat)
    requires i < |outs| && (id, i) in spent
    ensures |KeepUnspent(outs, id, spent)| < |outs|
    decreases |outs|
  {
    var n := |outs| - 1;
    if i < n {
      UnspentShorter(outs[..n], id, spent, i);
    }
  }

  // ---- SignTransaction and VerifyTransaction ----

  /** The previous transactions collected for inputs: the transaction each input names, found on
      the chain and keyed by its ID; the first lookup that fails is the failure. */
  function CollectPrevTxs(p: Primitives, data: map<Bytes, Bytes>, tip: Bytes, fuel: nat, inputs: seq<TxInput>)
    : (r: Result<map<Bytes, Transaction>>)
    requires Terminates(p, data, tip, fuel)
    ensures r.Ok? <==> forall k :: 0 <= k < |inputs| ==> FindOnChain(p, data, tip, fuel, inputs[k].id).Ok?
    ensures r.Ok? ==> forall k :: 0 <= k < |inputs| ==>
              inputs[k].id in r.value && r.value[inputs[k].id] == FindOnChain(p, data, tip, fuel, inputs[k].id).value
    ensures r.Ok? ==> forall id :: id in r.value ==> r.value[id].id == id
    decreases |inputs|
  {
    if inputs == [] then Ok(map[])
    else
      var n := |inputs| - 1;
      var rest := CollectPrevTxs(p, data, tip, fuel, inputs[..n]);
      var found := FindOnChain(p, data, tip, fuel, inputs[n].id);
      assert forall k :: 0 <= k < n ==> inputs[..n][k] == inputs[k];
      if rest.Err? then Err(rest.error)
      else if found.Err? then Err(found.error)
      else Ok(rest.value[found.value.id := found.value])
  }

  /** A failed lookup decides the whole collection. */
  lemma {:induction false} CollectStopsAtFailure(p: Primitives, data: map<Bytes, Bytes>, tip: Bytes, fuel: nat,
                                                 inputs: seq<TxInput>, m: nat)
    requires Terminates(p, data, tip, fuel)
    requires m <= |inputs| && CollectPrevTxs(p, data, tip, fuel, inputs[..m]).Err?
    ensures CollectPrevTxs(p, data, tip, fuel, inputs) == CollectPrevTxs(p, data, tip, fuel, inputs[..m])
    decreases |inputs| - m
  {
    if m < |inputs| {
      var n := |inputs| - 1;
      assert inputs[..n][..m] == inputs[..m];
      CollectStopsAtFailure(p, data, tip, fuel, inputs[..n], m);
    } else {
      assert inputs[..m] == inputs;
    }
  }

  /** The lookups depend only on the IDs the inputs name. */
  lemma {:induction false} CollectDependsOnIds(p: Primitives, data: map<Bytes, Bytes>, tip: Bytes, fuel: nat,
                                               inputs1: seq<TxInput>, inputs2: seq<TxInput>)
    requires Terminates(p, data, tip, fuel)
    requires |inputs1| == |inputs2| && forall k :: 0 <= k < |inputs1| ==> inputs1[k].id == inputs2[k].id
    ensures CollectPrevTxs(p, data, tip, fuel, inputs1) == CollectPrevTxs(p, data, tip, fuel, inputs2)
    decreases |inputs1|
  {
    if inputs1 != [] {
      var n := |inputs1| - 1;
      CollectDependsOnIds(p, data, tip, fuel, inputs1[..n], inputs2[..n]);
    }
  }

  /** SignTransaction as evidently intended: sign with the previous transactions found on the
      chain, laying out r and s in 32 bytes each. */
  function SignOnChain(p: Primitives, data: map<Bytes, Bytes>, tip: Bytes, fuel: nat, tx: Transaction, key: PrivateKey)
    : Result<Transaction>
    requires Terminates(p, data, tip, fuel)
  {
    var prevTxs :- CollectPrevTxs(p, data, tip, fuel, tx.inputs);
    Signed(p, Fixed32, tx, key, prevTxs)
  }

  /** VerifyTransaction as evidently intended: a coinbase is accepted without lookups; any other transaction is checked
      input by input against the previous transactions found on the chain. */
  function VerifyOnChain(p: Primitives, data: map<Bytes, Bytes>, tip: Bytes, fuel: nat, tx: Transaction)
    : Result<bool>
    requires Terminates(p, data, tip, fuel)
  {
    if IsCoinbase(tx) then Ok(true)
    else
      var prevTxs :- CollectPrevTxs(p, data, tip, fuel, tx.inputs);
      VerifyCorrected(p, tx, prevTxs)
  }

  /** A transaction the chain signs with the key whose public point its inputs carry verifies
      against the same chain. */
  lemma SignOnChainThenVerify(p: Primitives, data: map<Bytes, Bytes>, tip: Bytes, fuel: nat,
                              tx: Transaction, key: PrivateKey)
    requires Terminates(p, data, tip, fuel)
    requires SignsWith(p, key)
    requires !IsCoinbase(tx) && tx.inputs != []
    requires forall i :: 0 <= i < |tx.inputs| ==> tx.inputs[i].pubKey == Join(Fixed32, key.x, key.y)
    requires SignOnChain(p, data, tip, fuel, tx, key).Ok?
    ensures VerifyOnChain(p, data, tip, fuel, SignOnChain(p, data, tip, fuel, tx, key).value) == Ok(true)
  {
    var prevTxs := CollectPrevTxs(p, data, tip, fuel, tx.inputs).value;
    var signed := Signed(p, Fixed32, tx, key, prevTxs).value;
    assert SameSpends(tx, signed);
    CollectDependsOnIds(p, data, tip, fuel, tx.inputs, signed.inputs);
    SignedStaysSpend(tx, signed);
    SignThenVerify(p, Fixed32, tx, key, prevTxs);
  }

  /** Signing keeps a transaction that is not a coinbase from becoming one. */
  lemma SignedStaysSpend(tx: Transaction, signed: Transaction)
    requires SameSpends(tx, signed) && !IsCoinbase(tx)
    ensures !IsCoinbase(signed)
  {
    if |tx.inputs| == 1 {
      assert signed.inputs[0].id == tx.inputs[0].id && signed.inputs[0].outputIdx == tx.inputs[0].outputIdx;
    }
  }

  // ---- SignTransaction and VerifyTransaction as written ----

  /** The collection as the source runs it: every lookup is FindTransaction as written, and the
      first that fails panics, which ends the operation with that failure. */
  function CollectAsWritten(p: Primitives, data: map<Bytes, Bytes>, tip: Bytes, inputs: seq<TxInput>)
    : (r: Result<map<Bytes, Transaction>>)
    ensures r.Ok? <==> forall k :: 0 <= k < |inputs| ==> FindAsWritten(p, data, tip, inputs[k].id).Ok?
    ensures r.Ok? ==> forall k :: 0 <= k < |inputs| ==>
              inputs[k].id in r.value && r.value[inputs[k].id] == FindAsWritten(p, data, tip, inputs[k].id).value
    decreases |inputs|
  {
    if inputs == [] then Ok(map[])
    else
      var n := |inputs| - 1;
      var rest := CollectAsWritten(p, data, tip, inputs[..n]);
      var found := FindAsWritten(p, data, tip, inputs[n].id);
      assert forall k :: 0 <= k < n ==> inputs[..n][k] == inputs[k];
      if rest.Err? then Err(rest.error)
      else if found.Err? then Err(found.error)
      else Ok(rest.value[found.value.id := found.value])
  }

  /** The as-written lookups depend only on the IDs the inputs name. */
  lemma {:induction false} CollectAsWrittenDependsOnIds(p: Primitives, data: map<Bytes, Bytes>, tip: Bytes,
                                                        inputs1: seq<TxInput>, inputs2: seq<TxInput>)
    requires |inputs1| == |inputs2| && forall k :: 0 <= k < |inputs1| ==> inputs1[k].id == inputs2[k].id
    ensures CollectAsWritten(p, data, tip, inputs1) == CollectAsWritten(p, data, tip, inputs2)
    decreases |inputs1|
  {
    if inputs1 != [] {
      var n := |inputs1| - 1;
      CollectAsWrittenDependsOnIds(p, data, tip, inputs1[..n], inputs2[..n]);
    }
  }

  /** SignTransaction as written: the tip-only lookups, then Sign with r.Bytes() ++ s.Bytes(). */
  function SignOnChainAsWritten(p: Primitives, data: map<Bytes, Bytes>, tip: Bytes, tx: Transaction, key: PrivateKey)
    : Result<Transaction>
  {
    var prevTxs :- CollectAsWritten(p, data, tip, tx.inputs);
    Signed(p, Minimal, tx, key, prevTxs)
  }

  /** VerifyTransaction as written: a coinbase is valid; otherwise the tip-only lookups, then
      Verify as written. */
  function VerifyOnChainAsWritten(p: Primitives, data: map<Bytes, Bytes>, tip: Bytes, tx: Transaction)
    : Result<bool>
  {
    if IsCoinbase(tx) then Ok(true)
    else
      var prevTxs :- CollectAsWritten(p, data, tip, tx.inputs);
      VerifyAsWritten(p, tx, prevTxs)
  }

  /** As written, a spend that names a transaction outside the newest block (or, when that is the
      genesis block, other than its first transaction) can be neither signed nor verified: the
      lookup fails. */
  lemma AsWrittenNeedsTipBlock(p: Primitives, data: map<Bytes, Bytes>, tip: Bytes, tx: Transaction,
                               key: PrivateKey, k: nat)
    requires k < |tx.inputs| && !IsCoinbase(tx)
    requires FindAsWritten(p, data, tip, tx.inputs[k].id).Err?
    ensures SignOnChainAsWritten(p, data, tip, tx, key).Err?
    ensures VerifyOnChainAsWritten(p, data, tip, tx).Err?
  {
  }

  /** As written, VerifyTransaction accepts no transaction other than a coinbase: Verify reads the
      trimmed copy's empty signature and key, which ECDSA rejects. */
  lemma AsWrittenVerifiesOnlyCoinbase(p: Primitives, data: map<Bytes, Bytes>, tip: Bytes, tx: Transaction)
    requires RejectsZeroSignature(p)
    ensures VerifyOnChainAsWritten(p, data, tip, tx) == Ok(true) <==> IsCoinbase(tx)
  {
    if !IsCoinbase(tx) && CollectAsWritten(p, data, tip, tx.inputs).Ok? {
      var prevTxs := CollectAsWritten(p, data, tip, tx.inputs).value;
      if AllPresent(tx, prevTxs) && tx.inputs != [] && Resolvable(prevTxs, tx.inputs[0]) {
        assert BigEndian([]) == 0;
        assert Split([]) == (0, 0);
      }
    }
  }

  /** As written, a transaction SignTransaction has just signed fails VerifyTransaction on the same
      chain. */
  lemma AsWrittenSignedFailsVerify(p: Primitives, data: map<Bytes, Bytes>, tip: Bytes, tx: Transaction,
                                   key: PrivateKey)
    requires RejectsZeroSignature(p)
    requires !IsCoinbase(tx) && tx.inputs != []
    requires SignOnChainAsWritten(p, data, tip, tx, key).Ok?
    ensures VerifyOnChainAsWritten(p, data, tip, SignOnChainAsWritten(p, data, tip, tx, key).value) == Ok(false)
  {
    var prevTxs := CollectAsWritten(p, data, tip, tx.inputs).value;
    var signed := Signed(p, Minimal, tx, key, prevTxs).value;
    assert SameSpends(tx, signed);
    CollectAsWrittenDependsOnIds(p, data, tip, tx.inputs, signed.inputs);
    SignedStaysSpend(tx, signed);
    SignedTransactionFailsVerify(p, Minimal, tx, key, prevTxs);
  }
}
