# golang-blockchain, modelled in Dafny

A model of the ledger in pred695/golang-blockchain: a small proof-of-work blockchain that keeps its blocks in a Badger key-value store, pays with UTXO transactions, and signs them with ECDSA keys held in wallets, whose addresses are Base58. The model covers these parts:

- the transaction format: outputs locked to a public-key hash, and coinbase transactions;
- the transaction identity (`HashTransaction`, `SetID`) and the trimmed copy;
- signing and verifying inputs against the transactions they spend;
- proof of work over the block header data;
- block creation and the genesis block;
- the Merkle tree;
- the chain stored in the database: the tip key `"lh"`, appending a block, and walking the chain from the tip;
- the transaction search, the full UTXO scan, and signing and verifying against the chain;
- the UTXO index kept under the key prefix `"utxo-"`: deleting by prefix in batches, reindexing, updating it with a block, counting entries, and finding unspent and spendable outputs;
- building a payment transaction;
- wallet addresses (checksum, public-key hash, validation);
- the in-memory chain of `main.go`.

The cryptographic and encoding primitives are parameters of every operation, gathered in one `Crypto.Primitives` value: SHA-256, RIPEMD-160, Base58, gob, ECDSA sign (which yields the numbers r and s) and ECDSA verify. The byte layouts the program builds around ECDSA are modelled, not assumed. `big.Int.Bytes()` is `ByteStrings.MinBytes`. Two numbers written side by side and read back by cutting the bytes in half are `Crypto.Join` and `Crypto.Split`. The properties that need the primitives assume only these standard facts:

- Base58 decodes what it encoded (`Crypto.Base58RoundTrip`);
- gob decodes what it encoded (`Crypto.CodecRoundTrip`);
- ECDSA over P-256 is correct for the key: the point's coordinates and every r and s fit in 32 bytes, and a signature made with the key verifies under its point (`Crypto.SignsWith`);
- ECDSA rejects r = s = 0 (`Transactions.RejectsZeroSignature`).

The Go code panics (`log.Panic`, `Handle(err)`, or an index out of range) in many places. Each panic in the code around the primitives and the store is an error value of `Outcomes.Result`: missing keys and transactions, undecodable entries, short slices and indexes out of range. Failures inside the primitives and the store themselves are not modelled; "## Left out" lists them.

Stateful code takes the source's form:

- the database is a class, `Store.Db`, whose methods change its contents;
- `Chain.Blockchain`, `Chain.BlockchainIterator` and `Utxo.UTXOSet` are classes over it;
- the blocks of `main.go` are objects in a growing sequence (`Toy`).

Every loop of the stateful code is a method with its invariants. Two loops of pure code are recursive functions instead: the loops of TrimmedCopy (`Transactions.TrimInputs`) and the loop of HashTransactions (`Proof.JoinIds`). Each such method is proved equal to a specification function, for example `ChainSpec.FindUTXOSpec`, `UtxoSpec.ApplyBlock` or `Transactions.Signed`, and the lemmas state what those functions guarantee.

## Model

| member | source | states |
|---|---|---|
| Wallet.Checksum | Wallet/wallet.go:92-97 | the checksum is ChecksumLength (4) bytes long |
| Wallet.CreateAddress | Wallet/wallet.go:38-54 | the address decodes from Base58 to the version byte 0x00, then the RIPEMD-160 of the SHA-256 of the public key, then the checksum of those two |
| Wallet.ValidateAddress | Wallet/wallet.go:56-63 | an address that is not Base58 fails; a decoding shorter than version plus checksum fails with an index error (the Go slice panics); otherwise the result is whether the last 4 bytes are the checksum of the rest |
| Wallet.CreatedAddressValidates | Wallet/wallet.go:38-63 | every address a wallet creates passes ValidateAddress |
| Tx.Lock | Blockchain/tx.go:54-58 | locking keeps the value; the stored hash is the decoded address without its version byte and 4-byte checksum; undecodable or too-short addresses fail |
| Tx.NewTxOutput | Blockchain/tx.go:25-31 | the new output carries the given value and, as its public-key hash, the decoded address between the version byte and the 4-byte checksum; it fails exactly when locking to the address fails |
| Tx.NewTxOutputToWallet | Blockchain/tx.go:25-31 | an output sent to a wallet's address is locked with that wallet's public-key hash |
| Tx.OwnerUnlocks | Blockchain/tx.go:49-62 | an input carrying the wallet's public key uses exactly the key hashes the wallet's output is locked with (UsesKey agrees with IsLockedWithKey) |
| Transactions.HashIgnoresId | Blockchain/transaction.go:61-69 | the transaction hash does not depend on the id field, which is cleared before hashing |
| Transactions.SetID | Blockchain/transaction.go:26-36 | inputs and outputs are kept; a transaction with no id gets the hash of its own contents as its id |
| Transactions.DefaultMemo | Blockchain/transaction.go:40-44 | the default coinbase data is "Coins to " followed by the receiving address |
| Transactions.CoinbaseTx | Blockchain/transaction.go:40-49 | a coinbase has one input with no previous id and index -1, the memo as its key field and no signature, and one output of the subsidy 100 to the receiver; its id is its own hash; it fails exactly when the receiver address cannot be locked to |
| Transactions.TrimInputs | Blockchain/transaction.go:75-89 | the trimmed inputs keep each spent id and output index and clear every signature and public key |
| Transactions.TrimmedCopyIgnoresUnlocking | Blockchain/transaction.go:75-89 | transactions spending the same outputs have the same trimmed copy, whatever their signatures and keys |
| Transactions.TrimmedCopyIdempotent | Blockchain/transaction.go:75-89 | trimming twice is trimming once |
| Transactions.SigningMessageIgnoresUnlocking | Blockchain/transaction.go:176-182 | the message signed for an input depends only on what the transaction spends, not on existing signatures or keys |
| ByteStrings.MinBytes | Blockchain/transaction.go:185 | big.Int.Bytes(): the bytes read back big-endian as the number, are empty exactly for zero, and have no leading zero byte |
| Crypto.Join | Blockchain/transaction.go:150-152 | laying out r and s (or x and y): the padded layout is 64 bytes and splits back into the two numbers; the source's minimal layout splits back into them exactly when ReadsBack holds, i.e. the second number has as many bytes as the first or one more |
| Crypto.MinimalSplit | Blockchain/transaction.go:150-152 | cutting r.Bytes() ++ s.Bytes() in half gives back r and s if and only if r's bytes are exactly the first half |
| Crypto.MinimalLayoutMisreads | Blockchain/transaction.go:150-152 | r = 256, s = 1 are laid out as [1, 0, 1] and read back as r = 1, s = 1 |
| Transactions.Signed | Blockchain/transaction.go:165-189 | a coinbase is left as it is; a missing previous transaction or an output index out of range fails; otherwise only the signatures change, and input i gets the r and s of the ECDSA signature over the trimmed copy that carries the spent output's key hash at i, laid out side by side |
| Transactions.Sign | Blockchain/transaction.go:165-189 | the loop computes Signed |
| Transactions.CheckPresent | Blockchain/transaction.go:170-174 | the presence check passes exactly when every spent transaction is in the map |
| Transactions.SignInputs | Blockchain/transaction.go:175-187 | the signing part computes Signed once presence is checked |
| Transactions.SignLoop | Blockchain/transaction.go:175-187 | the loop succeeds exactly when every spent output exists, and then input j carries the signature of its own signing message and is otherwise unchanged |
| Transactions.SignStep | Blockchain/transaction.go:176-186 | one pass fails exactly when the spent output is missing; otherwise it signs input i's message and changes only input i's signature |
| Transactions.PrepareMessage | Blockchain/transaction.go:178-182 | one loop step leaves the trimmed inputs unchanged and puts input i's signing message in the copy's id |
| Transactions.VerifyAsWritten | Blockchain/transaction.go:128-163 | as written: a coinbase verifies; a missing previous transaction fails; no inputs gives false; otherwise only the first input is checked, against the signature and key of the trimmed copy, which are empty |
| Transactions.Verify | Blockchain/transaction.go:128-163 | the loop computes VerifyAsWritten |
| Transactions.VerifyAsWrittenIgnoresSignatures | Blockchain/transaction.go:142-160 | the as-written verdict is the same for any signatures and keys on the inputs |
| Transactions.SignedTransactionFailsVerify | Blockchain/transaction.go:142-189 | when an empty signature never verifies, every signed non-coinbase transaction with inputs is rejected by Verify as written |
| Transactions.VerifyCorrected | Blockchain/transaction.go:128-163 | corrected: a coinbase verifies; missing or unresolvable previous outputs fail; otherwise true exactly when there is an input and every input's own signature verifies under its own key |
| Transactions.VerifyAllInputs | Blockchain/transaction.go:128-163 | the corrected loop computes VerifyCorrected |
| Transactions.CheckEveryInput | Blockchain/transaction.go:142-161 | the loop is true exactly when every input verifies |
| Transactions.SignThenVerify | Blockchain/transaction.go:128-189 | when ECDSA is correct for the key, a transaction whose inputs carry the key's point, laid out as the signatures are, passes the corrected Verify once signed: always with the padded layout; with the source's minimal layout when the point and every input's r and s read back |
| Proof.JoinIdsDependsOnIdsOnly | Blockchain/block.go:35-43 | the joined transaction ids depend only on the ids |
| Proof.HashTransactionsDependsOnIdsOnly | Blockchain/block.go:35-43 | a block's transaction hash depends only on its transactions' ids |
| Proof.NewProof | Blockchain/proof.go:31-36 | the target is 2^(256-Difficulty) = 2^238 |
| Proof.ToHex | Blockchain/proof.go:38-45 | 8 bytes, big-endian two's complement of the int64 |
| Proof.ToHexRoundTrip | Blockchain/proof.go:38-45 | the 8 bytes read back as the number |
| Proof.ToHexInjective | Blockchain/proof.go:38-45 | different numbers give different bytes |
| Proof.InitDataLayout | Blockchain/proof.go:47-58 | the header is the 32-byte transaction hash, then the previous hash, then the nonce, then the difficulty, each 8 bytes |
| Proof.InitDataInjective | Blockchain/proof.go:47-58 | different nonces give different header data |
| Proof.Run | Blockchain/proof.go:60-77 | the nonce is in [0, MaxNonce]; no smaller nonce meets the target; below MaxNonce the nonce meets it and the hash is its hash; at MaxNonce the hash is the one for MaxNonce-1 |
| Proof.TryNonce | Blockchain/proof.go:64-72 | one attempt returns the header hash and whether it is below the target |
| Proof.Validate | Blockchain/proof.go:80-87 | true exactly when the hash of the header with the block's own nonce, read big-endian, is below the target; it ignores the stored hash |
| Blocks.AttemptIgnoresHashAndNonce | Blockchain/proof.go:47-58 | the proof-of-work hash of a block does not depend on its stored hash or nonce |
| Blocks.CreateBlock | Blockchain/block.go:19-28 | the block holds the given transactions and previous hash and a 32-byte hash; no smaller nonce meets the target; below MaxNonce the block validates and its hash is the hash of its header; at MaxNonce the hash is that of the last attempt, nonce MaxNonce - 1 |
| Blocks.Genesis | Blockchain/block.go:31-33 | the genesis block holds only the coinbase, has an empty previous hash, and validates if mining found a nonce |
| Merkle.NewMerkleNode | Blockchain/merkle.go:14-30 | a leaf hashes its data; an inner node hashes its children's data joined; one child missing fails (nil dereference) |
| Merkle.PadOdd | Blockchain/merkle.go:35-37 | an odd list gets its last item repeated; an even list is kept |
| Merkle.Leaves | Blockchain/merkle.go:39-42 | one leaf per item, holding that item's data unhashed |
| Merkle.ParentLevel | Blockchain/merkle.go:47-50 | the next level pairs neighbours, half as many nodes |
| Merkle.NewMerkleTree | Blockchain/merkle.go:32-58 | as written: computes TreeAsWritten, which succeeds exactly for 1 to 4 items |
| Merkle.MakeLeaves | Blockchain/merkle.go:39-42 | the loop builds Leaves |
| Merkle.Rounds | Blockchain/merkle.go:44-53 | the outer loop applies the given number of levels |
| Merkle.PairUp | Blockchain/merkle.go:47-50 | the inner loop builds the parent level, and indexes past the end on an odd level |
| Merkle.TreeAsWrittenRoots | Blockchain/merkle.go:32-58 | the roots built for 1, 2, 3 and 4 items, node by node |
| Merkle.TreeAsWrittenSucceeds | Blockchain/merkle.go:44-55 | the as-written tree exists exactly for 1 to 4 items |
| Merkle.FiveItemsHaveNoTree | Blockchain/merkle.go:44-55 | five items make the as-written code index past the end |
| Merkle.TreeCorrected | Blockchain/merkle.go:32-58 | corrected (pads each level, stops at one node): succeeds exactly for a non-empty list |
| Merkle.TreeCorrectedAgrees | Blockchain/merkle.go:32-58 | wherever the as-written tree exists, the corrected tree is the same |
| Store.LexLessIrreflexive | Blockchain/utxo.go:53-68 | Badger's key order is irreflexive |
| Store.LexLessTransitive | Blockchain/utxo.go:53-68 | the key order is transitive |
| Store.LexLessTotal | Blockchain/utxo.go:53-68 | any two different keys are ordered |
| Store.SortedKeys | Blockchain/utxo.go:53-68 | exactly the given keys, each once, strictly increasing |
| Store.Db.Get | Blockchain/blockchain.go:114-116 | a stored key gives its value; a missing key gives NotFound |
| Store.Db.Set | Blockchain/blockchain.go:124-126 | only that key changes |
| Store.Db.Delete | Blockchain/utxo.go:19-40 | only that key goes |
| Store.Db.Commit | Blockchain/utxo.go:92-133 | the contents become the committed view |
| Store.Db.Scan | Blockchain/utxo.go:53-68 | the iterator visits exactly the keys with the prefix, in key order |
| ChainSpec.BlockAt | Blockchain/blockchain.go:140-152 | reading a block: a missing key gives NotFound, bytes that do not decode a SerializationError |
| ChainSpec.StoredBlockReadsBack | Blockchain/blockchain.go:110-132 | a block stored under its hash reads back unchanged |
| ChainSpec.BlocksFrom | Blockchain/blockchain.go:140-152 | the walk from the tip starts at the tip, ends at the block with an empty previous hash, and each block's previous hash is the key of the next |
| ChainSpec.WalkUnchanged | Blockchain/utxo.go:74-90 | changing keys the walk never reads leaves the chain as walked unchanged |
| ChainSpec.TerminatesWithout | Blockchain/utxo.go:76-78 | deleting keys from the store keeps the walk from the tip finite |
| UtxoSpec.ScanWithout | Blockchain/utxo.go:76-78 | the scan Reindex makes after deleting the index: if the walk reads no index key it is FindUTXO over the chain as it was; a tip under a deleted key is NotFound |
| ChainSpec.GenesisIsWholeChain | Blockchain/blockchain.go:47-79 | after storing the genesis block and the tip, the chain is the genesis block alone |
| ChainSpec.AddedBlockExtendsWalk | Blockchain/blockchain.go:110-132 | after AddBlock, the chain walked from the new tip is the new block followed by the old chain |
| ChainSpec.Prepend | Blockchain/blockchain.go:155-190 | the visited blocks come before the rest of the walk |
| ChainSpec.AllTxs | Blockchain/blockchain.go:155-190 | holds exactly the transactions of the blocks walked |
| ChainSpec.FirstWithId | Blockchain/blockchain.go:199-202 | the first transaction with the id, or TransactionNotFound when none has it |
| ChainSpec.FindAsWritten | Blockchain/blockchain.go:193-209 | as written: a failure to read the tip is passed on; from a tip that is not the genesis block, the result is the first transaction of the tip block with the id, or TransactionNotFound; from the genesis block, its first transaction if that has the id, else TransactionNotFound |
| ChainSpec.FindOnChain | Blockchain/blockchain.go:193-209 | corrected: what is found has the id |
| ChainSpec.FindOnChainIsFirstOnChain | Blockchain/blockchain.go:193-209 | the corrected search returns the first transaction with the id on the whole chain, newest block first |
| ChainSpec.FindTransactionMissesOlderBlocks | Blockchain/blockchain.go:196-208 | the genesis coinbase is not found by the as-written search from a two-block chain, and is found by the corrected one |
| ChainSpec.KeepUnspent | Blockchain/blockchain.go:166-176 | the outputs kept are never more than the transaction has |
| ChainSpec.KeepUnspentMembers | Blockchain/blockchain.go:166-176 | an output is kept exactly when its (id, index) is not among the spent ones |
| ChainSpec.FoldTxsAppend | Blockchain/blockchain.go:155-190 | scanning two stretches of transactions is scanning them one after the other |
| ChainSpec.ScanCharacterized | Blockchain/blockchain.go:155-190 | with distinct ids, the UTXO map has an entry for a transaction exactly when some output of it is not spent by a transaction seen before it, and that entry is those outputs |
| ChainSpec.ScanSpent | Blockchain/blockchain.go:178-183 | the spent set is exactly the outputs spent by the non-coinbase transactions scanned |
| ChainSpec.ScanEntriesNonEmpty | Blockchain/blockchain.go:174-176 | every entry of the UTXO map is non-empty |
| ChainSpec.SpentOutputsExcluded | Blockchain/blockchain.go:155-190 | with distinct ids, an output spent by a newer transaction has its position recorded as spent; its transaction's entry holds exactly the outputs at unspent positions, so it is shorter than the transaction's outputs |
| ChainSpec.CollectPrevTxs | Blockchain/blockchain.go:211-218 | succeeds exactly when every input's transaction is found on the chain, and then maps each input's id to that transaction |
| ChainSpec.CollectDependsOnIds | Blockchain/blockchain.go:211-218 | the collected transactions depend only on the inputs' ids |
| ChainSpec.SignOnChainThenVerify | Blockchain/blockchain.go:211-237 | corrected: when ECDSA is correct for the key, a transaction whose inputs carry the key's padded point, once signed against the chain, verifies against the same chain |
| ChainSpec.CollectAsWritten | Blockchain/blockchain.go:211-218 | as written: succeeds exactly when FindTransaction as written finds every input's transaction, and then maps each input's id to what it found |
| ChainSpec.CollectAsWrittenDependsOnIds | Blockchain/blockchain.go:211-218 | the as-written collection depends only on the inputs' ids |
| ChainSpec.AsWrittenNeedsTipBlock | Blockchain/blockchain.go:193-237 | as written: a spend whose transaction the tip-only search misses can be neither signed nor verified |
| ChainSpec.AsWrittenVerifiesOnlyCoinbase | Blockchain/blockchain.go:223-237 | as written, when ECDSA rejects r = s = 0: VerifyTransaction accepts a transaction if and only if it is a coinbase |
| ChainSpec.AsWrittenSignedFailsVerify | Blockchain/blockchain.go:211-237 | as written: a transaction SignTransaction has just signed is rejected by VerifyTransaction on the same chain |
| Chain.BlockchainIterator.Next | Blockchain/blockchain.go:140-152 | reads the current block, then moves to its previous hash; a failed read does not move |
| Chain.Blockchain.AddBlock | Blockchain/blockchain.go:110-132 | without a tip it fails and changes nothing; otherwise it mines a block on the stored tip, stores it under its hash, moves the tip to it and updates LastHash |
| Chain.Blockchain.Iterator | Blockchain/blockchain.go:135-138 | a new iterator at the tip over the same database |
| Chain.Blockchain.FindUTXO | Blockchain/blockchain.go:155-190 | the walk computes FindUTXOSpec, the scan whose result ScanCharacterized describes |
| Chain.Blockchain.FindTransaction | Blockchain/blockchain.go:193-209 | as written: computes FindAsWritten, the first match in the tip block, or only the genesis block's first transaction |
| Chain.Blockchain.FindTransactionOnChain | Blockchain/blockchain.go:193-209 | corrected: computes FindOnChain, the first match on the whole chain |
| Chain.Blockchain.SignTransaction | Blockchain/blockchain.go:211-221 | corrected: collects the spent transactions from the whole chain and signs with r and s padded to 32 bytes; fails when one is missing |
| Chain.Blockchain.VerifyTransaction | Blockchain/blockchain.go:223-237 | corrected: a coinbase verifies; otherwise collects the spent transactions from the whole chain and verifies every input |
| Chain.Blockchain.CollectPrevTxsFor | Blockchain/blockchain.go:214-218 | corrected: the loop computes CollectPrevTxs, the whole-chain lookups |
| Chain.ScanBlock | Blockchain/blockchain.go:162-184 | the loop over a block's transactions computes FoldTxs |
| Chain.ScanTransaction | Blockchain/blockchain.go:163-183 | one transaction's step of the scan |
| Chain.InitBlockChain | Blockchain/blockchain.go:47-79 | an existing database fails with AlreadyExists; otherwise the database is created, and holds the mined genesis block with the coinbase to the address and the tip pointing at it |
| Chain.ContinueBlockchain | Blockchain/blockchain.go:81-108 | with no database, or no tip, it fails; otherwise LastHash is the stored tip |
| UtxoSpec.UtxoKey | Blockchain/utxo.go:9-12 | the key is "utxo-" followed by the transaction id |
| UtxoSpec.UtxoKeyInjective | Blockchain/utxo.go:9-12 | different ids have different keys |
| UtxoSpec.PrefixedIsUtxoKey | Blockchain/utxo.go:153-181 | every key with the prefix is the key of the id after it |
| UtxoSpec.DecodeAt | Blockchain/tx.go:41-47 | a stored entry decodes to its outputs or fails with a SerializationError |
| UtxoSpec.RemoveAtIsCut | Blockchain/utxo.go:107-111 | the output at a valid index is removed and the rest keep their order; an invalid index removes nothing |
| UtxoSpec.SpendInput | Blockchain/utxo.go:104-118 | a missing entry fails; only the spent transaction's entry can change |
| UtxoSpec.SpendInputEntry | Blockchain/utxo.go:104-118 | the entry loses the spent output and is deleted when nothing is left |
| UtxoSpec.SpendInputs | Blockchain/utxo.go:103-119 | spending never adds keys and never touches keys outside the prefix |
| UtxoSpec.ApplyTxWritesOutputs | Blockchain/utxo.go:122-128 | after a transaction is applied, its entry holds all its outputs |
| UtxoSpec.CoinbaseTouchesOnlyItsEntry | Blockchain/utxo.go:96-128 | a coinbase removes nothing and writes only its own entry |
| UtxoSpec.MissingEntryFails | Blockchain/utxo.go:105-106 | an input whose entry is missing makes the update fail |
| UtxoSpec.ApplyBlockKeepsOtherKeys | Blockchain/utxo.go:92-133 | an update changes no key outside the UTXO prefix |
| UtxoSpec.SpendInputsKeepNonEmpty | Blockchain/utxo.go:112-118 | spending keeps every stored entry non-empty |
| UtxoSpec.ApplyBlockKeepsNonEmpty | Blockchain/utxo.go:92-133 | when every transaction has outputs, an update keeps every entry non-empty |
| UtxoSpec.LockedWithMembers | Blockchain/utxo.go:168-172 | the outputs kept are exactly those locked with the key hash |
| UtxoSpec.UnspentOfExact | Blockchain/utxo.go:153-181 | the outputs found are all locked with the key hash, and every such output stored is found |
| UtxoSpec.SelectAllTallied | Blockchain/utxo.go:183-213 | the amount gathered is the sum of the outputs picked, and every chosen index is one of the key's outputs |
| UtxoSpec.SelectAllBelowTakesAll | Blockchain/utxo.go:183-213 | when the funds fall short of the amount, every output of the key was picked, as FindUnspentTransactions returns them |
| UtxoSpec.SelectFromPositions | Blockchain/utxo.go:196-204 | the positions recorded for a transaction index outputs of that key, and other transactions' positions stay |
| UtxoSpec.ReindexedReadsBack | Blockchain/utxo.go:74-90 | after a reindex each unspent entry reads back as its outputs, and every prefixed key belongs to an unspent entry |
| UtxoSpec.InputsForMembers | Blockchain/transaction.go:105-113 | the inputs built are those of the chosen positions, with no signature and the wallet's public key |
| UtxoSpec.InputsSpendChosen | Blockchain/transaction.go:105-113 | in any visiting order, the inputs spend exactly the chosen positions of the chosen entries |
| UtxoSpec.SpendsExactlyChosen | Blockchain/transaction.go:105-113 | a transaction whose inputs match the built inputs one by one spends every chosen position and nothing else |
| UtxoSpec.NewTransactionSpendsChosen | Blockchain/transaction.go:91-126 | in any visiting order, the new transaction spends exactly the chosen outputs, pays the amount first, and its outputs total the funds gathered |
| UtxoSpec.NewTransactionShape | Blockchain/transaction.go:91-126 | the outputs total the funds gathered; the first pays the amount; change is a second output only when there is some; the id is the hash of the unsigned transaction |
| Utxo.DeleteKeys | Blockchain/utxo.go:19-40 | the batch's keys are gone and nothing else changes |
| Utxo.DeleteInBatches | Blockchain/utxo.go:42-68 | every listed key is deleted, in batches of at most 1000 that together are the list in order |
| Utxo.UTXOSet.DeleteByPrefix | Blockchain/utxo.go:18-72 | exactly the keys with the prefix are deleted, in key order, in batches of at most 1000 |
| Utxo.UTXOSet.Reindex | Blockchain/utxo.go:74-90 | the old index is deleted first and the chain is then scanned from the store without it (ScanWithout); if that scan fails, a walk that reads a deleted key included, the error is returned and the index stays deleted; otherwise the index holds exactly the scanned unspent outputs and other keys are kept |
| Utxo.UTXOSet.Update | Blockchain/utxo.go:92-133 | the block is applied to the index as one transaction: all of it or, on a failure, none of it |
| Utxo.UTXOSet.CountTransactions | Blockchain/utxo.go:135-151 | the number of keys with the UTXO prefix |
| Utxo.UTXOSet.FindUnspentTransactions | Blockchain/utxo.go:153-181 | every output locked with the key hash, in key order of the entries |
| Utxo.UTXOSet.FindSpendableOutputs | Blockchain/utxo.go:183-213 | the funds gathered and the positions chosen, stopping once the amount is reached |
| Utxo.UTXOSet.NewTransaction | Blockchain/transaction.go:91-126 | too little money fails with InsufficientFunds; otherwise the inputs spend the chosen outputs, the outputs are the payment and the change, the id is the hash, and the result is signed against the chain; a transaction returned spends exactly the chosen outputs, pays the amount first, and its outputs total the funds gathered, which cover the amount |
| Utxo.SpendIn | Blockchain/utxo.go:104-118 | one input's removal computes SpendInput |
| Utxo.Without | Blockchain/utxo.go:107-111 | the loop that copies all but one output computes RemoveAt |
| Utxo.ApplyTransaction | Blockchain/utxo.go:96-129 | one transaction's update computes ApplyTx |
| Utxo.UnspentIn | Blockchain/utxo.go:160-178 | the loop over the entries computes UnspentOf |
| Utxo.SpendableIn | Blockchain/utxo.go:190-210 | the loop over the entries computes SelectAll |
| Utxo.WriteEntries | Blockchain/utxo.go:79-89 | writes the scanned outputs so that the store is Reindexed |
| Utxo.AppendLocked | Blockchain/utxo.go:168-172 | appends the outputs locked with the key hash |
| Utxo.TakeFrom | Blockchain/utxo.go:196-204 | the inner loop over one entry computes SelectFrom |
| Utxo.BuildInputs | Blockchain/transaction.go:105-113 | the inputs are exactly the chosen positions, unsigned and carrying the public key; every chosen entry is visited once, and the inputs follow that order |
| Utxo.BuildOutputs | Blockchain/transaction.go:115-119 | the payment to the receiver, then the change to the sender when there is some |
| Toy.Block.DeriveHash | main.go:22-27 | the hash becomes the SHA-256 of the data followed by the previous hash; data and previous hash stay |
| Toy.CreateBlock | main.go:30-34 | a new block with the data and previous hash, its hash derived |
| Toy.Genesis | main.go:43-45 | a new block with the data "Genesis", an empty previous hash and a derived hash |
| Toy.Blockchain.AddBlock | main.go:36-40 | one new block holding the data is appended, linked to the last block's hash; the data grows by exactly it; linked, derived and valid chains stay so |
| Toy.InitBlockChain | main.go:47-49 | a chain of the genesis block alone, which is valid |

## Left out

- Command-line parsing, printing, and the `main` loop that prints the blocks of `main.go`; `Run` prints its hashes, which is not modelled.
- `Wallet/wallets.go` (the wallet file) is not part of this model. A wallet is a parameter of NewTransaction.
- Key generation (`NewKeyPair`, `MakeWallet`) and the randomness of ECDSA signatures are left out. Signing is a function of the key and the message.
- SHA-256, RIPEMD-160, Base58, gob and ECDSA are parameters, not implementations. Only the properties listed above are assumed of them.
- Transaction ids are hex-encoded to strings before they are used as map keys. The model keys the maps by the id bytes, since hex encoding is injective.
- Amounts are unbounded integers. Go's `int` overflow is not modelled.
- Transactions are values. Aliasing of `*Transaction` between blocks and maps, and signing in place, become returned values.
- Walking the chain needs a `fuel` bound, a step count that the walk must finish within (`ChainSpec.Terminates`). A database whose previous-hash links form a cycle, where the Go loop would not end, is excluded by that precondition.
- The database directory, `DBexists` and Badger's MANIFEST file are reduced to the `present` flag of `Store.Db`. Badger's transactions, logging and closing are left out.
- Go's map iteration order is unspecified. Reindex and NewTransaction visit entries in an order the model chooses, and their contracts hold for every order.
- Opening the store, store writes and deletes, gob encoding and ECDSA signing are taken never to fail, and the `Handle(err)` after each is not modelled: `badger.Open` (`Blockchain/blockchain.go:59-60`, `93-94`), `txn.Set` and `txn.Delete` (`Blockchain/blockchain.go:68-69`, `124-125`; `Blockchain/utxo.go:33-34`, `84-85`, `113-117`), gob `Encode` (`Blockchain/transaction.go:31-33`, `55-56`) and `ecdsa.Sign` (`Blockchain/transaction.go:183-184`). `Store.Db.Open`, `Store.Db.Set`, `Store.Db.Delete`, `Crypto.Primitives.encodeTx` and `Crypto.Primitives.ecdsaSign` are total.
- Badger's limit on the size of one transaction is not modelled, so Reindex's single `Update` (`Blockchain/utxo.go:79-89`) always commits.
- Panics are error results. A nil map entry read as a zero value is modelled as the error the code would hit next.
- `Utxo.UTXOSet.DeleteByPrefix` gathers keys from one scan, then deletes them. Concurrent writers are out of scope.
- The Merkle tree is modelled on its own. Blocks in this source hash their transaction ids with `HashTransactions` and do not use it.
- `Update` copies the new outputs into a fresh `TxOutputs` before encoding them. The model encodes the outputs directly, which is the same value.
- Chain.Blockchain.SignTransaction and Chain.Blockchain.VerifyTransaction are the corrected operations. They look up spent transactions with the whole-chain search (`ChainSpec.FindOnChain`), sign with r and s padded to 32 bytes, and verify with `Transactions.VerifyCorrected`. The program as written is `ChainSpec.SignOnChainAsWritten` and `ChainSpec.VerifyOnChainAsWritten`, whose verdicts the `AsWritten` lemmas state.
- Chain.Blockchain.CollectPrevTxsFor and ChainSpec.CollectPrevTxs: these compute the corrected whole-chain collection. The source's loop fails (panics) for any spent transaction outside the newest block; that is `ChainSpec.CollectAsWritten` with `ChainSpec.AsWrittenNeedsTipBlock`.
- ChainSpec.SignOnChainThenVerify: this holds for the corrected search, the padded layout and the corrected Verify. As written, no signed spend verifies (`ChainSpec.AsWrittenSignedFailsVerify`).
- Transactions.SignThenVerify: with the source's minimal layout this needs the public point and every signature to read back (`Crypto.ReadsBack`). `Crypto.Join` shows that a pair which does not read back is misread, and "## Findings" records it.
- Utxo.UTXOSet.NewTransaction: this signs through Chain.Blockchain.SignTransaction, that is, with the corrected search and the padded layout. As written, building a payment fails (panics) whenever a chosen output's transaction is outside the newest block (`ChainSpec.AsWrittenNeedsTipBlock`).
- ChainSpec.ScanCharacterized and ChainSpec.SpentOutputsExcluded: these assume distinct transaction ids, and the program can break that. `Cli/cli.go:104` mints `CoinbaseTx(from, "")` on every send, so two sends by one sender to one receiver give two identical coinbases with one id. For such duplicates FindUTXO appends both transactions' outputs under the one id (`Blockchain/blockchain.go:174-176`), while Update overwrites the entry (`Blockchain/utxo.go:126-127`); the duplicate case is not characterized.
- Utxo.UTXOSet.NewTransaction is a method of the UTXO set. The source declares it on `*Blockchain` but calls `FindSpendableOutputs`, which only the UTXO set has, and the command line calls it through a UTXO set.
- The `To_String` printer and the `Serialize`/`Deserialize` wrappers are left out. The round-trip of the encoding is the `CodecRoundTrip` assumption.

## Findings

| source | as written | input that shows it | evidently intended | confidence | as-written member | corrected member |
|---|---|---|---|---|---|---|
| Blockchain/transaction.go:142-160 | Verify ranges over the trimmed copy, whose signatures and keys are empty, and returns after the first input | any signed transaction that spends an output, with ECDSA that rejects an empty signature | check every input's own signature under its own key | not executed | Transactions.SignedTransactionFailsVerify (on Transactions.VerifyAsWritten) | Transactions.SignThenVerify (on Transactions.VerifyCorrected) |
| Blockchain/merkle.go:44-55 | runs len(data)/2 rounds of pairing and never pads a level after the first | five items: padded to six, the second round indexes past the end of a three-node level | halve the level, padding odd levels, until one node is left | not executed | Merkle.FiveItemsHaveNoTree (on Merkle.TreeAsWritten) | Merkle.TreeCorrectedAgrees (on Merkle.TreeCorrected) |
| Blockchain/transaction.go:150-152 | the signature is r.Bytes() followed by s.Bytes() (line 185) and the public key X.Bytes() followed by Y.Bytes() (Wallet/wallet.go:72); Bytes() drops leading zero bytes, and Verify cuts each in half | r = 256, s = 1: the bytes [1, 0, 1] are read back as r = 1, s = 1, so the signature fails to verify | pad each number to 32 bytes so that each half is one number | not executed | Crypto.MinimalLayoutMisreads (on Crypto.Join with the Minimal layout) | Transactions.SignThenVerify (with the Fixed32 layout, used by Chain.Blockchain.SignTransaction) |
| Blockchain/blockchain.go:196-208 | the loop body returns "Transaction does not exist" after the first block | a two-block chain where the spent coinbase is in the genesis block | search block after block until the genesis block | not executed | ChainSpec.FindTransactionMissesOlderBlocks (on ChainSpec.FindAsWritten) | ChainSpec.FindOnChainIsFirstOnChain (on ChainSpec.FindOnChain) |
