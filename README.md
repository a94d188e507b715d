# Ledger core of a Go proof-of-work blockchain, in Dafny

This project models the `blockchain` package of a small Go cryptocurrency node:

- the ledger (`BlockChain`): a key-value store of blocks keyed by their hash,
  with the head hash under the special key `"lh"`, mirrored in the ledger's
  `Lasthash` field;
- the backward cursor (`BlockChainIterator`), which follows `PrevHash` links
  from the head to the genesis block;
- the ledger operations: creating and reopening the store, adding a block
  (idempotent, with a height-only fork choice), mining a block, listing the
  hashes of the chain, finding a transaction, rebuilding the unspent-output
  map, and building the map of previous transactions that signing and
  verifying need;
- the proof-of-work engine: the target `1 << (256 - Difficulty)`, the digest
  input, the first-hit nonce search and its re-check;
- output locking and key checks, and the `TxOutputs` codec.

Modules, one per concern:

| file | module | models |
|---|---|---|
| `results.dfy` | `Results` | `Option`, `Result` and the error kinds that replace panics |
| `bytes.dfy` | `Bytes` | bytes, `bytes.Compare`, big-endian `int64` encoding, powers of two |
| `tx.dfy` | `Tx` | `TxInput`, `TxOutput`, `TxOutputs`, key checks, `Lock`, the outputs codec |
| `blocks.dfy` | `Blocks` | `Block`, the collaborators whose code is not part of this model (`Env`), the transactions of a chain in walk order |
| `proof.dfy` | `Proof` | `proof.go` |
| `store.dfy` | `Store` | the badger store as a class, and chains read from it |
| `chain_iter.dfy` | `ChainIter` | `chain_iter.go` |
| `utxo_scan.dfy` | `UtxoScan` | the map-building loops of `FindUTXO` and what they compute |
| `blockchain.dfy` | `Blockchain` | `blockchain.go` |

Design decisions:

- The collaborators (SHA-256, `HashTransactions`, the sealing inside
  `CreateBlock`, `CoinbaseTx`, `IsCoinbase`, `Transaction.Verify` and `Sign`,
  `wallet.Base58Decode`, `wallet.PublicKeyHash`) are function values held in
  `Blocks.Env`. Every property is proved for every choice of them.
- The store is the class `Store.Database` with a map `blocks` and the head
  hash `head` (the value of `"lh"`). Its invariant `Valid` says every block
  is stored under its own hash, the head is stored, and no stored block is
  higher than the head block. Every writer keeps this.
- Every walking method takes the blocks it reads, head first, as a ghost
  argument and computes a function of their transactions in walk order
  (`Blocks.AllTxs`).
  - `GetBlockHashes` and `FindUTXO` always walk on to the block with an empty
    `PrevHash`. They panic at a missing parent and never end on a cycle, so
    they require the whole chain (`Store.IsChain`).
  - `FindTransaction` returns at its first match. It requires only the blocks
    read up to there (`Store.IsWalk`), and the whole chain only when there is
    no match. `CollectPrevTxs`, `SignTransaction`, `VerifyTransaction` and
    `MineBlock` require the same of every lookup they make, up to the first
    refused transaction.
- `log.Panic` on a missing block or transaction becomes an error result
  (`NotFound`, `TxNotFound`, `InvalidTransaction`), except in the cursor's
  `Next`, where the stored key is a precondition.
- Transaction IDs are map keys as raw bytes; the Go code keys its maps by
  the hex encoding of the ID, which is injective, so nothing changes.
- `Serialize`/`DeserializeOutputs` use gob in Go. The model uses a concrete
  self-delimiting encoding (count, then for each output its value and key
  length as 8-byte big-endian integers and the key bytes) and proves the
  round trip instead of assuming it.

Choices where the code could be read more than one way:

- `GetBlock` panics on a missing key (blockchain.go:158-161). As for every
  panic above, the model returns `NotFound`.
- The comment above `Difficulty` (proof.go:19-23) speaks of leading zero
  bytes, but the target counts bits. The model proves the bit version
  (`Proof.TargetMeansLeadingZeros`).
- `Lock` slices the decoded address without a length check (tx.go:31-35),
  and a slice out of range panics. The model requires a decoded length of
  at least 5.

## Model

| member | source | states |
|---|---|---|
| Bytes.CompareZeroIffEqual | blockchain/tx.go:28 | `bytes.Compare(a, b) == 0` holds exactly when the two byte strings are equal |
| Tx.UsesKey | blockchain/tx.go:26-29 | true iff the public-key hash of the input's key equals the given hash byte for byte |
| Tx.IsLockedWithKey | blockchain/tx.go:37-39 | true iff the output's `PubKeyHash` equals the given hash byte for byte |
| Tx.Lock | blockchain/tx.go:31-35 | the new `PubKeyHash` is the decoded address without its first byte and last 4 bytes (length decoded − 5); `Value` is unchanged |
| Tx.NewTXOutput | blockchain/tx.go:41-46 | the output carries `value` and is locked with exactly the key `Lock` extracts from the address |
| Tx.Serialize | blockchain/tx.go:48-58 | decoding the encoding of any list of outputs gives the list back |
| Tx.DeserializeOutputs | blockchain/tx.go:60-70 | a successful decode yields as many outputs as the count prefix says, each of encodable size |
| Tx.DecodeOutputListRoundTrip | blockchain/tx.go:48-70 | decoding an encoded list followed by any bytes returns the list and exactly those remaining bytes |
| Proof.LshIsMul | blockchain/proof.go:33-34 | `x << n` is `x * 2^n` |
| Proof.NewProof | blockchain/proof.go:32-39 | the target is `2^(256 - Difficulty)`, and a 32-byte hash is below it iff its first `Difficulty` bits are zero |
| Proof.ToHex | blockchain/proof.go:85-93 | the encoding is exactly 8 bytes |
| Proof.ToHexReadBack | blockchain/proof.go:85-93 | the 8 bytes are big-endian two's complement: read unsigned they are `num mod 2^64`, read signed they are `num` |
| Bytes.GetPutInt64 | blockchain/proof.go:85-93 | reading back the 8-byte big-endian encoding of an `int64` as a signed number gives the value |
| Bytes.PutGetInt64 | blockchain/proof.go:85-93 | every 8-byte string is the encoding of the `int64` it reads back as |
| Bytes.PutInt64Injective | blockchain/proof.go:85-93 | distinct `int64` values have distinct encodings |
| Proof.InitData | blockchain/proof.go:41-52 | the digest input is as long as the parent hash plus the transaction digest plus 16 |
| Proof.InitDataReadBack | blockchain/proof.go:41-52 | the input starts with the parent hash and the transaction digest, then the nonce and the difficulty as 8 bytes each, with no separators |
| Proof.InitDataInjective | blockchain/proof.go:41-52 | different nonces give different digest inputs |
| Proof.Run | blockchain/proof.go:54-72 | the returned nonce is the smallest from 0 whose hash is below the target, with that hash; when none below `MaxInt64` is, it is `MaxInt64` with the hash of the last nonce tried |
| Proof.Validate | blockchain/proof.go:74-83 | true iff the hash of the digest input for the stored nonce is below the target; with the standard target, iff it has `Difficulty` leading zero bits |
| Proof.RunNonceValidates | blockchain/proof.go:54-83 | storing a nonce that hits the target in the block makes `Validate` true |
| Proof.BitsValueOfBytes | blockchain/proof.go:63 | reading a hash as a big-endian number is reading its bits most significant first |
| Proof.BitsBelowIffLeadingZeros | blockchain/proof.go:19-23 | a bit string is below `2^(n - d)` iff its first `d` bits are zero |
| Proof.TargetMeansLeadingZeros | blockchain/proof.go:19-23 | an `n`-byte hash is below `2^(8n - d)` iff its first `d` bits are zero |
| ChainIter.BlockChainIterator.constructor | blockchain/chain_iter.go:15 | the cursor starts at the given hash over the given store |
| ChainIter.BlockChainIterator.Next | blockchain/chain_iter.go:19-39 | returns the block stored under the cursor and moves the cursor to its `PrevHash`; the store is only read; a missing key is excluded by the precondition |
| Store.Database.constructor | blockchain/blockchain.go:50-63 | the new store holds only the genesis block, under its hash, and `"lh"` names it |
| Store.ChainTail | blockchain/chain_iter.go:24-37 | one cursor step over a chain: the block read is the next of the chain, and the walk ends there iff its `PrevHash` is empty |
| Store.WalkTail | blockchain/chain_iter.go:24-37 | one cursor step over a walk that may stop early: the block read is the next of the walk, and the walk goes on only from a non-empty `PrevHash` |
| Store.ChainIsWalk | blockchain/blockchain.go:325-337 | a chain is exactly a walk whose last block has an empty `PrevHash` |
| Blockchain.WalkGoesOn | blockchain/blockchain.go:334-336 | a lookup with no match so far, in a store that holds the whole chain or a walk that holds a match, goes on past a block with a parent |
| Store.ChainUnique | blockchain/blockchain.go:181-188 | a walk from a given hash has only one outcome |
| Store.ChainLinks | blockchain/blockchain.go:181-188 | a chain starts at the block stored under the start hash, each block is stored under its hash, each next block is the parent of the one before, and only the last has an empty `PrevHash` |
| Store.ChainFrame | blockchain/blockchain.go:115-116 | storing a block under a new key leaves every existing chain intact |
| Store.ChainExtend | blockchain/blockchain.go:260-270 | storing a new block whose parent starts a chain makes a chain one longer starting at the new block |
| Blockchain.BlockChain.constructor | blockchain/blockchain.go:67 | the ledger holds the given head hash and store |
| Blockchain.BlockChain.Iterator | blockchain/chain_iter.go:14-17 | a fresh cursor at `Lasthash` over the ledger's store |
| Blockchain.BlockChain.AddBlock | blockchain/blockchain.go:110-154 | a known hash changes neither the store, `"lh"`, nor `Lasthash`; a new block is stored under its hash, and `"lh"` and `Lasthash` move to it iff it is strictly higher than the head block; the store invariant is kept |
| Blockchain.BlockChain.GetBlock | blockchain/blockchain.go:156-175 | the block stored under the hash, or `NotFound` iff there is none |
| Blockchain.BlockChain.GetBlockHashes | blockchain/blockchain.go:177-190 | the hashes of the chain from the head, head first: the first is `Lasthash`, each next one is the `PrevHash` of the block stored under the one before, and the last block has no parent |
| Blockchain.BlockChain.GetBestHeight | blockchain/blockchain.go:192-220 | the height of the head block, which no stored block exceeds |
| Blockchain.BlockChain.FindTransaction | blockchain/blockchain.go:322-340 | the first transaction with the ID in walk order, or `TxNotFound` when the walk reaches genesis without one; the blocks below the match need not be stored |
| Blockchain.SearchBlock | blockchain/blockchain.go:328-332 | the index of the first transaction of a block whose ID compares equal, with no match before it, or the block length when none matches |
| Blockchain.FindTxSpec | blockchain/blockchain.go:322-340 | the lookup fails iff no transaction has the ID, and otherwise yields a transaction with that ID that no earlier one shares |
| Blockchain.FindTxAt | blockchain/blockchain.go:328-331 | a transaction with the ID preceded by none with it is the one found |
| Blockchain.FoundInWalk | blockchain/blockchain.go:325-332 | a match inside block `k` after none in the blocks before it is the first match of the whole walk |
| Blockchain.NotInBlock | blockchain/blockchain.go:325-337 | no match in the blocks before `k` and none in block `k` is no match up to and including block `k` |
| Blockchain.BlockChain.CollectPrevTxs | blockchain/blockchain.go:364-370 | the previous-transaction map built input by input, or the error of the first input whose transaction is missing |
| Blockchain.PrevTxsFound | blockchain/blockchain.go:364-370 | the map can be built iff the transaction of every input is in the walk; otherwise the error is `TxNotFound` |
| Blockchain.PrevTxsMap | blockchain/blockchain.go:364-370 | the map's keys are exactly the inputs' IDs, each mapped to the first transaction of the walk with that ID |
| Blockchain.PrevTxsPrefixErr | blockchain/blockchain.go:365-368 | once an input's lookup fails, the whole map fails the same way |
| Blockchain.BlockChain.SignTransaction | blockchain/blockchain.go:342-354 | the transaction signed over the previous-transaction map, or `TxNotFound` iff an input's transaction is missing |
| Blockchain.BlockChain.VerifyTransaction | blockchain/blockchain.go:356-373 | `true` for a coinbase; otherwise `TxNotFound` iff an input's transaction is missing, else the signature check over the previous-transaction map |
| Blockchain.VerdictSpec | blockchain/blockchain.go:356-373 | a transaction is accepted iff it is a coinbase or all its inputs' transactions are in the walk and its signature check passes; a failure to answer is `TxNotFound` and happens iff some input's transaction is missing |
| Blockchain.RejectionSpec | blockchain/blockchain.go:226-230 | a block is refused iff one of its transactions is not accepted, and the reason is `TxNotFound` or `InvalidTransaction` |
| Blockchain.BlockChain.MineBlock | blockchain/blockchain.go:222-280 | all transactions are verified first and any refusal leaves the store and `Lasthash` unchanged, with the first refusal's reason; otherwise the new block is `CreateBlock(txs, old head, old head height + 1)`, stored under its hash and made the head; on a new hash it extends the chain and the one-step height relation |
| Blockchain.MinedChainExtends | blockchain/blockchain.go:260-270 | a mined block on top of a chain whose heights step by one starts a longer such chain |
| Blockchain.BlockChain.FindUTXO | blockchain/blockchain.go:282-320 | the result equals the scan of the walk's transactions, and for every ID it holds exactly that ID's outputs that no earlier non-coinbase input spends, in order; IDs without such outputs are absent |
| UtxoScan.ScanBlock | blockchain/blockchain.go:291-313 | scanning a block's transactions continues the scan of the walk so far |
| UtxoScan.ScanTransaction | blockchain/blockchain.go:291-313 | one pass of the loop body is one transaction step of the scan: its outputs against the spent list so far, then its inputs unless it is a coinbase |
| UtxoScan.ScanTxsSnoc | blockchain/blockchain.go:291-313 | the scan of a walk one transaction longer is one transaction step on the scan of the walk |
| UtxoScan.Contains | blockchain/blockchain.go:296-302 | true iff the index is in the spent list |
| UtxoScan.CollectOutputs | blockchain/blockchain.go:295-306 | the output loop appends, in order, each output whose index is not in the spent list |
| UtxoScan.RecordInputs | blockchain/blockchain.go:307-312 | the input loop records each input's output index under its transaction ID |
| UtxoScan.AddInputsSpec | blockchain/blockchain.go:308-311 | after the input loop an index is listed for an ID iff it was before or some input references it |
| UtxoScan.ScanSpentSpec | blockchain/blockchain.go:307-312 | after scanning a walk, an index is listed as spent for an ID iff a non-coinbase input of the walk references it |
| UtxoScan.AddOutputsSpec | blockchain/blockchain.go:295-306 | the output loop appends to the ID's entry exactly the outputs not spent earlier in the walk, creates the entry only if one is kept, and leaves other IDs alone |
| UtxoScan.ScanUtxoSpec | blockchain/blockchain.go:282-320 | after scanning a walk, each ID's entry is exactly its outputs not spent earlier in the walk, and it has an entry iff there is one |
| UtxoScan.UnspentOfUniqueId | blockchain/blockchain.go:282-320 | when only one transaction has the ID, its entry is that transaction's outputs that no transaction before it spends |
| UtxoScan.NoneWithId | blockchain/blockchain.go:282-320 | an ID that no transaction of the walk has gets no outputs |
| UtxoScan.KeptBounds | blockchain/blockchain.go:295-306 | with nothing spent every output is kept, with everything spent none is, and never more outputs than the transaction has |
| Blockchain.InitBlockChain | blockchain/blockchain.go:36-69 | refused iff a store exists; otherwise a fresh store holding only the genesis block, whose coinbase pays the address, as head and `Lasthash` |
| Blockchain.ContinueBlockChain | blockchain/blockchain.go:71-108 | refused iff there is no store; otherwise the ledger over it with `Lasthash` read from `"lh"` |

## Left out

- The file system and badger: `DBexists`, `openDB`, `retry`, the path format
  and node ID are not modelled; `InitBlockChain` takes whether a store exists
  as a boolean and `ContinueBlockChain` takes the store, or `null` when there
  is none. Badger's transactions are the atomic bodies of the methods.
- `runtime.Goexit` in `InitBlockChain` and `ContinueBlockChain` becomes a
  `null` result.
- Blocks are stored as values: `Block.Serialize` and `Deserialize` (block.go)
  are not part of this model and are taken to be inverse.
- The `"lh"` key is kept apart from the block keys, so a block whose hash
  is the two bytes `lh` is not modelled as colliding with the head entry.
- block.go, which defines `Block`, `CreateBlock` and `Genesis`, is not part
  of this model. `Blocks.Block` has only the fields the ledger reads. Two
  things about block.go are assumed, and `MineBlock` and `InitBlockChain`
  rest on them:
  - `Blocks.CreateBlock` copies the transactions, `PrevHash` and `Height`
    from its arguments. Only `Hash` and `Nonce` come from mining, which is
    the `seal` function of `Blocks.Env`.
  - `Blocks.Genesis` is `CreateBlock` of the coinbase alone, with an empty
    `PrevHash` and height 0.
- `HashTransactions`, `CoinbaseTx`, `IsCoinbase`, `Transaction.Verify` and
  `Transaction.Sign` (transaction.go) are not part of this model. They are
  function values of `Blocks.Env`.
- SHA-256, ECDSA, Base58 and the public-key hash are the function values of
  `Blocks.Env`. So the property that changing a byte of a mined block makes
  `Validate` false is not provable and is not stated.
- Tx.Serialize: the gob wire format is not modelled; a concrete encoding with
  a proved round trip takes its place, and sizes above `MaxInt64` cannot be
  encoded.
- Tx.Lock: modelled on values. It returns the locked copy of the output
  instead of updating it through the pointer; the only caller,
  `NewTXOutput`, locks an output it has just created.
- Blockchain.BlockChain.SignTransaction: returns the signed transaction
  instead of signing the caller's transaction in place.
- Walks that panic or never end are excluded by the preconditions. These are
  a walk that must reach a parentless block but meets a missing parent or a
  cycle first.
- `Height` is an unbounded integer; Go's `int` overflow at the head height
  is not modelled.
- `fmt.Println`, `fmt.Printf` and `log` output are left out.
- `UTXOSet` (utxo.go), the command line and the network are not part of
  this model.
- Concurrency: the model is sequential, one writer at a time.
