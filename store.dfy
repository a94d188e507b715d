/** The key-value store behind the ledger, and chains read from it by
    following `PrevHash` links. */
module Store {
  import opened Bytes
  import opened Blocks

  /** Every block is stored under its own hash. */
  ghost predicate KeyedByHash(blocks: map<Bytes, Block>)
  {
    forall k :: k in blocks ==> blocks[k].Hash == k
  }

  /** The store: serialised blocks keyed by their hash, and the value of the
      special key "lh", the hash of the head block. */
  class Database {
    var blocks: map<Bytes, Block>
    var head: Bytes

    /** Every block is stored under its hash, "lh" names a stored block, and
        no stored block is higher than that head block: every writer moves
        the head only to a block higher than all others. */
    ghost predicate Valid()
      reads this
    {
      && head in blocks
      && KeyedByHash(blocks)
      && forall k :: k in blocks ==> blocks[k].Height <= blocks[head].Height
    }

    /** A store holding only `genesis`, which is the head. */
    constructor (genesis: Block)
      ensures Valid()
      ensures blocks == map[genesis.Hash := genesis] && head == genesis.Hash
    {
      blocks := map[genesis.Hash := genesis];
      head := genesis.Hash;
    }
  }

  /** `chain` is what a backward walk from the block stored under `h` yields:
      each block is followed by the one stored under its `PrevHash`, and the
      walk ends at the first block whose `PrevHash` is empty. */
  predicate IsChain(blocks: map<Bytes, Block>, h: Bytes, chain: seq<Block>)
    decreases |chain|
  {
    && |chain| > 0
    && h in blocks
    && chain[0] == blocks[h]
    && if |chain[0].PrevHash| == 0 then |chain| == 1
       else IsChain(blocks, chain[0].PrevHash, chain[1..])
  }

  /** `walk` is what the first `|walk|` steps of a backward walk from `h`
      read: each block is followed by the one stored under its `PrevHash`,
      which is not empty while the walk goes on. The walk may stop before
      the block without parent, as a lookup that finds what it wants does. */
  predicate IsWalk(blocks: map<Bytes, Block>, h: Bytes, walk: seq<Block>)
    decreases |walk|
  {
    && |walk| > 0
    && h in blocks
    && walk[0] == blocks[h]
    && (|walk| > 1 ==> |walk[0].PrevHash| > 0 && IsWalk(blocks, walk[0].PrevHash, walk[1..]))
  }

  /** A chain is exactly a walk that ends at a block without parent. */
  lemma {:induction false} ChainIsWalk(blocks: map<Bytes, Block>, h: Bytes, chain: seq<Block>)
    ensures IsChain(blocks, h, chain) <==>
      IsWalk(blocks, h, chain) && |chain[|chain| - 1].PrevHash| == 0
    decreases |chain|
  {
    if |chain| > 1 {
      ChainIsWalk(blocks, chain[0].PrevHash, chain[1..]);
      assert chain[1..][|chain| - 2] == chain[|chain| - 1];
    }
  }

  /** One step of a walk that may stop early: the block under `h` is
      `chain[k]`, and when the walk goes on it does so from that block's
      non-empty `PrevHash`. */
  lemma WalkTail(blocks: map<Bytes, Block>, h: Bytes, chain: seq<Block>, k: nat)
    requires k < |chain| && IsWalk(blocks, h, chain[k..])
    ensures h in blocks && chain[k] == blocks[h]
    ensures k + 1 < |chain| ==> |chain[k].PrevHash| > 0 && IsWalk(blocks, chain[k].PrevHash, chain[k + 1..])
  {
    assert chain[k..][1..] == chain[k + 1..];
  }

  /** One step of a walk: the block under `h` is `chain[k]`; the walk stops
      there exactly when its `PrevHash` is empty, and otherwise goes on from
      that `PrevHash` with the rest of the chain. */
  lemma ChainTail(blocks: map<Bytes, Block>, h: Bytes, chain: seq<Block>, k: nat)
    requires k < |chain| && IsChain(blocks, h, chain[k..])
    ensures h in blocks && chain[k] == blocks[h]
    ensures |chain[k].PrevHash| == 0 ==> k == |chain| - 1
    ensures |chain[k].PrevHash| > 0 ==> k + 1 < |chain| && IsChain(blocks, chain[k].PrevHash, chain[k + 1..])
  {
    assert chain[k..][1..] == chain[k + 1..];
  }

  /** A walk from a given hash has only one outcome. */
  lemma {:induction false} ChainUnique(blocks: map<Bytes, Block>, h: Bytes, c: seq<Block>, d: seq<Block>)
    requires IsChain(blocks, h, c) && IsChain(blocks, h, d)
    ensures c == d
    decreases |c|
  {
    if |c[0].PrevHash| > 0 {
      ChainUnique(blocks, c[0].PrevHash, c[1..], d[1..]);
      assert c == [c[0]] + c[1..];
      assert d == [d[0]] + d[1..];
    }
  }

  /** The links of a chain, spelled out position by position. */
  lemma {:induction false} ChainLinks(blocks: map<Bytes, Block>, h: Bytes, chain: seq<Block>)
    requires KeyedByHash(blocks) && IsChain(blocks, h, chain)
    ensures chain[0].Hash == h
    ensures forall i :: 0 <= i < |chain| ==> chain[i].Hash in blocks && blocks[chain[i].Hash] == chain[i]
    ensures forall i :: 0 <= i < |chain| - 1 ==>
      |chain[i].PrevHash| > 0 && chain[i + 1].Hash == chain[i].PrevHash
    ensures |chain[|chain| - 1].PrevHash| == 0
    decreases |chain|
  {
    if |chain[0].PrevHash| > 0 {
      ChainLinks(blocks, chain[0].PrevHash, chain[1..]);
      assert forall i :: 1 <= i < |chain| ==> chain[i] == chain[1..][i - 1];
    }
  }

  /** Storing a block under a new key leaves every existing chain intact. */
  lemma {:induction false} ChainFrame(blocks: map<Bytes, Block>, h: Bytes, chain: seq<Block>, k: Bytes, b: Block)
    requires IsChain(blocks, h, chain) && k !in blocks
    ensures IsChain(blocks[k := b], h, chain)
    decreases |chain|
  {
    if |chain[0].PrevHash| > 0 {
      ChainFrame(blocks, chain[0].PrevHash, chain[1..], k, b);
    }
  }

  /** A new block whose parent is the start of a chain starts a longer one. */
  lemma ChainExtend(blocks: map<Bytes, Block>, chain: seq<Block>, b: Block)
    requires IsChain(blocks, b.PrevHash, chain) && |b.PrevHash| > 0 && b.Hash !in blocks
    ensures IsChain(blocks[b.Hash := b], b.Hash, [b] + chain)
  {
    ChainFrame(blocks, b.PrevHash, chain, b.Hash, b);
    assert ([b] + chain)[1..] == chain;
  }

  /** Heights go down by exactly one from each block to its parent. */
  predicate HeightsStep(chain: seq<Block>)
  {
    forall i :: 0 <= i < |chain| - 1 ==> chain[i].Height == chain[i + 1].Height + 1
  }
}
