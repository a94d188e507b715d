/** The backward cursor over the stored chain (blockchain/chain_iter.go). */
module ChainIter {
  import opened Bytes
  import opened Blocks
  import opened Store

  class BlockChainIterator {
    var CurrentHash: Bytes
    const Database: Database

    /** A cursor at `h` over `db`; `BlockChain.Iterator` starts it at the
        ledger's head. */
    constructor (h: Bytes, db: Database)
      ensures CurrentHash == h && Database == db
    {
      CurrentHash := h;
      Database := db;
    }

    /** `Next`: the block stored under the cursor; the cursor moves to that
        block's parent hash. The store is only read. The Go code panics when
        the cursor is not a stored key, e.g. once the genesis block's empty
        `PrevHash` has been reached. */
    method Next() returns (block: Block)
      requires CurrentHash in Database.blocks
      modifies this
      ensures block == Database.blocks[old(CurrentHash)]
      ensures CurrentHash == block.PrevHash
    {
      block := Database.blocks[CurrentHash];
      CurrentHash := block.PrevHash;
    }
  }
}
