/** The pool store: each pool is written once, together with its members, in one transaction. */
module PoolRepository {
  import opened Entities

  class PoolStore {
    var pools: seq<(Pool, seq<PoolMember>)>

    constructor(initial: seq<(Pool, seq<PoolMember>)>)
      ensures pools == initial
    {
      pools := initial;
    }

    /** createPool: the pool row and its member rows together, atomically. */
    method CreatePool(pool: Pool, members: seq<PoolMember>)
      modifies this
      ensures pools == old(pools) + [(pool, members)]
    {
      pools := pools + [(pool, members)];
    }
  }
}
