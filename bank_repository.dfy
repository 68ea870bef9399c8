/**
 * The banking ledger: an append-only sequence of signed entries (deposits positive,
 * withdrawals negative). What a ship has banked is the sum of its own entries, zero when it
 * has none.
 */
module BankRepository {
  import opened Entities
  import opened Sums

  function Amount(e: BankEntry): real { e.amountGco2eq }

  /** The entries of one ship, in ledger order. */
  function ShipEntries(entries: seq<BankEntry>, shipId: string): (r: seq<BankEntry>)
    ensures forall k :: 0 <= k < |r| ==> r[k].shipId == shipId && r[k] in entries
    ensures forall k :: 0 <= k < |entries| && entries[k].shipId == shipId ==> entries[k] in r
    decreases |entries|
  {
    if entries == [] then []
    else
      var init := ShipEntries(entries[..|entries| - 1], shipId);
      var last := entries[|entries| - 1];
      assert forall k :: 0 <= k < |init| ==> init[k] in entries[..|entries| - 1];
      assert forall k :: 0 <= k < |entries| - 1 ==> entries[k] == entries[..|entries| - 1][k];
      init + (if last.shipId == shipId then [last] else [])
  }

  /** getTotalBanked: the sum of the ship's entries (the SQL sum, null, read as 0 when none). */
  function TotalBanked(entries: seq<BankEntry>, shipId: string): real {
    Sum(ShipEntries(entries, shipId), Amount)
  }

  /**
   * Appending an entry moves the appending ship's total by the entry's amount and leaves every
   * other ship's total as it was.
   */
  lemma TotalBankedAppend(entries: seq<BankEntry>, e: BankEntry, shipId: string)
    ensures TotalBanked(entries + [e], shipId)
         == TotalBanked(entries, shipId) + (if e.shipId == shipId then e.amountGco2eq else 0.0)
  {
    var all := entries + [e];
    assert all[..|all| - 1] == entries;
    if e.shipId == shipId {
      SumAppend(ShipEntries(entries, shipId), [e], Amount);
      SumSingleton(e, Amount);
    } else {
      assert ShipEntries(all, shipId) == ShipEntries(entries, shipId) + [];
      assert ShipEntries(entries + [e], shipId) == ShipEntries(entries, shipId);
    }
  }

  /** A ship with no entry in the ledger has banked nothing. */
  lemma {:induction false} NothingBanked(entries: seq<BankEntry>, shipId: string)
    requires forall k :: 0 <= k < |entries| ==> entries[k].shipId != shipId
    ensures TotalBanked(entries, shipId) == 0.0
    decreases |entries|
  {
    if entries != [] {
      var init := entries[..|entries| - 1];
      NothingBanked(init, shipId);
      assert ShipEntries(entries, shipId) == ShipEntries(init, shipId) + [];
    }
  }

  class BankStore {
    var entries: seq<BankEntry>

    constructor(initial: seq<BankEntry>)
      ensures entries == initial
    {
      entries := initial;
    }

    /** save: one insert at the end of the ledger. */
    method Save(entry: BankEntry)
      modifies this
      ensures entries == old(entries) + [entry]
    {
      entries := entries + [entry];
    }
  }
}
