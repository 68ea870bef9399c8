/**
 * Applying banked surplus: a positive amount no larger than what the ship has banked; then one
 * negative entry, dated in the current year, is appended to the ledger.
 */
module ApplyBankedSurplusUseCase {
  import opened Wrappers
  import opened Errors
  import opened Entities
  import opened BankRepository

  /** The guard chain and the withdrawal entry it creates. */
  function Withdrawal(entries: seq<BankEntry>, shipId: string, amount: real, entryId: string, currentYear: int)
    : (r: Result<BankEntry, DomainError>)
    ensures r.Success? <==> 0.0 < amount <= TotalBanked(entries, shipId)
    ensures r.Success? ==> r.value == BankEntry(entryId, shipId, currentYear, -amount)
    ensures amount <= 0.0 ==> r == Failure(InvalidAmount(amount))
    ensures amount > 0.0 && amount > TotalBanked(entries, shipId) ==>
      r == Failure(InsufficientBanked(shipId, amount, TotalBanked(entries, shipId)))
  {
    if amount <= 0.0 then Failure(InvalidAmount(amount))
    else
      var totalBanked := TotalBanked(entries, shipId);
      if amount > totalBanked then Failure(InsufficientBanked(shipId, amount, totalBanked))
      else Success(BankEntry(entryId, shipId, currentYear, -amount))
  }

  /**
   * A withdrawal lowers the ship's banked total by exactly the amount, never below zero (to zero
   * when the whole total is applied), and leaves every other ship's total alone.
   */
  lemma WithdrawalLowersTotal(entries: seq<BankEntry>, shipId: string, amount: real, entryId: string,
                              currentYear: int, other: string)
    requires Withdrawal(entries, shipId, amount, entryId, currentYear).Success?
    ensures var after := entries + [Withdrawal(entries, shipId, amount, entryId, currentYear).value];
      && TotalBanked(after, shipId) == TotalBanked(entries, shipId) - amount
      && TotalBanked(after, shipId) >= 0.0
      && (amount == TotalBanked(entries, shipId) ==> TotalBanked(after, shipId) == 0.0)
      && (other != shipId ==> TotalBanked(after, other) == TotalBanked(entries, other))
  {
    var e := Withdrawal(entries, shipId, amount, entryId, currentYear).value;
    TotalBankedAppend(entries, e, shipId);
    TotalBankedAppend(entries, e, other);
  }

  /** A ship that has banked nothing cannot apply anything. */
  lemma NothingToApply(entries: seq<BankEntry>, shipId: string, amount: real, entryId: string, currentYear: int)
    requires forall k :: 0 <= k < |entries| ==> entries[k].shipId != shipId
    requires amount > 0.0
    ensures Withdrawal(entries, shipId, amount, entryId, currentYear)
         == Failure(InsufficientBanked(shipId, amount, 0.0))
  {
    NothingBanked(entries, shipId);
  }

  /**
   * execute: on a failed guard the error is returned and the ledger is unchanged; otherwise the
   * withdrawal entry is appended after the existing ones.
   */
  method Execute(bankRepo: BankStore, shipId: string, amount: real, entryId: string, currentYear: int)
    returns (r: Result<(), DomainError>)
    modifies bankRepo
    ensures var w := Withdrawal(old(bankRepo.entries), shipId, amount, entryId, currentYear);
      && (w.Failure? ==> r == Failure(w.error) && bankRepo.entries == old(bankRepo.entries))
      && (w.Success? ==> r == Success(()) && bankRepo.entries == old(bankRepo.entries) + [w.value])
  {
    if amount <= 0.0 {
      return Failure(InvalidAmount(amount));
    }
    var totalBanked := TotalBanked(bankRepo.entries, shipId);
    if amount > totalBanked {
      return Failure(InsufficientBanked(shipId, amount, totalBanked));
    }
    var entry := BankEntry(entryId, shipId, currentYear, -amount);
    bankRepo.Save(entry);
    return Success(());
  }
}
