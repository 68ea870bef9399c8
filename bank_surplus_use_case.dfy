/**
 * Banking a surplus: a positive amount, a stored record for (ship, year), a positive balance and
 * an amount within that balance; then one positive entry is appended to the ledger.
 */
module BankSurplusUseCase {
  import opened Wrappers
  import opened Errors
  import opened Entities
  import opened Dtos
  import opened ComplianceRepository
  import opened BankRepository

  /**
   * The guard chain and the entry it creates. The ledger is not an input: the limit is the
   * stored balance alone, whatever has been banked before.
   */
  function Deposit(records: seq<ComplianceBalance>, shipId: string, amount: real, year: int, entryId: string)
    : (r: Result<BankEntry, DomainError>)
    ensures r.Success? <==>
      && amount > 0.0
      && Lookup(records, shipId, year).Some?
      && amount <= Lookup(records, shipId, year).value.cbGco2eq
    ensures r.Success? ==> r.value == BankEntry(entryId, shipId, year, amount)
    ensures amount <= 0.0 ==> r == Failure(InvalidAmount(amount))
    ensures amount > 0.0 && Lookup(records, shipId, year).None? ==>
      r == Failure(ComplianceRecordNotFound(shipId, year))
    ensures amount > 0.0 && Lookup(records, shipId, year).Some? &&
            amount > Lookup(records, shipId, year).value.cbGco2eq ==>
      r == Failure(InsufficientSurplus(shipId))
  {
    if amount <= 0.0 then Failure(InvalidAmount(amount))
    else
      match Lookup(records, shipId, year)
      case None => Failure(ComplianceRecordNotFound(shipId, year))
      case Some(record) =>
        if record.cbGco2eq <= 0.0 then Failure(InsufficientSurplus(shipId))
        else if amount > record.cbGco2eq then Failure(InsufficientSurplus(shipId))
        else Success(BankEntry(entryId, shipId, year, amount))
  }

  /** A deposit raises the ship's banked total by the amount and no other ship's total. */
  lemma DepositRaisesTotal(records: seq<ComplianceBalance>, entries: seq<BankEntry>, shipId: string,
                           amount: real, year: int, entryId: string, other: string)
    requires Deposit(records, shipId, amount, year, entryId).Success?
    ensures var after := entries + [Deposit(records, shipId, amount, year, entryId).value];
      && TotalBanked(after, shipId) == TotalBanked(entries, shipId) + amount
      && (other != shipId ==> TotalBanked(after, other) == TotalBanked(entries, other))
  {
    var e := Deposit(records, shipId, amount, year, entryId).value;
    TotalBankedAppend(entries, e, shipId);
    TotalBankedAppend(entries, e, other);
  }

  /**
   * Each deposit is checked against the stored balance on its own: banking the whole balance
   * twice succeeds both times and banks twice the balance.
   */
  lemma DepositsCappedIndependently(records: seq<ComplianceBalance>, entries: seq<BankEntry>, shipId: string,
                                    year: int, id1: string, id2: string)
    requires Lookup(records, shipId, year).Some? && Lookup(records, shipId, year).value.cbGco2eq > 0.0
    ensures var cb := Lookup(records, shipId, year).value.cbGco2eq;
      && Deposit(records, shipId, cb, year, id1).Success?
      && Deposit(records, shipId, cb, year, id2).Success?
      && TotalBanked(entries + [Deposit(records, shipId, cb, year, id1).value]
                             + [Deposit(records, shipId, cb, year, id2).value], shipId)
         == TotalBanked(entries, shipId) + 2.0 * cb
  {
    var cb := Lookup(records, shipId, year).value.cbGco2eq;
    var e1 := Deposit(records, shipId, cb, year, id1).value;
    var e2 := Deposit(records, shipId, cb, year, id2).value;
    TotalBankedAppend(entries, e1, shipId);
    TotalBankedAppend(entries + [e1], e2, shipId);
  }

  function EntryDto(e: BankEntry): BankEntryDto {
    BankEntryDto(e.id, e.shipId, e.year, e.amountGco2eq)
  }

  /**
   * execute: on a failed guard the error is returned and the ledger is unchanged; otherwise the
   * one new entry is appended after the existing ones and returned.
   */
  method Execute(complianceRepo: ComplianceStore, bankRepo: BankStore, shipId: string, amount: real,
                 year: int, entryId: string)
    returns (r: Result<BankEntryDto, DomainError>)
    modifies bankRepo
    ensures var d := Deposit(complianceRepo.records, shipId, amount, year, entryId);
      && (d.Failure? ==> r == Failure(d.error) && bankRepo.entries == old(bankRepo.entries))
      && (d.Success? ==> r == Success(EntryDto(d.value)) && bankRepo.entries == old(bankRepo.entries) + [d.value])
  {
    if amount <= 0.0 {
      return Failure(InvalidAmount(amount));
    }
    var record := Lookup(complianceRepo.records, shipId, year);
    if record.None? {
      return Failure(ComplianceRecordNotFound(shipId, year));
    }
    if record.value.cbGco2eq <= 0.0 {
      return Failure(InsufficientSurplus(shipId));
    }
    if amount > record.value.cbGco2eq {
      return Failure(InsufficientSurplus(shipId));
    }
    var entry := BankEntry(entryId, shipId, year, amount);
    bankRepo.Save(entry);
    return Success(EntryDto(entry));
  }
}
