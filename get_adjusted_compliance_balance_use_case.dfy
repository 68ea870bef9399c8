/**
 * The adjusted view: every compliance record of the year, in store order, with what its ship
 * has banked added to its balance and the sum classified by sign. Nothing is written.
 */
module GetAdjustedComplianceBalanceUseCase {
  import opened Wrappers
  import opened Entities
  import opened Dtos
  import opened ComplianceRepository
  import opened BankRepository

  datatype AdjustedComplianceBalanceDto = AdjustedComplianceBalanceDto(
    shipId: string,
    year: int,
    rawCbGco2eq: real,
    bankedSurplus: real,
    cbGco2eq: real,
    status: Status)

  /** One output row: the stored balance and the ship's banked total, their sum and its sign. */
  ghost predicate AdjustedRow(out: AdjustedComplianceBalanceDto, rec: ComplianceBalance, entries: seq<BankEntry>) {
    && out.shipId == rec.shipId && out.year == rec.year
    && out.rawCbGco2eq == rec.cbGco2eq
    && out.bankedSurplus == TotalBanked(entries, rec.shipId)
    && out.cbGco2eq == out.rawCbGco2eq + out.bankedSurplus
    && (out.status == Surplus <==> out.cbGco2eq > 0.0)
    && (out.status == Deficit <==> out.cbGco2eq < 0.0)
    && (out.status == Neutral <==> out.cbGco2eq == 0.0)
  }

  /**
   * execute: one row per record findAll returns, in that order, each adjusted by its ship's
   * banked total whatever the sign of its balance. The method has no write access to either store.
   */
  method Execute(complianceRepo: ComplianceStore, bankRepo: BankStore, year: Option<int>)
    returns (results: seq<AdjustedComplianceBalanceDto>)
    ensures |results| == |InYear(complianceRepo.records, year)|
    ensures forall i :: 0 <= i < |results| ==>
      AdjustedRow(results[i], InYear(complianceRepo.records, year)[i], bankRepo.entries)
  {
    var records := InYear(complianceRepo.records, year);
    results := [];
    for i := 0 to |records|
      invariant |results| == i
      invariant forall k :: 0 <= k < i ==> AdjustedRow(results[k], records[k], bankRepo.entries)
    {
      var rec := records[i];
      var bankedSurplus := TotalBanked(bankRepo.entries, rec.shipId);
      var adjustedCb := rec.cbGco2eq + bankedSurplus;
      results := results + [AdjustedComplianceBalanceDto(
        rec.shipId, rec.year, rec.cbGco2eq, bankedSurplus, adjustedCb, StatusOf(adjustedCb))];
    }
  }
}
