/**
 * Creating a pool: look up every ship's balance for the year (failing on the first ship that
 * has none), run the allocator, then write the pool and its members once and return them.
 */
module CreatePoolUseCase {
  import opened Wrappers
  import opened Errors
  import opened Entities
  import opened Dtos
  import opened Sums
  import opened PoolAllocator
  import opened PoolInvariants
  import opened ComplianceRepository
  import opened PoolRepository

  /**
   * The lookup loop: the ships with their stored balances, in input order, or the error for the
   * first ship that has no record for the year.
   */
  function ShipCbsFor(records: seq<ComplianceBalance>, shipIds: seq<string>, year: int): (r: Result<seq<ShipCb>, DomainError>)
    ensures r.Success? <==> forall k :: 0 <= k < |shipIds| ==> Lookup(records, shipIds[k], year).Some?
    ensures r.Success? ==> |r.value| == |shipIds| && forall k :: 0 <= k < |shipIds| ==>
      r.value[k] == ShipCb(shipIds[k], Lookup(records, shipIds[k], year).value.cbGco2eq)
    ensures r.Failure? ==> exists k :: (0 <= k < |shipIds| && Lookup(records, shipIds[k], year).None?
      && r.error == ComplianceRecordNotFound(shipIds[k], year)
      && forall j :: 0 <= j < k ==> Lookup(records, shipIds[j], year).Some?)
    decreases |shipIds|
  {
    if shipIds == [] then Success([])
    else
      var init, last := shipIds[..|shipIds| - 1], shipIds[|shipIds| - 1];
      assert forall k :: 0 <= k < |init| ==> init[k] == shipIds[k];
      match ShipCbsFor(records, init, year)
      case Failure(e) => Failure(e)
      case Success(cbs) =>
        match Lookup(records, last, year)
        case None => Failure(ComplianceRecordNotFound(last, year))
        case Some(rec) => Success(cbs + [ShipCb(rec.shipId, rec.cbGco2eq)])
  }

  /** What the use case computes: the lookups first, then the allocator on what they found. */
  function Create(records: seq<ComplianceBalance>, shipIds: seq<string>, year: int, poolId: string)
    : Result<AllocationResult, DomainError>
  {
    match ShipCbsFor(records, shipIds, year)
    case Failure(e) => Failure(e)
    case Success(cbs) => Allocation(poolId, cbs)
  }

  /**
   * All lookups come before the allocation: the first ship without a record decides the error,
   * whatever the member-count and net checks would have said.
   */
  lemma MissingRecordWins(records: seq<ComplianceBalance>, shipIds: seq<string>, year: int, poolId: string, k: nat)
    requires k < |shipIds| && Lookup(records, shipIds[k], year).None?
    requires forall j :: 0 <= j < k ==> Lookup(records, shipIds[j], year).Some?
    ensures Create(records, shipIds, year, poolId) == Failure(ComplianceRecordNotFound(shipIds[k], year))
  {
    var r := ShipCbsFor(records, shipIds, year);
    var k' :| 0 <= k' < |shipIds| && Lookup(records, shipIds[k'], year).None?
      && r.error == ComplianceRecordNotFound(shipIds[k'], year)
      && (forall j :: 0 <= j < k' ==> Lookup(records, shipIds[j], year).Some?);
    assert k' == k;
  }

  function MemberDtos(ms: seq<PoolMember>): seq<PoolMemberDto> {
    seq(|ms|, i requires 0 <= i < |ms| => PoolMemberDto(ms[i].shipId, ms[i].cbBefore, ms[i].cbAfter))
  }

  /** The response: the pool's id and year, its members without the pool id, and the net. */
  function ToDto(poolId: string, year: int, allocation: AllocationResult): PoolDto {
    PoolDto(poolId, year, MemberDtos(allocation.members), allocation.netCb)
  }

  function DtoBefore(m: PoolMemberDto): real { m.cbBefore }

  function DtoAfter(m: PoolMemberDto): real { m.cbAfter }

  lemma {:induction false} MemberDtoSums(ms: seq<PoolMember>)
    ensures Sum(MemberDtos(ms), DtoBefore) == Sum(ms, CbBefore)
    ensures Sum(MemberDtos(ms), DtoAfter) == Sum(ms, CbAfter)
    decreases |ms|
  {
    if ms != [] {
      var init := ms[..|ms| - 1];
      MemberDtoSums(init);
      assert MemberDtos(ms)[..|ms| - 1] == MemberDtos(init);
    }
  }

  /** Conservation holds in the response: its members' balances before and after both add up to its net. */
  lemma DtoConservation(records: seq<ComplianceBalance>, shipIds: seq<string>, year: int, poolId: string)
    requires Create(records, shipIds, year, poolId).Success?
    ensures var dto := ToDto(poolId, year, Create(records, shipIds, year, poolId).value);
      && Sum(dto.members, DtoAfter) == dto.netCb
      && Sum(dto.members, DtoBefore) == dto.netCb
  {
    var cbs := ShipCbsFor(records, shipIds, year).value;
    Conservation(poolId, cbs);
    MemberDtoSums(Allocation(poolId, cbs).value.members);
  }

  /**
   * execute: a missing record or an allocator error is returned and nothing is written; on
   * success the pool (the id given to the allocator, the requested year, the creation time) is
   * written once with exactly the allocator's members, and the response carries those members.
   */
  method Execute(complianceRepo: ComplianceStore, poolRepo: PoolStore, shipIds: seq<string>, year: int,
                 poolId: string, createdAt: int)
    returns (r: Result<PoolDto, DomainError>)
    modifies poolRepo
    ensures var outcome := Create(complianceRepo.records, shipIds, year, poolId);
      && (outcome.Failure? ==> r == Failure(outcome.error) && poolRepo.pools == old(poolRepo.pools))
      && (outcome.Success? ==>
            && r == Success(ToDto(poolId, year, outcome.value))
            && poolRepo.pools == old(poolRepo.pools) + [(Pool(poolId, year, createdAt), outcome.value.members)])
  {
    var shipCbs: seq<ShipCb> := [];
    for i := 0 to |shipIds|
      invariant ShipCbsFor(complianceRepo.records, shipIds[..i], year) == Success(shipCbs)
    {
      assert shipIds[..i + 1][..i] == shipIds[..i];
      var record := Lookup(complianceRepo.records, shipIds[i], year);
      if record.None? {
        assert forall j :: 0 <= j < i ==> shipIds[..i][j] == shipIds[j];
        MissingRecordWins(complianceRepo.records, shipIds, year, poolId, i);
        return Failure(ComplianceRecordNotFound(shipIds[i], year));
      }
      shipCbs := shipCbs + [ShipCb(record.value.shipId, record.value.cbGco2eq)];
    }
    assert shipIds[..|shipIds|] == shipIds;

    var allocation := AllocatePool(poolId, shipCbs);
    if allocation.Failure? {
      return Failure(allocation.error);
    }
    poolRepo.CreatePool(Pool(poolId, year, createdAt), allocation.value.members);
    return Success(ToDto(poolId, year, allocation.value));
  }
}
