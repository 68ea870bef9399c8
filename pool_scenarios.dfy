/** Worked pools: the outcomes the allocator gives on small inputs. */
module PoolScenarios {
  import opened Wrappers
  import opened Errors
  import opened Entities
  import opened Sums
  import opened StableSort
  import opened PoolAllocator

  /** One ship is too few, and the member check comes before the net check. */
  lemma SingleShipRejected()
    ensures Allocation("pool-001", [ShipCb("S1", -100.0)]) == Failure(InsufficientMembers(1))
    ensures Allocation("pool-001", []) == Failure(InsufficientMembers(0))
  {
  }

  /** A pool whose deficit exceeds its surplus is rejected with its net balance. */
  lemma NetNegativeRejected()
    ensures Allocation("pool-001", [ShipCb("S1", 100.0), ShipCb("S2", -200.0)])
         == Failure(PoolNetNegative(-100.0))
  {
    var ships := [ShipCb("S1", 100.0), ShipCb("S2", -200.0)];
    assert ships[..1] == [ShipCb("S1", 100.0)];
    SumSingleton(ShipCb("S1", 100.0), Cb);
    assert NetCb(ships) == -100.0;
  }

  /** A surplus of 500 covers a deficit of 300 and keeps 200. */
  lemma SurplusCoversDeficit()
    ensures Allocation("pool-001", [ShipCb("S1", 500.0), ShipCb("S2", -300.0)])
         == Success(AllocationResult(
              [PoolMember("pool-001", "S1", 500.0, 200.0), PoolMember("pool-001", "S2", -300.0, 0.0)],
              500.0, -300.0, 200.0))
  {
    var ships := [ShipCb("S1", 500.0), ShipCb("S2", -300.0)];
    assert ships[1..] == [ShipCb("S2", -300.0)];
    assert Surpluses(ships) == [ShipCb("S1", 500.0)];
    assert Deficits(ships) == [ShipCb("S2", -300.0)];
    assert Zeros(ships) == [];
    assert ships[..1] == [ShipCb("S1", 500.0)];
    SumSingleton(ShipCb("S1", 500.0), Cb);
    SumSingleton(ShipCb("S2", -300.0), Cb);
    SumSingleton(ShipCb("S2", -300.0), Needed);
    assert NetCb(ships) == 200.0;
    var c, d := SortedSurpluses(ships), SortedDeficits(ships);
    assert c == [ShipCb("S1", 500.0)] && d == [ShipCb("S2", -300.0)];
    assert TotalNeed(ships) == 300.0;
    assert c[..0] == [];
    assert Given(c, 300.0, 0) == 300.0;
    assert SurplusMembers("pool-001", c, 300.0) == [PoolMember("pool-001", "S1", 500.0, 200.0)];
    assert DeficitMembers("pool-001", d) == [PoolMember("pool-001", "S2", -300.0, 0.0)];
    assert ZeroMembers("pool-001", []) == [];
    assert Sum(Surpluses(ships), Cb) == 500.0 && Sum(Deficits(ships), Cb) == -300.0;
    assert Allocated("pool-001", ships).members
        == [PoolMember("pool-001", "S1", 500.0, 200.0)] + [PoolMember("pool-001", "S2", -300.0, 0.0)] + [];
    assert Allocated("pool-001", ships).members
        == [PoolMember("pool-001", "S1", 500.0, 200.0), PoolMember("pool-001", "S2", -300.0, 0.0)];
    assert Allocated("pool-001", ships).totalSurplusBefore == 500.0;
    assert Allocated("pool-001", ships).netCb == 200.0;
  }

  /** The groups of the three-ship pool below: the larger deficit sorts first. */
  lemma ThreeShipGroups(s1: ShipCb, s2: ShipCb, s3: ShipCb)
    requires s1 == ShipCb("S1", 1000.0) && s2 == ShipCb("S2", -300.0) && s3 == ShipCb("S3", -400.0)
    ensures Surpluses([s1, s2, s3]) == [s1] && SortedSurpluses([s1, s2, s3]) == [s1]
    ensures Deficits([s1, s2, s3]) == [s2, s3] && SortedDeficits([s1, s2, s3]) == [s3, s2]
    ensures Zeros([s1, s2, s3]) == []
  {
    var ships := [s1, s2, s3];
    assert ships[1..] == [s2, s3] && [s2, s3][1..] == [s3] && [s3][1..] == [];
    PartitionStep([s3]);
    assert Surpluses([s3]) == [] && Deficits([s3]) == [s3] && Zeros([s3]) == [];
    PartitionStep([s2, s3]);
    assert Surpluses([s2, s3]) == [] && Deficits([s2, s3]) == [s2] + [s3] && Zeros([s2, s3]) == [];
    PartitionStep(ships);
    assert Surpluses(ships) == [s1] + [] && Deficits(ships) == [] + [s2, s3] && Zeros(ships) == [];
    assert [s1][1..] == [] && SortDesc([s1], Cb) == [s1];
    assert SortDesc([s3], Needed) == [s3];
    assert Insert(s2, [s3], Needed) == [s3, s2];
  }

  /** The sums of the three-ship pool below. */
  lemma ThreeShipSums(s1: ShipCb, s2: ShipCb, s3: ShipCb)
    requires s1 == ShipCb("S1", 1000.0) && s2 == ShipCb("S2", -300.0) && s3 == ShipCb("S3", -400.0)
    ensures NetCb([s1, s2, s3]) == 300.0
    ensures Sum([s3, s2], Needed) == 700.0
    ensures Sum([s1], Cb) == 1000.0 && Sum([s2, s3], Cb) == -700.0
  {
    SumSingleton(s1, Cb);
    SumSingleton(s2, Cb);
    SumSingleton(s3, Cb);
    SumAppend([s1], [s2], Cb);
    SumAppend([s1, s2], [s3], Cb);
    assert [s1] + [s2] == [s1, s2] && [s1, s2] + [s3] == [s1, s2, s3];
    SumSingleton(s3, Needed);
    SumSingleton(s2, Needed);
    SumAppend([s3], [s2], Needed);
    assert [s3] + [s2] == [s3, s2];
    SumAppend([s2], [s3], Cb);
    assert [s2] + [s3] == [s2, s3];
  }

  /**
   * One surplus of 1000 fills deficits of 300 and 400 and keeps 300; the larger deficit is
   * listed first.
   */
  lemma SurplusFillsTwoDeficits()
    ensures Allocation("pool-001", [ShipCb("S1", 1000.0), ShipCb("S2", -300.0), ShipCb("S3", -400.0)])
         == Success(AllocationResult(
              [PoolMember("pool-001", "S1", 1000.0, 300.0), PoolMember("pool-001", "S3", -400.0, 0.0),
               PoolMember("pool-001", "S2", -300.0, 0.0)],
              1000.0, -700.0, 300.0))
  {
    var s1, s2, s3 := ShipCb("S1", 1000.0), ShipCb("S2", -300.0), ShipCb("S3", -400.0);
    var ships := [s1, s2, s3];
    ThreeShipGroups(s1, s2, s3);
    ThreeShipSums(s1, s2, s3);
    var c, d := SortedSurpluses(ships), SortedDeficits(ships);
    assert TotalNeed(ships) == 700.0;
    assert c[..0] == [];
    assert Given(c, 700.0, 0) == 700.0;
    assert SurplusMembers("pool-001", c, 700.0) == [PoolMember("pool-001", "S1", 1000.0, 300.0)];
    assert DeficitMembers("pool-001", d)
        == [PoolMember("pool-001", "S3", -400.0, 0.0), PoolMember("pool-001", "S2", -300.0, 0.0)];
    assert ZeroMembers("pool-001", []) == [];
    assert Allocated("pool-001", ships).members
        == [PoolMember("pool-001", "S1", 1000.0, 300.0), PoolMember("pool-001", "S3", -400.0, 0.0),
            PoolMember("pool-001", "S2", -300.0, 0.0)];
  }
}
