/**
 * The compliance store: one balance per (shipId, year), looked up by that key, listed by
 * year, and written by upsert, where a record whose key is already stored replaces that
 * record's balance and any other record is added at the end.
 */
module ComplianceRepository {
  import opened Wrappers
  import opened Entities
  import opened Seqs

  /** The unique (ship_id, year) constraint of the table. */
  ghost predicate KeysDistinct(rs: seq<ComplianceBalance>) {
    forall i, j :: 0 <= i < j < |rs| ==> rs[i].shipId != rs[j].shipId || rs[i].year != rs[j].year
  }

  predicate HasKey(rec: ComplianceBalance, shipId: string, year: int) {
    rec.shipId == shipId && rec.year == year
  }

  /** findByShipAndYear: the first record with the key, if any. */
  function Lookup(rs: seq<ComplianceBalance>, shipId: string, year: int): (r: Option<ComplianceBalance>)
    ensures r.None? <==> forall i :: 0 <= i < |rs| ==> !HasKey(rs[i], shipId, year)
    ensures r.Some? ==> r.value in rs && HasKey(r.value, shipId, year)
    decreases |rs|
  {
    if rs == [] then None
    else if HasKey(rs[0], shipId, year) then Some(rs[0])
    else
      var r := Lookup(rs[1..], shipId, year);
      assert forall i :: 1 <= i < |rs| ==> rs[i] == rs[1..][i - 1];
      r
  }

  /** With distinct keys, every stored record is found under its own key. */
  lemma {:induction false} LookupFindsEach(rs: seq<ComplianceBalance>, i: nat)
    requires KeysDistinct(rs)
    requires i < |rs|
    ensures Lookup(rs, rs[i].shipId, rs[i].year) == Some(rs[i])
    decreases i
  {
    if i > 0 {
      assert KeysDistinct(rs[1..]) by {
        forall a, b | 0 <= a < b < |rs[1..]|
          ensures rs[1..][a].shipId != rs[1..][b].shipId || rs[1..][a].year != rs[1..][b].year
        {
          assert rs[1..][a] == rs[a + 1] && rs[1..][b] == rs[b + 1];
        }
      }
      assert !HasKey(rs[0], rs[i].shipId, rs[i].year);
      LookupFindsEach(rs[1..], i - 1);
    }
  }

  /** findAll(year?): the records of that year, or all records when no year is given. */
  function InYear(rs: seq<ComplianceBalance>, year: Option<int>): (r: seq<ComplianceBalance>)
    ensures forall k :: 0 <= k < |r| ==> r[k] in rs && (year.Some? ==> r[k].year == year.value)
    ensures forall k :: 0 <= k < |rs| && (year.Some? ==> rs[k].year == year.value) ==> rs[k] in r
    ensures multiset(r) <= multiset(rs)
  {
    Filter(rs, (x: ComplianceBalance) => year.None? || x.year == year.value)
  }

  /** The insert ... on conflict (ship_id, year) merge cb_gco2eq of one record. */
  function Upsert(rs: seq<ComplianceBalance>, rec: ComplianceBalance): seq<ComplianceBalance>
    decreases |rs|
  {
    if rs == [] then [rec]
    else if HasKey(rs[0], rec.shipId, rec.year) then [rs[0].(cbGco2eq := rec.cbGco2eq)] + rs[1..]
    else [rs[0]] + Upsert(rs[1..], rec)
  }

  /** saveAll: the records upserted one after another, in order. */
  function UpsertAll(rs: seq<ComplianceBalance>, batch: seq<ComplianceBalance>): seq<ComplianceBalance>
    decreases |batch|
  {
    if batch == [] then rs else Upsert(UpsertAll(rs, batch[..|batch| - 1]), batch[|batch| - 1])
  }

  /** The last record of a batch with the key: the one whose balance a bulk save leaves. */
  function LastWithKey(batch: seq<ComplianceBalance>, shipId: string, year: int): (r: Option<ComplianceBalance>)
    ensures r.None? <==> forall k :: 0 <= k < |batch| ==> !HasKey(batch[k], shipId, year)
    ensures r.Some? ==> exists k :: 0 <= k < |batch| && batch[k] == r.value && HasKey(batch[k], shipId, year)
                                   && (forall j :: k < j < |batch| ==> !HasKey(batch[j], shipId, year))
    decreases |batch|
  {
    if batch == [] then None
    else if HasKey(batch[|batch| - 1], shipId, year) then Some(batch[|batch| - 1])
    else
      var r := LastWithKey(batch[..|batch| - 1], shipId, year);
      assert forall k :: 0 <= k < |batch| - 1 ==> batch[k] == batch[..|batch| - 1][k];
      r
  }

  /**
   * After an upsert its key holds the new record (the stored record's balance replaced, which
   * leaves exactly the new record, since the key is the rest of it) and every other key is
   * untouched.
   */
  lemma {:induction false} UpsertLookup(rs: seq<ComplianceBalance>, rec: ComplianceBalance, shipId: string, year: int)
    ensures Lookup(Upsert(rs, rec), shipId, year)
         == if HasKey(rec, shipId, year) then Some(rec) else Lookup(rs, shipId, year)
    decreases |rs|
  {
    if rs != [] && !HasKey(rs[0], rec.shipId, rec.year) {
      UpsertLookup(rs[1..], rec, shipId, year);
      assert Upsert(rs, rec)[1..] == Upsert(rs[1..], rec);
    }
  }

  /** An upsert keeps the keys distinct, and keeps every stored record where it was. */
  lemma {:induction false} UpsertKeepsDistinct(rs: seq<ComplianceBalance>, rec: ComplianceBalance)
    requires KeysDistinct(rs)
    ensures KeysDistinct(Upsert(rs, rec))
    ensures |rs| <= |Upsert(rs, rec)| <= |rs| + 1
    ensures forall i :: 0 <= i < |rs| ==>
      Upsert(rs, rec)[i] == (if HasKey(rs[i], rec.shipId, rec.year) then rec else rs[i])
    ensures forall i :: |rs| <= i < |Upsert(rs, rec)| ==> Upsert(rs, rec)[i] == rec
    decreases |rs|
  {
    if rs != [] {
      var tail := rs[1..];
      assert KeysDistinct(tail) by {
        forall a, b | 0 <= a < b < |tail|
          ensures tail[a].shipId != tail[b].shipId || tail[a].year != tail[b].year
        {
          assert tail[a] == rs[a + 1] && tail[b] == rs[b + 1];
        }
      }
      if !HasKey(rs[0], rec.shipId, rec.year) {
        UpsertKeepsDistinct(tail, rec);
        var u := Upsert(tail, rec);
        forall k | 0 <= k < |u| ensures !HasKey(u[k], rs[0].shipId, rs[0].year) {
          if k < |tail| {
            assert rs[k + 1] == tail[k];
          }
        }
      } else {
        forall k | 0 <= k < |tail| ensures !HasKey(tail[k], rec.shipId, rec.year) {
          assert rs[k + 1] == tail[k];
        }
      }
    }
  }

  /**
   * After a bulk save, a key the batch holds maps to the batch's last record with that key (the
   * statements run in order, so the last wins), and any other key keeps what it had.
   */
  lemma {:induction false} UpsertAllLookup(rs: seq<ComplianceBalance>, batch: seq<ComplianceBalance>, shipId: string, year: int)
    ensures Lookup(UpsertAll(rs, batch), shipId, year)
         == if LastWithKey(batch, shipId, year).Some? then LastWithKey(batch, shipId, year)
            else Lookup(rs, shipId, year)
    decreases |batch|
  {
    if batch != [] {
      UpsertAllLookup(rs, batch[..|batch| - 1], shipId, year);
      UpsertLookup(UpsertAll(rs, batch[..|batch| - 1]), batch[|batch| - 1], shipId, year);
    }
  }

  lemma {:induction false} UpsertAllKeepsDistinct(rs: seq<ComplianceBalance>, batch: seq<ComplianceBalance>)
    requires KeysDistinct(rs)
    ensures KeysDistinct(UpsertAll(rs, batch))
    decreases |batch|
  {
    if batch != [] {
      UpsertAllKeepsDistinct(rs, batch[..|batch| - 1]);
      UpsertKeepsDistinct(UpsertAll(rs, batch[..|batch| - 1]), batch[|batch| - 1]);
    }
  }

  class ComplianceStore {
    var records: seq<ComplianceBalance>

    ghost predicate Valid()
      reads this
    {
      KeysDistinct(records)
    }

    constructor(initial: seq<ComplianceBalance>)
      requires KeysDistinct(initial)
      ensures records == initial && Valid()
    {
      records := initial;
    }

    /** saveAll: an empty batch returns at once; otherwise one upsert per record, in order. */
    method SaveAll(batch: seq<ComplianceBalance>)
      requires Valid()
      modifies this
      ensures records == UpsertAll(old(records), batch)
      ensures Valid()
    {
      if |batch| == 0 {
        return;
      }
      UpsertAllKeepsDistinct(records, batch);
      ghost var initial := records;
      for i := 0 to |batch|
        invariant records == UpsertAll(initial, batch[..i])
      {
        assert batch[..i + 1][..i] == batch[..i];
        records := Upsert(records, batch[i]);
      }
      assert batch[..|batch|] == batch;
    }
  }
}
