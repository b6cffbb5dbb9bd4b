/**
 * The zone application service over three in-memory tables: zones, regions (by id) and
 * offices. A region lookup fails exactly when the id is not in the region table; zone-list
 * failures and office writes the model cannot see are parameters.
 */
module ZoneService {
  import opened Wrappers
  import opened Domain
  import opened Search
  import opened MapOrder

  datatype ZoneError = NotFound | RepositoryFailed

  /** A zone as `FindByID` returns it: the row with its offices preloaded. */
  datatype LoadedZone = LoadedZone(zone: Zone, offices: seq<Office>)

  /** A zone and its region, `nil` when the zone has none or the region could not be read. */
  datatype Found = Found(zone: LoadedZone, region: Option<Region>)

  function ZoneId(z: Zone): int { z.id }

  /** Index of the first zone row with that id. */
  function FindZone(zones: seq<Zone>, id: int): Option<nat> {
    First(zones, ZoneId, id)
  }

  /** The region shown beside a zone. */
  function RegionOf(regions: map<int, Region>, z: Zone): Option<Region> {
    if z.regionId.Some? && z.regionId.value in regions then Some(regions[z.regionId.value]) else None
  }

  /** The distinct region ids the zones name. */
  function RegionIds(zones: seq<Zone>): (ids: set<int>)
    ensures forall j :: 0 <= j < |zones| && zones[j].regionId.Some? ==> zones[j].regionId.value in ids
    ensures forall x :: x in ids ==> exists j :: 0 <= j < |zones| && zones[j].regionId == Some(x)
  {
    if zones == [] then {}
    else
      var n := |zones| - 1;
      RegionIds(zones[..n]) + (if zones[n].regionId.Some? then {zones[n].regionId.value} else {})
  }

  /** The rows of a `FindByRegionID`: the zones of that region, in table order. */
  function ZonesOfRegion(zones: seq<Zone>, regionId: int): (r: seq<Zone>)
    ensures forall j :: 0 <= j < |r| ==> r[j] in zones && r[j].regionId == Some(regionId)
    ensures forall k :: 0 <= k < |zones| && zones[k].regionId == Some(regionId) ==> zones[k] in r
  {
    if zones == [] then []
    else (if zones[0].regionId == Some(regionId) then [zones[0]] else []) + ZonesOfRegion(zones[1..], regionId)
  }

  /**
   * Every zone a region lists shows that region beside it, and a zone without a region shows
   * none, whatever the region table holds.
   */
  lemma RegionOfListedZones(zones: seq<Zone>, regions: map<int, Region>, regionId: int, z: Zone)
    requires regionId in regions
    ensures forall j :: 0 <= j < |ZonesOfRegion(zones, regionId)| ==>
              RegionOf(regions, ZonesOfRegion(zones, regionId)[j]) == Some(regions[regionId])
    ensures z.regionId.None? ==> RegionOf(regions, z) == None
  {
  }

  // ---------------------------------------------------------------- office assignment

  /** The office table after some writes, and the error that stopped them, if any. */
  datatype Progress = Progress(offices: seq<Office>, failure: Option<ZoneError>)

  /**
   * `AssignOffices`' loop over `ids`: each office is read, then written with `zoneId`; the
   * `i`-th write succeeds when `writeOk(i)`. The first failure stops the loop.
   */
  function Assigned(offices: seq<Office>, zoneId: int, ids: seq<int>, writeOk: nat -> bool): Progress
    decreases |ids|
  {
    if ids == [] then Progress(offices, None)
    else
      var n := |ids| - 1;
      var p := Assigned(offices, zoneId, ids[..n], writeOk);
      if p.failure.Some? then p
      else if FindOffice(p.offices, ids[n]).None? then Progress(p.offices, Some(NotFound))
      else if !writeOk(n) then Progress(p.offices, Some(RepositoryFailed))
      else Progress(SetZone(p.offices, ids[n], Some(zoneId)), None)
  }

  /** Once a write has failed, the later ids change nothing. */
  lemma {:induction false} AssignStopsAtFirstFailure(offices: seq<Office>, zoneId: int, ids: seq<int>,
                                                     writeOk: nat -> bool, j: nat)
    requires j <= |ids| && Assigned(offices, zoneId, ids[..j], writeOk).failure.Some?
    ensures Assigned(offices, zoneId, ids, writeOk) == Assigned(offices, zoneId, ids[..j], writeOk)
    decreases |ids|
  {
    if j < |ids| {
      var n := |ids| - 1;
      assert ids[..n][..j] == ids[..j];
      AssignStopsAtFirstFailure(offices, zoneId, ids[..n], writeOk, j);
    } else {
      assert ids[..j] == ids;
    }
  }

  /**
   * Only listed offices change, and only their zone, which becomes `zoneId`.
   */
  lemma {:induction false} AssignedTouchesOnlyListed(offices: seq<Office>, zoneId: int, ids: seq<int>,
                                                     writeOk: nat -> bool)
    ensures var p := Assigned(offices, zoneId, ids, writeOk);
            |p.offices| == |offices|
            && forall k :: 0 <= k < |offices| ==>
                 p.offices[k] == offices[k] || (offices[k].id in ids && p.offices[k] == offices[k].(zoneId := Some(zoneId)))
    decreases |ids|
  {
    if ids != [] {
      var n := |ids| - 1;
      AssignedTouchesOnlyListed(offices, zoneId, ids[..n], writeOk);
      forall x | x in ids[..n] ensures x in ids { }
    }
  }

  /** Office ids never change, so the table keeps its primary key. */
  lemma {:induction false} AssignedKeepsIds(offices: seq<Office>, zoneId: int, ids: seq<int>, writeOk: nat -> bool)
    ensures var p := Assigned(offices, zoneId, ids, writeOk);
            |p.offices| == |offices| && forall k :: 0 <= k < |offices| ==> p.offices[k].id == offices[k].id
    decreases |ids|
  {
    if ids != [] {
      AssignedKeepsIds(offices, zoneId, ids[..|ids| - 1], writeOk);
    }
  }

  /** A run without failure got through its prefix without failure and found its last office. */
  lemma AssignedLastFound(offices: seq<Office>, zoneId: int, ids: seq<int>, writeOk: nat -> bool)
    requires ids != [] && Assigned(offices, zoneId, ids, writeOk).failure.None?
    ensures var p := Assigned(offices, zoneId, ids[..|ids| - 1], writeOk);
            p.failure.None? && FindOffice(p.offices, ids[|ids| - 1]).Some?
  {
  }

  /** A run without failure found every listed office. */
  lemma {:induction false} AssignedFindsAll(offices: seq<Office>, zoneId: int, ids: seq<int>, writeOk: nat -> bool)
    requires Assigned(offices, zoneId, ids, writeOk).failure.None?
    ensures forall j :: 0 <= j < |ids| ==> FindOffice(offices, ids[j]).Some?
    decreases |ids|
  {
    if ids != [] {
      var n := |ids| - 1;
      var front, last := ids[..n], ids[n];
      assert FindOffice(offices, last).Some? by {
        AssignedLastFound(offices, zoneId, ids, writeOk);
        var p := Assigned(offices, zoneId, front, writeOk);
        AssignedKeepsIds(offices, zoneId, front, writeOk);
        SameKeysSameFirst(p.offices, offices, OfficeId, last);
      }
      assert forall j :: 0 <= j < n ==> FindOffice(offices, front[j]).Some? by {
        AssignedLastFound(offices, zoneId, ids, writeOk);
        AssignedFindsAll(offices, zoneId, front, writeOk);
      }
      assert ids == front + [last];
    }
  }

  /** A run without failure moved exactly the listed offices into the zone. */
  lemma {:induction false} AssignedSuccess(offices: seq<Office>, zoneId: int, ids: seq<int>, writeOk: nat -> bool)
    requires Assigned(offices, zoneId, ids, writeOk).failure.None?
    ensures var p := Assigned(offices, zoneId, ids, writeOk);
            |p.offices| == |offices|
            && forall k :: 0 <= k < |offices| ==>
                 p.offices[k] == if offices[k].id in ids then offices[k].(zoneId := Some(zoneId)) else offices[k]
    decreases |ids|
  {
    if ids != [] {
      var n := |ids| - 1;
      var p := Assigned(offices, zoneId, ids[..n], writeOk);
      var q := Assigned(offices, zoneId, ids, writeOk);
      AssignedSuccess(offices, zoneId, ids[..n], writeOk);
      assert q.offices == SetZone(p.offices, ids[n], Some(zoneId));
      forall k | 0 <= k < |offices|
        ensures q.offices[k] == if offices[k].id in ids then offices[k].(zoneId := Some(zoneId)) else offices[k]
      {
        assert offices[k].id in ids <==> offices[k].id in ids[..n] || offices[k].id == ids[n] by {
          assert ids == ids[..n] + [ids[n]];
        }
      }
    }
  }

  // ---------------------------------------------------------------- office removal

  /** The ids of some rows. */
  function IdsOf(rows: seq<Office>): (ids: set<int>)
    ensures forall j :: 0 <= j < |rows| ==> rows[j].id in ids
    ensures forall x :: x in ids ==> exists j :: 0 <= j < |rows| && rows[j].id == x
  {
    if rows == [] then {}
    else
      var n := |rows| - 1;
      IdsOf(rows[..n]) + {rows[n].id}
  }

  /**
   * `RemoveOffices`' loop over the zone's offices as read at the start: a listed one is
   * written back without a zone; the write for position `i` succeeds when `writeOk(i)`.
   */
  function Removed(offices: seq<Office>, snapshot: seq<Office>, ids: set<int>, writeOk: nat -> bool): Progress
    decreases |snapshot|
  {
    if snapshot == [] then Progress(offices, None)
    else
      var n := |snapshot| - 1;
      var p := Removed(offices, snapshot[..n], ids, writeOk);
      if p.failure.Some? || snapshot[n].id !in ids then p
      else if !writeOk(n) then Progress(p.offices, Some(RepositoryFailed))
      else Progress(SetZone(p.offices, snapshot[n].id, None), None)
  }

  lemma {:induction false} RemoveStopsAtFirstFailure(offices: seq<Office>, snapshot: seq<Office>, ids: set<int>,
                                                     writeOk: nat -> bool, j: nat)
    requires j <= |snapshot| && Removed(offices, snapshot[..j], ids, writeOk).failure.Some?
    ensures Removed(offices, snapshot, ids, writeOk) == Removed(offices, snapshot[..j], ids, writeOk)
    decreases |snapshot|
  {
    if j < |snapshot| {
      var n := |snapshot| - 1;
      assert snapshot[..n][..j] == snapshot[..j];
      RemoveStopsAtFirstFailure(offices, snapshot[..n], ids, writeOk, j);
    } else {
      assert snapshot[..j] == snapshot;
    }
  }

  /** A row either keeps its zone or loses it, and loses it only when it is both read and listed. */
  lemma {:induction false} RemovedTouchesOnlyListed(offices: seq<Office>, snapshot: seq<Office>, ids: set<int>,
                                                    writeOk: nat -> bool)
    ensures var p := Removed(offices, snapshot, ids, writeOk);
            |p.offices| == |offices|
            && forall k :: 0 <= k < |offices| ==>
                 p.offices[k] == offices[k]
                 || (offices[k].id in ids && offices[k].id in IdsOf(snapshot) && p.offices[k] == offices[k].(zoneId := None))
    decreases |snapshot|
  {
    if snapshot != [] {
      var n := |snapshot| - 1;
      RemovedTouchesOnlyListed(offices, snapshot[..n], ids, writeOk);
    }
  }

  /** A run without failure cleared the zone of exactly the rows both read and listed. */
  lemma {:induction false} RemovedSuccess(offices: seq<Office>, snapshot: seq<Office>, ids: set<int>, writeOk: nat -> bool)
    requires Removed(offices, snapshot, ids, writeOk).failure.None?
    ensures var p := Removed(offices, snapshot, ids, writeOk);
            |p.offices| == |offices|
            && forall k :: 0 <= k < |offices| ==>
                 p.offices[k] == if offices[k].id in ids && offices[k].id in IdsOf(snapshot)
                                 then offices[k].(zoneId := None) else offices[k]
    decreases |snapshot|
  {
    if snapshot != [] {
      var n := |snapshot| - 1;
      RemovedSuccess(offices, snapshot[..n], ids, writeOk);
    }
  }

  /** With a primary key, the offices read for a zone are exactly the rows of that zone. */
  lemma InZoneIds(offices: seq<Office>, zoneId: int, k: nat)
    requires UniqueOfficeIds(offices) && k < |offices|
    ensures offices[k].id in IdsOf(OfficesIn(offices, zoneId)) <==> offices[k].zoneId == Some(zoneId)
  {
    var snap := OfficesIn(offices, zoneId);
    if offices[k].id in IdsOf(snap) {
      var j :| 0 <= j < |snap| && snap[j].id == offices[k].id;
      var m :| 0 <= m < |offices| && offices[m] == snap[j];
      assert m == k;
    }
    if offices[k].zoneId == Some(zoneId) {
      var j :| 0 <= j < |snap| && snap[j] == offices[k];
    }
  }

  /**
   * `RemoveOffices` when every write succeeds: an office loses its zone exactly when it was in
   * that zone and its id is listed; listed ids of offices elsewhere are ignored.
   */
  lemma RemoveOfficesExact(offices: seq<Office>, zoneId: int, officeIds: seq<int>, writeOk: nat -> bool)
    requires UniqueOfficeIds(offices)
    requires Removed(offices, OfficesIn(offices, zoneId), IdSet(officeIds), writeOk).failure.None?
    ensures var p := Removed(offices, OfficesIn(offices, zoneId), IdSet(officeIds), writeOk);
            |p.offices| == |offices|
            && forall k :: 0 <= k < |offices| ==>
                 p.offices[k] == if offices[k].zoneId == Some(zoneId) && offices[k].id in officeIds
                                 then offices[k].(zoneId := None) else offices[k]
  {
    RemovedSuccess(offices, OfficesIn(offices, zoneId), IdSet(officeIds), writeOk);
    forall k | 0 <= k < |offices| {
      InZoneIds(offices, zoneId, k);
    }
  }

  /** After a run without failure, the zone read again lists every assigned office. */
  lemma AssignedOfficesJoinZone(offices: seq<Office>, zoneId: int, ids: seq<int>, writeOk: nat -> bool)
    requires Assigned(offices, zoneId, ids, writeOk).failure.None?
    ensures forall j :: 0 <= j < |ids| ==> ids[j] in IdsOf(OfficesIn(Assigned(offices, zoneId, ids, writeOk).offices, zoneId))
  {
    var p := Assigned(offices, zoneId, ids, writeOk);
    AssignedFindsAll(offices, zoneId, ids, writeOk);
    AssignedSuccess(offices, zoneId, ids, writeOk);
    forall j | 0 <= j < |ids|
      ensures ids[j] in IdsOf(OfficesIn(p.offices, zoneId))
    {
      var k := FindOffice(offices, ids[j]).value;
      assert p.offices[k] == offices[k].(zoneId := Some(zoneId));
      assert p.offices[k] in OfficesIn(p.offices, zoneId);
    }
  }

  /** One more iteration of `AssignOffices`' loop. */
  lemma AssignStep(offices: seq<Office>, zoneId: int, ids: seq<int>, writeOk: nat -> bool, i: nat)
    requires i < |ids|
    ensures var p := Assigned(offices, zoneId, ids[..i], writeOk);
            Assigned(offices, zoneId, ids[..i + 1], writeOk)
              == if p.failure.Some? then p
                 else if FindOffice(p.offices, ids[i]).None? then Progress(p.offices, Some(NotFound))
                 else if !writeOk(i) then Progress(p.offices, Some(RepositoryFailed))
                 else Progress(SetZone(p.offices, ids[i], Some(zoneId)), None)
  {
    assert ids[..i + 1][..i] == ids[..i];
  }

  /** One more iteration of `RemoveOffices`' loop. */
  lemma RemoveStep(offices: seq<Office>, snapshot: seq<Office>, ids: set<int>, writeOk: nat -> bool, i: nat)
    requires i < |snapshot|
    ensures var p := Removed(offices, snapshot[..i], ids, writeOk);
            Removed(offices, snapshot[..i + 1], ids, writeOk)
              == if p.failure.Some? || snapshot[i].id !in ids then p
                 else if !writeOk(i) then Progress(p.offices, Some(RepositoryFailed))
                 else Progress(SetZone(p.offices, snapshot[i].id, None), None)
  {
    assert snapshot[..i + 1][..i] == snapshot[..i];
  }

  /**
   * The removal loop as the repository executes it: each write is gorm's `Updates` of an office
   * whose `ZoneID` was set to nil, which skips the nil field.
   */
  function RemovedAsWritten(offices: seq<Office>, snapshot: seq<Office>, ids: set<int>, writeOk: nat -> bool): Progress
    decreases |snapshot|
  {
    if snapshot == [] then Progress(offices, None)
    else
      var n := |snapshot| - 1;
      var p := RemovedAsWritten(offices, snapshot[..n], ids, writeOk);
      if p.failure.Some? || snapshot[n].id !in ids then p
      else if !writeOk(n) then Progress(p.offices, Some(RepositoryFailed))
      else Progress(UpdatesZone(p.offices, snapshot[n].id, None), None)
  }

  /** As written, the removal reports the same outcome as intended and changes no row at all. */
  lemma {:induction false} RemovedAsWrittenChangesNothing(offices: seq<Office>, snapshot: seq<Office>, ids: set<int>,
                                                          writeOk: nat -> bool)
    ensures RemovedAsWritten(offices, snapshot, ids, writeOk).offices == offices
    ensures RemovedAsWritten(offices, snapshot, ids, writeOk).failure == Removed(offices, snapshot, ids, writeOk).failure
    decreases |snapshot|
  {
    if snapshot != [] {
      RemovedAsWrittenChangesNothing(offices, snapshot[..|snapshot| - 1], ids, writeOk);
    }
  }

  /** Office 1 of zone 5: removing it from zone 5 succeeds, yet as written it stays in zone 5. */
  lemma RemoveOfficesAsWrittenKeepsZone()
    ensures var offices := [Office(1, "HQ", "HQ-1", "", "", "hq@example.com", Some(5))];
            var ok := (n: nat) => true;
            var asWritten := RemovedAsWritten(offices, OfficesIn(offices, 5), IdSet([1]), ok);
            var intended := Removed(offices, OfficesIn(offices, 5), IdSet([1]), ok);
            asWritten.failure.None? && asWritten.offices[0].zoneId == Some(5)
            && intended.failure.None? && intended.offices[0].zoneId == None
  {
    var offices := [Office(1, "HQ", "HQ-1", "", "", "hq@example.com", Some(5))];
    var ok := (n: nat) => true;
    assert OfficesIn(offices, 5) == offices;
    RemovedAsWrittenChangesNothing(offices, offices, IdSet([1]), ok);
    assert offices[..0] == [];
  }

  /** The set of ids a list names (`removeIDs`). */
  function IdSet(ids: seq<int>): set<int> {
    set x | x in ids
  }

  /** The ids of two lists together are the ids of each; repeating a list adds none. */
  lemma IdSetConcat(a: seq<int>, b: seq<int>)
    ensures IdSet(a + b) == IdSet(a) + IdSet(b)
    ensures IdSet(a + a) == IdSet(a)
  {
    assert forall x :: x in a + b <==> x in a || x in b;
    assert forall x :: x in a + a <==> x in a;
  }

  // ---------------------------------------------------------------- the service

  class ZoneService {
    /** The `master_zone` table. */
    var zones: seq<Zone>
    /** The `master_region` table, by id. */
    var regions: map<int, Region>
    /** The `master_office` table. */
    var offices: seq<Office>

    constructor(zones0: seq<Zone>, regions0: map<int, Region>, offices0: seq<Office>)
      ensures zones == zones0 && regions == regions0 && offices == offices0
    {
      zones, regions, offices := zones0, regions0, offices0;
    }

    /** A zone with its offices preloaded. */
    function Load(z: Zone): LoadedZone
      reads this
    {
      LoadedZone(z, OfficesIn(offices, z.id))
    }

    /**
     * `FindByID`: a missing zone is an error; a zone without a region, or whose region cannot
     * be read, comes back with a nil region and no error.
     */
    method FindByID(id: int) returns (r: Result<Found, ZoneError>)
      ensures FindZone(zones, id).None? <==> r == Err(NotFound)
      ensures r.Ok? || r == Err(NotFound)
      ensures r.Ok? ==>
        var z := zones[FindZone(zones, id).value];
        r.value.zone == Load(z) && r.value.zone.zone.id == id && r.value.region == RegionOf(regions, z)
    {
      var k := FindZone(zones, id);
      if k.None? {
        return Err(NotFound);
      }
      var z := Load(zones[k.value]);
      var region: Option<Region> := None;
      if z.zone.regionId.Some? {
        if z.zone.regionId.value !in regions {
          return Ok(Found(z, None));
        }
        region := Some(regions[z.zone.regionId.value]);
      }
      return Ok(Found(z, region));
    }

    /** `FindAll`'s first loop: the set of region ids the zones name. */
    method CollectRegionIds(rows: seq<Zone>) returns (ids: set<int>)
      ensures ids == RegionIds(rows)
    {
      ids := {};
      for i := 0 to |rows|
        invariant ids == RegionIds(rows[..i])
      {
        assert rows[..i + 1][..i] == rows[..i];
        if rows[i].regionId.Some? {
          ids := ids + {rows[i].regionId.value};
        }
      }
      assert rows[..|rows|] == rows;
    }

    /**
     * `FindAll`'s second loop, over the id set in map order: each id is looked up once, and
     * one that cannot be read is skipped.
     */
    method FetchRegions(ids: set<int>, order: seq<int>) returns (found: map<int, Region>, lookups: seq<int>)
      requires Enumerates(order, ids)
      ensures forall x :: x in found <==> x in ids && x in regions
      ensures forall x :: x in found ==> found[x] == regions[x]
      ensures lookups == order
    {
      EnumeratesMembers(order, ids);
      found, lookups := map[], [];
      for i := 0 to |order|
        invariant lookups == order[..i]
        invariant forall x :: x in found <==> x in order[..i] && x in regions
        invariant forall x :: x in found ==> found[x] == regions[x]
      {
        assert order[..i + 1] == order[..i] + [order[i]];
        var x := order[i];
        if x in regions {
          found := found[x := regions[x]];
        }
        lookups := lookups + [x];
      }
      assert order[..|order|] == order;
    }

    /** `FindAll`'s third loop: entry `i` is the fetched region of zone `i`, or nil. */
    method AlignRegions(rows: seq<Zone>, found: map<int, Region>) returns (aligned: seq<Option<Region>>)
      requires forall i :: 0 <= i < |rows| && rows[i].regionId.Some? ==>
                 (rows[i].regionId.value in found <==> rows[i].regionId.value in regions)
      requires forall x :: x in found && x in regions ==> found[x] == regions[x]
      ensures |aligned| == |rows|
      ensures forall i :: 0 <= i < |rows| ==> aligned[i] == RegionOf(regions, rows[i])
    {
      aligned := seq(|rows|, _ => None);
      for i := 0 to |rows|
        invariant |aligned| == |rows|
        invariant forall j :: 0 <= j < i ==> aligned[j] == RegionOf(regions, rows[j])
        invariant forall j :: i <= j < |rows| ==> aligned[j] == None
      {
        if rows[i].regionId.Some? {
          var id := rows[i].regionId.value;
          aligned := aligned[i := if id in found then Some(found[id]) else None];
        }
      }
    }

    /**
     * `FindAll`: the regions beside the zones, one per zone and in the same order. Each
     * distinct region id is looked up once (`lookups`, in map order); a failed lookup leaves a
     * nil entry and does not fail the call.
     */
    method FindAll(listOk: bool, rangeOrder: set<int> -> seq<int>)
      returns (r: Result<(seq<Zone>, seq<Option<Region>>), ZoneError>, lookups: seq<int>)
      requires forall ks :: Enumerates(rangeOrder(ks), ks)
      ensures !listOk ==> r == Err(RepositoryFailed) && lookups == []
      ensures listOk ==> r.Ok? && r.value.0 == zones
      ensures r.Ok? ==> |r.value.1| == |zones|
      ensures r.Ok? ==> forall i :: 0 <= i < |zones| ==> r.value.1[i] == RegionOf(regions, zones[i])
      ensures listOk ==> lookups == rangeOrder(RegionIds(zones))
      ensures listOk ==> forall x :: x in lookups <==> x in RegionIds(zones)
      ensures forall i, j :: 0 <= i < j < |lookups| ==> lookups[i] != lookups[j]
    {
      if !listOk {
        return Err(RepositoryFailed), [];
      }
      var regionIds := CollectRegionIds(zones);
      var found;
      found, lookups := FetchRegions(regionIds, rangeOrder(regionIds));
      EnumeratesMembers(lookups, regionIds);
      EnumeratesDistinct(lookups, regionIds);
      forall i | 0 <= i < |zones| && zones[i].regionId.Some?
        ensures zones[i].regionId.value in found <==> zones[i].regionId.value in regions
      {
        var x := zones[i].regionId.value;
        assert x in regionIds;
        assert x in found <==> x in regionIds && x in regions;
      }
      var zoneRegions := AlignRegions(zones, found);
      r := Ok((zones, zoneRegions));
    }

    /**
     * `FindByRegionID`: the region's zones, each beside the region; if the region cannot be
     * read, beside nil.
     */
    method FindByRegionID(regionId: int, listOk: bool) returns (r: Result<(seq<Zone>, seq<Option<Region>>), ZoneError>)
      ensures !listOk <==> r == Err(RepositoryFailed)
      ensures r.Ok? ==> r.value.0 == ZonesOfRegion(zones, regionId) && |r.value.1| == |r.value.0|
      ensures r.Ok? && regionId !in regions ==> forall i :: 0 <= i < |r.value.1| ==> r.value.1[i].None?
      ensures r.Ok? && regionId in regions ==> forall i :: 0 <= i < |r.value.1| ==> r.value.1[i] == Some(regions[regionId])
      ensures r.Ok? ==> forall i :: 0 <= i < |r.value.0| ==> r.value.1[i] == RegionOf(regions, r.value.0[i])
    {
      if !listOk {
        return Err(RepositoryFailed);
      }
      var rows := ZonesOfRegion(zones, regionId);
      if regionId !in regions {
        return Ok((rows, seq(|rows|, _ => None)));
      }
      var region := regions[regionId];
      var same: seq<Option<Region>> := seq(|rows|, _ => None);
      for i := 0 to |rows|
        invariant |same| == |rows|
        invariant forall j :: 0 <= j < i ==> same[j] == Some(region)
      {
        same := same[i := Some(region)];
      }
      return Ok((rows, same));
    }

    /**
     * `AssignOffices`: a missing zone writes nothing. The listed offices are then moved into
     * the zone in list order, and the first missing office or failed write stops the loop with
     * the earlier writes kept. On success the zone is read again with its offices.
     */
    method AssignOffices(zoneId: int, officeIds: seq<int>, writeOk: nat -> bool) returns (r: Result<Found, ZoneError>)
      modifies this
      ensures zones == old(zones) && regions == old(regions)
      ensures FindZone(zones, zoneId).None? ==> r == Err(NotFound) && offices == old(offices)
      ensures FindZone(zones, zoneId).Some? ==>
        var p := Assigned(old(offices), zoneId, officeIds, writeOk);
        offices == p.offices
        && (p.failure.Some? ==> r == Err(p.failure.value))
        && (p.failure.None? ==>
              var z := zones[FindZone(zones, zoneId).value];
              r == Ok(Found(LoadedZone(z, OfficesIn(offices, zoneId)), RegionOf(regions, z))))
    {
      var found := FindByID(zoneId);
      if found.Err? {
        return Err(found.error);
      }
      ghost var start := offices;
      for i := 0 to |officeIds|
        invariant zones == old(zones) && regions == old(regions) && start == old(offices)
        invariant Assigned(start, zoneId, officeIds[..i], writeOk) == Progress(offices, None)
      {
        AssignStep(start, zoneId, officeIds, writeOk, i);
        var id := officeIds[i];
        var k := FindOffice(offices, id);
        if k.None? {
          AssignStopsAtFirstFailure(start, zoneId, officeIds, writeOk, i + 1);
          return Err(NotFound);
        }
        if !writeOk(i) {
          AssignStopsAtFirstFailure(start, zoneId, officeIds, writeOk, i + 1);
          return Err(RepositoryFailed);
        }
        offices := SetZone(offices, id, Some(zoneId));
      }
      assert officeIds[..|officeIds|] == officeIds;
      r := FindByID(zoneId);
    }

    /**
     * `RemoveOffices`: the zone's offices are read once; each of them whose id is listed is
     * written back without a zone, in table order, and the first failed write stops the loop.
     */
    method RemoveOffices(zoneId: int, officeIds: seq<int>, readOk: bool, writeOk: nat -> bool)
      returns (r: Result<(), ZoneError>)
      modifies this
      ensures zones == old(zones) && regions == old(regions)
      ensures !readOk ==> r == Err(RepositoryFailed) && offices == old(offices)
      ensures readOk ==>
        var p := Removed(old(offices), OfficesIn(old(offices), zoneId), IdSet(officeIds), writeOk);
        offices == p.offices && (r.Ok? <==> p.failure.None?) && (p.failure.Some? ==> r == Err(p.failure.value))
    {
      if !readOk {
        return Err(RepositoryFailed);
      }
      var inZone := OfficesIn(offices, zoneId);
      var removeIds: set<int> := {};
      for i := 0 to |officeIds|
        invariant removeIds == IdSet(officeIds[..i])
      {
        assert officeIds[..i + 1] == officeIds[..i] + [officeIds[i]];
        assert IdSet(officeIds[..i + 1]) == IdSet(officeIds[..i]) + {officeIds[i]};
        removeIds := removeIds + {officeIds[i]};
      }
      assert officeIds[..|officeIds|] == officeIds;
      ghost var start := offices;
      for i := 0 to |inZone|
        invariant zones == old(zones) && regions == old(regions) && start == old(offices)
        invariant Removed(start, inZone[..i], removeIds, writeOk) == Progress(offices, None)
      {
        RemoveStep(start, inZone, removeIds, writeOk, i);
        if inZone[i].id in removeIds {
          if !writeOk(i) {
            RemoveStopsAtFirstFailure(start, inZone, removeIds, writeOk, i + 1);
            return Err(RepositoryFailed);
          }
          offices := SetZone(offices, inZone[i].id, None);
        }
      }
      assert inZone[..|inZone|] == inZone;
      return Ok(());
    }
  }
}
