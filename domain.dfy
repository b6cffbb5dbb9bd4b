/**
 * The zone, region and office entities (`master_zone`, `master_region`, `master_office`) and
 * the table lookups the zone and office services share. Tenant columns and the audit columns
 * of `TenantModel` are not modelled.
 */
module Domain {
  import opened Wrappers
  import opened Search

  /** `models.Zone`: a zone belongs to at most one region. */
  datatype Zone = Zone(id: int, name: string, regionId: Option<int>, description: string)

  /** `region.Region` without its preloaded zones. */
  datatype Region = Region(id: int, name: string, description: string)

  /** `office.Office` without its preloaded zone; `zoneId` is the nullable `zone_id` column. */
  datatype Office = Office(id: int, name: string, code: string, address: string, phone: string,
                           email: string, zoneId: Option<int>)

  /** The primary key: no two rows share an id. */
  predicate UniqueOfficeIds(offices: seq<Office>) {
    forall j, k :: 0 <= j < k < |offices| ==> offices[j].id != offices[k].id
  }

  function OfficeId(o: Office): int { o.id }

  /** Index of the first row with that id, as gorm's `First` returns it. */
  function FindOffice(offices: seq<Office>, id: int): Option<nat> {
    First(offices, OfficeId, id)
  }

  /** `Where("zone_id = ?", zoneId).Find`: the offices of a zone, in table order. */
  function OfficesIn(offices: seq<Office>, zoneId: int): (r: seq<Office>)
    ensures forall j :: 0 <= j < |r| ==> r[j] in offices && r[j].zoneId == Some(zoneId)
    ensures forall k :: 0 <= k < |offices| && offices[k].zoneId == Some(zoneId) ==> offices[k] in r
    ensures |r| <= |offices|
  {
    if offices == [] then []
    else (if offices[0].zoneId == Some(zoneId) then [offices[0]] else []) + OfficesIn(offices[1..], zoneId)
  }

  /**
   * An `Update` of an office whose only change is its zone: every row with that id (the
   * `Where("id = ?")` of the repository) gets the new `zone_id`, and nothing else changes.
   */
  function SetZone(offices: seq<Office>, id: int, zoneId: Option<int>): seq<Office> {
    seq(|offices|, k requires 0 <= k < |offices| =>
      if offices[k].id == id then offices[k].(zoneId := zoneId) else offices[k])
  }

  /**
   * Moving an office to a zone keeps the table's ids, their order and the primary key; it
   * changes nothing when no row has that id, doing it twice is doing it once, and moving the
   * office back to the zone it had restores the table.
   */
  lemma SetZoneKeepsTable(offices: seq<Office>, id: int, zoneId: Option<int>, x: int)
    ensures FindOffice(SetZone(offices, id, zoneId), x) == FindOffice(offices, x)
    ensures UniqueOfficeIds(offices) ==> UniqueOfficeIds(SetZone(offices, id, zoneId))
    ensures FindOffice(offices, id).None? ==> SetZone(offices, id, zoneId) == offices
    ensures SetZone(SetZone(offices, id, zoneId), id, zoneId) == SetZone(offices, id, zoneId)
    ensures UniqueOfficeIds(offices) && FindOffice(offices, id).Some? ==>
              SetZone(SetZone(offices, id, zoneId), id, offices[FindOffice(offices, id).value].zoneId) == offices
  {
    var r := SetZone(offices, id, zoneId);
    SameKeysSameFirst(r, offices, OfficeId, x);
    if FindOffice(offices, id).None? {
      assert forall k :: 0 <= k < |offices| ==> r[k] == offices[k];
    }
    var twice := SetZone(r, id, zoneId);
    assert forall k :: 0 <= k < |offices| ==> twice[k] == r[k];
    if UniqueOfficeIds(offices) && FindOffice(offices, id).Some? {
      var j := FindOffice(offices, id).value;
      var back := SetZone(r, id, offices[j].zoneId);
      forall k | 0 <= k < |offices|
        ensures back[k] == offices[k]
      {
        if offices[k].id == id {
          assert k == j;
        }
      }
    }
  }

  /**
   * The same `Update` as gorm's `Updates(o)` executes it with a struct: only fields holding a
   * non-zero value are written, so a nil `zone_id` is skipped and the row keeps its zone.
   */
  function UpdatesZone(offices: seq<Office>, id: int, zoneId: Option<int>): (r: seq<Office>)
    ensures |r| == |offices|
    ensures forall k :: 0 <= k < |offices| ==> r[k] == offices[k].(zoneId := r[k].zoneId)
    ensures forall k :: 0 <= k < |offices| ==>
              r[k].zoneId == if offices[k].id == id && zoneId.Some? then zoneId else offices[k].zoneId
  {
    if zoneId.None? then offices else SetZone(offices, id, zoneId)
  }

  /**
   * The row that gorm's `Updates(o)` leaves behind when `o` is a struct: only the fields of
   * `o` that hold a non-zero value are written, so an empty string or a nil `zone_id` keeps
   * what the stored row had. The `Where("id = ?")` selects the row; its id is not rewritten.
   */
  function UpdatesRow(stored: Office, o: Office): (r: Office)
    ensures r.id == stored.id
    ensures o.name != "" ==> r.name == o.name
    ensures o.name == "" ==> r.name == stored.name
    ensures o.code != "" ==> r.code == o.code
    ensures o.code == "" ==> r.code == stored.code
    ensures o.address != "" ==> r.address == o.address
    ensures o.address == "" ==> r.address == stored.address
    ensures o.phone != "" ==> r.phone == o.phone
    ensures o.phone == "" ==> r.phone == stored.phone
    ensures o.email != "" ==> r.email == o.email
    ensures o.email == "" ==> r.email == stored.email
    ensures o.zoneId.Some? ==> r.zoneId == o.zoneId
    ensures o.zoneId.None? ==> r.zoneId == stored.zoneId
  {
    Office(stored.id,
           if o.name == "" then stored.name else o.name,
           if o.code == "" then stored.code else o.code,
           if o.address == "" then stored.address else o.address,
           if o.phone == "" then stored.phone else o.phone,
           if o.email == "" then stored.email else o.email,
           if o.zoneId.None? then stored.zoneId else o.zoneId)
  }

  /** An office whose every field is set replaces the stored row outright. */
  lemma UpdatesRowAllSet(stored: Office, o: Office)
    requires o.id == stored.id && o.zoneId.Some?
    requires o.name != "" && o.code != "" && o.address != "" && o.phone != "" && o.email != ""
    ensures UpdatesRow(stored, o) == o
  {
  }

  /** An office with no field set writes nothing, and applying the same update twice is applying it once. */
  lemma UpdatesRowEmptyAndTwice(stored: Office, o: Office)
    ensures UpdatesRow(stored, Office(stored.id, "", "", "", "", "", None)) == stored
    ensures UpdatesRow(UpdatesRow(stored, o), o) == UpdatesRow(stored, o)
  {
  }

  /** Updating only the zone is `UpdatesZone` on the row with that id. */
  lemma UpdatesZoneIsUpdatesRow(offices: seq<Office>, id: int, zoneId: Option<int>, k: nat)
    requires k < |offices| && offices[k].id == id
    ensures UpdatesZone(offices, id, zoneId)[k] == UpdatesRow(offices[k], Office(id, "", "", "", "", "", zoneId))
  {
  }
}
