/**
 * The zone-assignment dialog of the region page (`RegionPage`): a checkbox per zone, the
 * checked zone ids kept in the `selectedZones` set, and a save that sends them for the region
 * the dialog was opened for. API calls are logged in `calls`; awaited outcomes are parameters.
 */
module RegionPage {
  import opened Wrappers
  import opened JsSet
  import opened Pages

  /** `{ id, name }` read from the button that opened the dialog. */
  datatype RegionRef = RegionRef(id: int, name: string)

  /** The API calls the dialog makes. */
  datatype RegionCall = GetZones | AssignZones(regionId: int, zoneIds: seq<int>) | GetRegions

  class RegionPage {
    var selectedZones: seq<int>
    var currentRegion: Option<RegionRef>
    var allZones: seq<Item>
    var zoneFilter: string
    var rows: seq<Row>
    var modalShown: bool
    var calls: seq<RegionCall>
    var notices: seq<Notice>

    /** `selectedZones` is a set. */
    ghost predicate Valid()
      reads this
    {
      NoDup(selectedZones)
    }

    constructor()
      ensures Valid()
      ensures selectedZones == [] && currentRegion == None && allZones == [] && zoneFilter == ""
      ensures rows == [] && !modalShown && calls == [] && notices == []
    {
      selectedZones := [];
      currentRegion := None;
      allZones := [];
      zoneFilter := "";
      rows := [];
      modalShown := false;
      calls := [];
      notices := [];
    }

    /** `renderZones`: the filtered zones, checked when selected. */
    method RenderZones()
      modifies this
      ensures Shows(rows, FilterItems(allZones, zoneFilter), selectedZones)
      ensures selectedZones == old(selectedZones) && currentRegion == old(currentRegion)
      ensures allZones == old(allZones) && zoneFilter == old(zoneFilter) && modalShown == old(modalShown)
      ensures calls == old(calls) && notices == old(notices)
    {
      rows := RenderRows(FilterItems(allZones, zoneFilter), selectedZones);
    }

    /**
     * `loadZones`: fetch every zone and render. Nothing is preselected: the zones the region
     * already has are not looked at, and the selection is left as it is.
     */
    method LoadZones(fetched: Option<seq<Item>>)
      requires Valid()
      modifies this
      ensures Valid()
      ensures calls == old(calls) + [GetZones]
      ensures selectedZones == old(selectedZones)
      ensures currentRegion == old(currentRegion) && zoneFilter == old(zoneFilter) && modalShown == old(modalShown)
      ensures fetched.Some? ==> allZones == fetched.value && notices == old(notices)
                                && Shows(rows, FilterItems(allZones, zoneFilter), selectedZones)
      ensures fetched.None? ==> allZones == old(allZones) && rows == old(rows)
                                && notices == old(notices) + [Notice("Failed to load zones", Error)]
    {
      calls := calls + [GetZones];
      if fetched.None? {
        notices := notices + [Notice("Failed to load zones", Error)];
        return;
      }
      allZones := fetched.value;
      RenderZones();
    }

    /** `show.bs.modal`: remember the region from the button, then load the zones. */
    method OnShow(regionId: int, regionName: string, fetched: Option<seq<Item>>)
      requires Valid()
      modifies this
      ensures Valid()
      ensures currentRegion == Some(RegionRef(regionId, regionName)) && modalShown
      ensures selectedZones == old(selectedZones) && zoneFilter == old(zoneFilter)
      ensures calls == old(calls) + [GetZones]
      ensures fetched.Some? ==> allZones == fetched.value && notices == old(notices)
      ensures fetched.None? ==> allZones == old(allZones) && notices == old(notices) + [Notice("Failed to load zones", Error)]
    {
      modalShown := true;
      currentRegion := Some(RegionRef(regionId, regionName));
      LoadZones(fetched);
    }

    /** `hide.bs.modal`: clear the selection, the filter and the list. */
    method OnHide()
      modifies this
      ensures Valid()
      ensures selectedZones == [] && zoneFilter == "" && rows == [] && !modalShown
      ensures currentRegion == old(currentRegion) && allZones == old(allZones)
      ensures calls == old(calls) && notices == old(notices)
    {
      selectedZones := [];
      zoneFilter := "";
      rows := [];
      modalShown := false;
    }

    /** The search box stores the lowercased text and re-renders. */
    method Search(typed: string)
      modifies this
      ensures zoneFilter == SearchFilter(typed)
      ensures Shows(rows, FilterItems(allZones, zoneFilter), selectedZones)
      ensures selectedZones == old(selectedZones) && currentRegion == old(currentRegion) && allZones == old(allZones)
      ensures modalShown == old(modalShown) && calls == old(calls) && notices == old(notices)
    {
      zoneFilter := SearchFilter(typed);
      RenderZones();
    }

    /** A zone checkbox changed: add its id when checked, delete it when unchecked. */
    method Toggle(zoneId: int, checked: bool)
      requires Valid()
      modifies this
      ensures Valid()
      ensures selectedZones == if checked then Add(old(selectedZones), zoneId) else Delete(old(selectedZones), zoneId)
      ensures forall id :: id != zoneId ==> (id in selectedZones <==> id in old(selectedZones))
      ensures (zoneId in selectedZones) == checked
      ensures rows == old(rows) && currentRegion == old(currentRegion) && allZones == old(allZones)
      ensures zoneFilter == old(zoneFilter) && modalShown == old(modalShown)
      ensures calls == old(calls) && notices == old(notices)
    {
      if checked {
        selectedZones := Add(selectedZones, zoneId);
      } else {
        selectedZones := Delete(selectedZones, zoneId);
      }
    }

    /**
     * `saveZones`: send `Array.from(selectedZones)`, the ids in insertion order, for the current
     * region. Without a current region, reading its id throws before any call. On success the
     * dialog closes, the grid reloads and a success toast follows. Closing a shown dialog runs
     * its `hide.bs.modal` handler at once, which is `OnHide`: the selection does not outlive it.
     */
    method SaveZones(assignOk: bool)
      modifies this
      ensures currentRegion == old(currentRegion) && allZones == old(allZones)
      ensures if old(currentRegion).Some? && assignOk && old(modalShown)
              then selectedZones == [] && zoneFilter == "" && rows == []
              else selectedZones == old(selectedZones) && zoneFilter == old(zoneFilter) && rows == old(rows)
      ensures old(currentRegion).None? ==>
                calls == old(calls) && modalShown == old(modalShown)
                && notices == old(notices) + [Notice("Failed to assign zones", Error)]
      ensures old(currentRegion).Some? && !assignOk ==>
                calls == old(calls) + [AssignZones(old(currentRegion).value.id, old(selectedZones))]
                && modalShown == old(modalShown)
                && notices == old(notices) + [Notice("Failed to assign zones", Error)]
      ensures old(currentRegion).Some? && assignOk ==>
                calls == old(calls) + [AssignZones(old(currentRegion).value.id, old(selectedZones)), GetRegions]
                && !modalShown
                && notices == old(notices) + [Notice("Zones assigned successfully", Success)]
    {
      if currentRegion.None? {
        notices := notices + [Notice("Failed to assign zones", Error)];
        return;
      }
      calls := calls + [AssignZones(currentRegion.value.id, selectedZones)];
      if !assignOk {
        notices := notices + [Notice("Failed to assign zones", Error)];
        return;
      }
      if modalShown {
        OnHide();
      }
      calls := calls + [GetRegions];
      notices := notices + [Notice("Zones assigned successfully", Success)];
    }
  }

  /**
   * Two saves in a row: open the dialog for region 1, check zone 5 and save; then open it for
   * region 2 and save again. The first save's hide handler cleared the selection and loading
   * does not preselect, so the second save sends no zone.
   */
  method SaveTwice(zones: seq<Item>) returns (calls: seq<RegionCall>)
    ensures calls == [GetZones, AssignZones(1, [5]), GetRegions, GetZones, AssignZones(2, []), GetRegions]
  {
    var page := new RegionPage();
    page.OnShow(1, "North", Some(zones));
    page.Toggle(5, true);
    assert page.selectedZones == [5];
    page.SaveZones(true);
    assert page.selectedZones == [];
    page.OnShow(2, "South", Some(zones));
    page.SaveZones(true);
    calls := page.calls;
  }
}
