/**
 * The zone dialog of the office page (`OfficePage`): a radio list of zones, the chosen zone
 * in `selectedZone`, and a save that assigns it to `currentOffice`. That field starts null and
 * no handler of the page ever sets it, so a save with a zone chosen always fails before the
 * assignment is sent; `OnShowFor` is the show handler that remembers the office.
 */
module OfficePage {
  import opened Wrappers
  import opened Pages

  /** The API calls the dialog makes. */
  datatype OfficeCall = GetZones | AssignZone(officeId: int, zoneId: int) | GetOffices

  /** The DevExtreme grid instance: `disposed` once `dispose()` was called on it. */
  datatype Grid = Grid(disposed: bool)

  class OfficePage {
    var grid: Option<Grid>
    var handlersBound: bool
    var selectedZone: Option<Item>
    var currentOffice: Option<int>
    var allZones: seq<Item>
    var zoneFilter: string
    var rows: seq<Row>
    var modalShown: bool
    var calls: seq<OfficeCall>
    var notices: seq<Notice>

    /** The grid is created only when DevExtreme is loaded and `#officeGrid` exists. */
    constructor(gridCreated: bool)
      ensures grid == (if gridCreated then Some(Grid(false)) else None) && handlersBound
      ensures selectedZone == None && currentOffice == None && allZones == [] && zoneFilter == ""
      ensures rows == [] && !modalShown && calls == [] && notices == []
    {
      grid := if gridCreated then Some(Grid(false)) else None;
      handlersBound := true;
      selectedZone := None;
      currentOffice := None;
      allZones := [];
      zoneFilter := "";
      rows := [];
      modalShown := false;
      calls := [];
      notices := [];
    }

    /**
     * `dispose`: unbind the dialog handlers and dispose the grid. Unlike the other pages it
     * does not set the field to null, so a disposed grid stays referenced.
     */
    method Dispose()
      modifies this
      ensures !handlersBound
      ensures grid == if old(grid).Some? then Some(Grid(true)) else None
      ensures selectedZone == old(selectedZone) && currentOffice == old(currentOffice)
      ensures allZones == old(allZones) && zoneFilter == old(zoneFilter) && rows == old(rows)
      ensures modalShown == old(modalShown) && calls == old(calls) && notices == old(notices)
    {
      handlersBound := false;
      if grid.Some? {
        grid := Some(Grid(true));
      }
    }

    /** `renderZones`: the filtered zones, the chosen one marked by id. */
    method RenderZones()
      modifies this
      ensures Shows(rows, FilterItems(allZones, zoneFilter), SelectedIds(selectedZone))
      ensures forall k :: 0 <= k < |rows| ==>
                (rows[k].selected <==> selectedZone.Some? && selectedZone.value.id == rows[k].item.id)
      ensures grid == old(grid) && handlersBound == old(handlersBound)
      ensures selectedZone == old(selectedZone) && currentOffice == old(currentOffice)
      ensures allZones == old(allZones) && zoneFilter == old(zoneFilter) && modalShown == old(modalShown)
      ensures calls == old(calls) && notices == old(notices)
    {
      rows := RenderRows(FilterItems(allZones, zoneFilter), SelectedIds(selectedZone));
    }

    /** `show.bs.modal` runs `loadZones`: fetch every zone and render. */
    method OnShow(fetched: Option<seq<Item>>)
      modifies this
      ensures modalShown && calls == old(calls) + [GetZones]
      ensures grid == old(grid) && handlersBound == old(handlersBound)
      ensures selectedZone == old(selectedZone) && currentOffice == old(currentOffice) && zoneFilter == old(zoneFilter)
      ensures fetched.Some? ==> allZones == fetched.value && notices == old(notices)
                                && Shows(rows, FilterItems(allZones, zoneFilter), SelectedIds(selectedZone))
      ensures fetched.None? ==> allZones == old(allZones) && rows == old(rows)
                                && notices == old(notices) + [Notice("Failed to load zones", Error)]
    {
      modalShown := true;
      calls := calls + [GetZones];
      if fetched.None? {
        notices := notices + [Notice("Failed to load zones", Error)];
        return;
      }
      allZones := fetched.value;
      RenderZones();
    }

    /**
     * The show handler as the other pages write it: remember the office the button names in
     * `data-office-id`, then load the zones.
     */
    method OnShowFor(officeId: int, fetched: Option<seq<Item>>)
      modifies this
      ensures currentOffice == Some(officeId)
      ensures modalShown && calls == old(calls) + [GetZones]
      ensures grid == old(grid) && handlersBound == old(handlersBound)
      ensures selectedZone == old(selectedZone) && zoneFilter == old(zoneFilter)
      ensures fetched.Some? ==> allZones == fetched.value && notices == old(notices)
                                && Shows(rows, FilterItems(allZones, zoneFilter), SelectedIds(selectedZone))
      ensures fetched.None? ==> allZones == old(allZones) && rows == old(rows)
                                && notices == old(notices) + [Notice("Failed to load zones", Error)]
    {
      OnShow(fetched);
      currentOffice := Some(officeId);
    }

    /** `hide.bs.modal`: forget the chosen zone, clear the filter and the list. */
    method OnHide()
      modifies this
      ensures selectedZone == None && zoneFilter == "" && rows == [] && !modalShown
      ensures grid == old(grid) && handlersBound == old(handlersBound)
      ensures currentOffice == old(currentOffice) && allZones == old(allZones)
      ensures calls == old(calls) && notices == old(notices)
    {
      selectedZone := None;
      zoneFilter := "";
      rows := [];
      modalShown := false;
    }

    /** The search box stores the lowercased text and re-renders. */
    method Search(typed: string)
      modifies this
      ensures zoneFilter == SearchFilter(typed)
      ensures Shows(rows, FilterItems(allZones, zoneFilter), SelectedIds(selectedZone))
      ensures grid == old(grid) && handlersBound == old(handlersBound)
      ensures selectedZone == old(selectedZone) && currentOffice == old(currentOffice) && allZones == old(allZones)
      ensures modalShown == old(modalShown) && calls == old(calls) && notices == old(notices)
    {
      zoneFilter := SearchFilter(typed);
      RenderZones();
    }

    /** A radio input of the list changed: its zone becomes the chosen one. */
    method Choose(zone: Item)
      modifies this
      ensures selectedZone == Some(zone)
      ensures grid == old(grid) && handlersBound == old(handlersBound)
      ensures currentOffice == old(currentOffice) && allZones == old(allZones) && zoneFilter == old(zoneFilter)
      ensures rows == old(rows) && modalShown == old(modalShown) && calls == old(calls) && notices == old(notices)
    {
      selectedZone := Some(zone);
    }

    /**
     * `saveZone`: without a chosen zone, warn and stop. Otherwise read `currentOffice.id`, which
     * throws while `currentOffice` is null, then send the assignment, close the dialog, await
     * the grid reload (which reports its own failure and does not rethrow) and report success.
     * Closing a shown dialog runs its `hide.bs.modal` handler at once, which is `OnHide`.
     */
    method SaveZone(assignOk: bool, reloadOk: bool)
      modifies this
      ensures grid == old(grid) && handlersBound == old(handlersBound)
      ensures currentOffice == old(currentOffice) && allZones == old(allZones)
      ensures if old(selectedZone).Some? && old(currentOffice).Some? && assignOk && old(modalShown)
              then selectedZone == None && zoneFilter == "" && rows == []
              else selectedZone == old(selectedZone) && zoneFilter == old(zoneFilter) && rows == old(rows)
      ensures old(selectedZone).None? ==>
                calls == old(calls) && modalShown == old(modalShown)
                && notices == old(notices) + [Notice("Please select a zone", Warning)]
      ensures old(selectedZone).Some? && old(currentOffice).None? ==>
                calls == old(calls) && modalShown == old(modalShown)
                && notices == old(notices) + [Notice("Failed to assign zone", Error)]
      ensures old(selectedZone).Some? && old(currentOffice).Some? && !assignOk ==>
                calls == old(calls) + [AssignZone(old(currentOffice).value, old(selectedZone).value.id)]
                && modalShown == old(modalShown)
                && notices == old(notices) + [Notice("Failed to assign zone", Error)]
      ensures old(selectedZone).Some? && old(currentOffice).Some? && assignOk ==>
                calls == old(calls) + [AssignZone(old(currentOffice).value, old(selectedZone).value.id), GetOffices]
                && !modalShown
                && notices == old(notices)
                             + (if reloadOk then [] else [Notice("Failed to load offices", Error)])
                             + [Notice("Zone assigned successfully", Success)]
    {
      if selectedZone.None? {
        notices := notices + [Notice("Please select a zone", Warning)];
        return;
      }
      if currentOffice.None? {
        notices := notices + [Notice("Failed to assign zone", Error)];
        return;
      }
      calls := calls + [AssignZone(currentOffice.value, selectedZone.value.id)];
      if !assignOk {
        notices := notices + [Notice("Failed to assign zone", Error)];
        return;
      }
      if modalShown {
        OnHide();
      }
      calls := calls + [GetOffices];
      if !reloadOk {
        notices := notices + [Notice("Failed to load offices", Error)];
      }
      notices := notices + [Notice("Zone assigned successfully", Success)];
    }
  }

  /** As written: open the dialog, choose a zone and save; the assignment is never sent. */
  method SaveAfterShowAsWritten(zones: seq<Item>, zone: Item, assignOk: bool, reloadOk: bool)
    returns (calls: seq<OfficeCall>, notices: seq<Notice>)
    ensures calls == [GetZones]
    ensures notices == [Notice("Failed to assign zone", Error)]
  {
    var page := new OfficePage(true);
    page.OnShow(Some(zones));
    page.Choose(zone);
    page.SaveZone(assignOk, reloadOk);
    calls, notices := page.calls, page.notices;
  }

  /** With the office remembered on show, the same steps send the assignment for that office. */
  method SaveAfterShowCorrected(officeId: int, zones: seq<Item>, zone: Item, assignOk: bool, reloadOk: bool)
    returns (calls: seq<OfficeCall>, notices: seq<Notice>)
    ensures !assignOk ==> calls == [GetZones, AssignZone(officeId, zone.id)]
                          && notices == [Notice("Failed to assign zone", Error)]
    ensures assignOk ==> calls == [GetZones, AssignZone(officeId, zone.id), GetOffices]
                         && notices == (if reloadOk then [] else [Notice("Failed to load offices", Error)])
                                       + [Notice("Zone assigned successfully", Success)]
  {
    var page := new OfficePage(true);
    page.OnShowFor(officeId, Some(zones));
    page.Choose(zone);
    page.SaveZone(assignOk, reloadOk);
    calls, notices := page.calls, page.notices;
  }
}
