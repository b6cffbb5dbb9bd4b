/**
 * The employee dialog of the division page (`DivisionPage`): a checkbox per employee, the
 * checked ids in the `selectedEmployees` set, and a save that sends only the difference from
 * the division's current members: the ids to add, then the ids to remove.
 */
module DivisionPage {
  import opened Wrappers
  import opened Search
  import opened JsSet
  import opened Pages

  /** A grid row: a division and the employee objects it carries (`employees` may be absent). */
  datatype Division = Division(id: int, name: string, employees: Option<seq<Item>>)

  /** `{ id, name }` read from the button that opened the dialog. */
  datatype DivisionRef = DivisionRef(id: int, name: string)

  /** The API calls the dialog makes. */
  datatype DivisionCall = GetEmployees | AssignEmployees(divisionId: int, employeeIds: seq<int>)
                        | RemoveEmployees(divisionId: int, employeeIds: seq<int>) | GetDivisions

  function DivisionId(d: Division): int { d.id }

  /** `dataSource.find(d => d.id === id)`: the first row with that id. */
  function FindDivision(divisions: seq<Division>, id: int): Option<Division> {
    FirstElement(divisions, DivisionId, id)
  }

  /** `employees.map(e => e.id)`. */
  function IdsOf(items: seq<Item>): seq<int> {
    seq(|items|, k requires 0 <= k < |items| => items[k].id)
  }

  /** `division?.employees?.map(e => e.id) || []`: the ids the division has now. */
  function CurrentIds(division: Option<Division>): seq<int> {
    if division.Some? && division.value.employees.Some? then IdsOf(division.value.employees.value) else []
  }

  /**
   * The ids of `xs` that `ys` lacks, in the order of `xs`. Both lists the save sends have this
   * form: the ids to add are `Array.from(selected).filter(id => !current.includes(id))`, the
   * ids to remove `current.filter(id => !selected.has(id))`.
   */
  function Missing(xs: seq<int>, ys: seq<int>): (r: seq<int>)
    ensures |r| <= |xs|
  {
    if xs == [] then []
    else
      var init := Missing(xs[..|xs| - 1], ys);
      var last := xs[|xs| - 1];
      if last in ys then init else init + [last]
  }

  /** An id is missing exactly when `xs` has it and `ys` does not; each once when `xs` is a set. */
  lemma {:induction false} MissingMembers(xs: seq<int>, ys: seq<int>)
    ensures forall x :: x in Missing(xs, ys) <==> x in xs && x !in ys
    ensures NoDup(xs) ==> NoDup(Missing(xs, ys))
  {
    if xs != [] {
      var init := xs[..|xs| - 1];
      MissingMembers(init, ys);
      assert xs == init + [xs[|xs| - 1]];
      assert NoDup(xs) ==> NoDup(init) && xs[|xs| - 1] !in init;
    }
  }

  /**
   * The diff is exact: the current members minus those to remove, plus those to add, are the
   * selection; and no id is both added and removed.
   */
  lemma DiffRebuildsSelection(selected: seq<int>, current: seq<int>)
    ensures forall x :: (x in current && x !in Missing(current, selected)) || x in Missing(selected, current)
                        <==> x in selected
    ensures forall x :: x in Missing(selected, current) ==> x !in Missing(current, selected)
  {
    MissingMembers(selected, current);
    MissingMembers(current, selected);
  }

  /** When the selection holds exactly the current members, nothing is added or removed. */
  lemma UnchangedSelectionSendsNothing(selected: seq<int>, current: seq<int>)
    requires forall x :: x in selected <==> x in current
    ensures Missing(selected, current) == [] && Missing(current, selected) == []
  {
    MissingMembers(selected, current);
    MissingMembers(current, selected);
    var toAdd, toRemove := Missing(selected, current), Missing(current, selected);
    assert toAdd == [] || var y := toAdd[0]; y in toAdd;
    assert toRemove == [] || var y := toRemove[0]; y in toRemove;
  }

  /**
   * Whether `saveEmployees` reaches its success path. With a current division, every list it
   * has to send is sent successfully; without one, only an empty grid with an empty selection
   * gets through without throwing.
   */
  predicate SaveSucceeds(divisions: seq<Division>, current: Option<DivisionRef>, selected: seq<int>,
                         assignOk: bool, removeOk: bool)
  {
    if current.None? then divisions == [] && selected == []
    else
      var ids := CurrentIds(FindDivision(divisions, current.value.id));
      (Missing(selected, ids) == [] || assignOk) && (Missing(ids, selected) == [] || removeOk)
  }

  class DivisionPage {
    var divisions: seq<Division>
    var selectedEmployees: seq<int>
    var currentDivision: Option<DivisionRef>
    var allEmployees: seq<Item>
    var employeeFilter: string
    var rows: seq<Row>
    var modalShown: bool
    var calls: seq<DivisionCall>
    var notices: seq<Notice>

    /** `selectedEmployees` is a set. */
    ghost predicate Valid()
      reads this
    {
      NoDup(selectedEmployees)
    }

    /** `divisions` stands for the grid's data source once `loadData` has filled it. */
    constructor(divisions0: seq<Division>)
      ensures Valid() && divisions == divisions0
      ensures selectedEmployees == [] && currentDivision == None && allEmployees == [] && employeeFilter == ""
      ensures rows == [] && !modalShown && calls == [] && notices == []
    {
      divisions := divisions0;
      selectedEmployees := [];
      currentDivision := None;
      allEmployees := [];
      employeeFilter := "";
      rows := [];
      modalShown := false;
      calls := [];
      notices := [];
    }

    /** `renderEmployees`: the filtered employees, checked when selected. */
    method RenderEmployees()
      modifies this
      ensures Shows(rows, FilterItems(allEmployees, employeeFilter), selectedEmployees)
      ensures divisions == old(divisions) && selectedEmployees == old(selectedEmployees)
      ensures currentDivision == old(currentDivision) && allEmployees == old(allEmployees)
      ensures employeeFilter == old(employeeFilter) && modalShown == old(modalShown)
      ensures calls == old(calls) && notices == old(notices)
    {
      rows := RenderRows(FilterItems(allEmployees, employeeFilter), selectedEmployees);
    }

    /**
     * `loadEmployees`: fetch every employee; when the division's row carries an `employees`
     * array (an empty one included), the selection becomes exactly its ids; render.
     */
    method LoadEmployees(divisionId: int, fetched: Option<seq<Item>>)
      requires Valid()
      modifies this
      ensures Valid()
      ensures calls == old(calls) + [GetEmployees]
      ensures divisions == old(divisions) && currentDivision == old(currentDivision)
      ensures employeeFilter == old(employeeFilter) && modalShown == old(modalShown)
      ensures fetched.None? ==>
                allEmployees == old(allEmployees) && selectedEmployees == old(selectedEmployees) && rows == old(rows)
                && notices == old(notices) + [Notice("Failed to load employees", Error)]
      ensures fetched.Some? ==>
                var division := FindDivision(divisions, divisionId);
                allEmployees == fetched.value && notices == old(notices)
                && selectedEmployees == (if division.Some? && division.value.employees.Some?
                                         then FromSeq(IdsOf(division.value.employees.value))
                                         else old(selectedEmployees))
                && Shows(rows, FilterItems(allEmployees, employeeFilter), selectedEmployees)
    {
      calls := calls + [GetEmployees];
      if fetched.None? {
        notices := notices + [Notice("Failed to load employees", Error)];
        return;
      }
      allEmployees := fetched.value;
      var division := FindDivision(divisions, divisionId);
      if division.Some? && division.value.employees.Some? {
        selectedEmployees := FromSeq(IdsOf(division.value.employees.value));
      }
      RenderEmployees();
    }

    /** `show.bs.modal`: remember the division from the button, then load the employees. */
    method OnShow(divisionId: int, divisionName: string, fetched: Option<seq<Item>>)
      requires Valid()
      modifies this
      ensures Valid()
      ensures currentDivision == Some(DivisionRef(divisionId, divisionName)) && modalShown
      ensures calls == old(calls) + [GetEmployees]
      ensures divisions == old(divisions) && employeeFilter == old(employeeFilter)
      ensures fetched.None? ==> selectedEmployees == old(selectedEmployees)
      ensures fetched.Some? ==>
                var division := FindDivision(divisions, divisionId);
                division.Some? && division.value.employees.Some? ==>
                  forall id :: id in selectedEmployees <==> id in IdsOf(division.value.employees.value)
    {
      modalShown := true;
      currentDivision := Some(DivisionRef(divisionId, divisionName));
      LoadEmployees(divisionId, fetched);
    }

    /** `hide.bs.modal`: clear the selection, the filter and the list. */
    method OnHide()
      modifies this
      ensures Valid()
      ensures selectedEmployees == [] && employeeFilter == "" && rows == [] && !modalShown
      ensures divisions == old(divisions) && currentDivision == old(currentDivision)
      ensures allEmployees == old(allEmployees) && calls == old(calls) && notices == old(notices)
    {
      selectedEmployees := [];
      employeeFilter := "";
      rows := [];
      modalShown := false;
    }

    /** The search box stores the lowercased text and re-renders. */
    method Search(typed: string)
      modifies this
      ensures employeeFilter == SearchFilter(typed)
      ensures Shows(rows, FilterItems(allEmployees, employeeFilter), selectedEmployees)
      ensures divisions == old(divisions) && selectedEmployees == old(selectedEmployees)
      ensures currentDivision == old(currentDivision) && allEmployees == old(allEmployees)
      ensures modalShown == old(modalShown) && calls == old(calls) && notices == old(notices)
    {
      employeeFilter := SearchFilter(typed);
      RenderEmployees();
    }

    /** An employee checkbox changed: add its id when checked, delete it when unchecked. */
    method Toggle(employeeId: int, checked: bool)
      requires Valid()
      modifies this
      ensures Valid()
      ensures selectedEmployees == if checked then Add(old(selectedEmployees), employeeId)
                                   else Delete(old(selectedEmployees), employeeId)
      ensures forall id :: id != employeeId ==> (id in selectedEmployees <==> id in old(selectedEmployees))
      ensures (employeeId in selectedEmployees) == checked
      ensures divisions == old(divisions) && currentDivision == old(currentDivision)
      ensures allEmployees == old(allEmployees) && employeeFilter == old(employeeFilter) && rows == old(rows)
      ensures modalShown == old(modalShown) && calls == old(calls) && notices == old(notices)
    {
      if checked {
        selectedEmployees := Add(selectedEmployees, employeeId);
      } else {
        selectedEmployees := Delete(selectedEmployees, employeeId);
      }
    }

    /**
     * `saveEmployees`: compare the selection with the division's current members, send the ids
     * to add (if any), then the ids to remove (if any); a failed call ends the save with the
     * failure toast, so a failed assignment skips the removal. On success the dialog closes,
     * the grid reloads and success is reported. Closing a shown dialog runs its `hide.bs.modal`
     * handler at once, which is `OnHide`.
     *
     * Without a current division, `find`'s callback reads its id and throws as soon as the grid
     * has a row; with an empty grid the whole selection is to add, and sending it reads the id
     * and throws; only an empty selection then gets through, with nothing to send.
     */
    method SaveEmployees(assignOk: bool, removeOk: bool)
      requires Valid()
      modifies this
      ensures Valid()
      ensures divisions == old(divisions) && currentDivision == old(currentDivision)
      ensures allEmployees == old(allEmployees)
      ensures if SaveSucceeds(divisions, old(currentDivision), old(selectedEmployees), assignOk, removeOk)
                 && old(modalShown)
              then selectedEmployees == [] && employeeFilter == "" && rows == []
              else selectedEmployees == old(selectedEmployees) && employeeFilter == old(employeeFilter)
                   && rows == old(rows)
      ensures old(currentDivision).None? ==>
                if divisions != [] || old(selectedEmployees) != [] then
                  calls == old(calls) && modalShown == old(modalShown)
                  && notices == old(notices) + [Notice("Failed to assign employees", Error)]
                else
                  calls == old(calls) + [GetDivisions] && !modalShown
                  && notices == old(notices) + [Notice("Employees assigned successfully", Success)]
      ensures old(currentDivision).Some? ==>
                var id := old(currentDivision).value.id;
                var current := CurrentIds(FindDivision(divisions, id));
                var toAdd := Missing(old(selectedEmployees), current);
                var toRemove := Missing(current, old(selectedEmployees));
                var adding := if toAdd != [] then [AssignEmployees(id, toAdd)] else [];
                var removing := if toRemove != [] then [RemoveEmployees(id, toRemove)] else [];
                if toAdd != [] && !assignOk then
                  calls == old(calls) + adding && modalShown == old(modalShown)
                  && notices == old(notices) + [Notice("Failed to assign employees", Error)]
                else if toRemove != [] && !removeOk then
                  calls == old(calls) + adding + removing && modalShown == old(modalShown)
                  && notices == old(notices) + [Notice("Failed to assign employees", Error)]
                else
                  calls == old(calls) + adding + removing + [GetDivisions] && !modalShown
                  && notices == old(notices) + [Notice("Employees assigned successfully", Success)]
    {
      if currentDivision.None? {
        if divisions != [] || selectedEmployees != [] {
          notices := notices + [Notice("Failed to assign employees", Error)];
          return;
        }
        CloseAfterSave();
        return;
      }
      var id := currentDivision.value.id;
      var current := CurrentIds(FindDivision(divisions, id));
      var toAdd := Missing(selectedEmployees, current);
      var toRemove := Missing(current, selectedEmployees);
      SendDiff(id, toAdd, toRemove, assignOk, removeOk);
    }

    /**
     * The sending part of `saveEmployees` for division `id`: the ids to add (if any), then the
     * ids to remove (if any). A failed call ends it with the failure toast; otherwise it closes.
     */
    method SendDiff(id: int, toAdd: seq<int>, toRemove: seq<int>, assignOk: bool, removeOk: bool)
      requires Valid()
      modifies this
      ensures Valid()
      ensures divisions == old(divisions) && currentDivision == old(currentDivision)
      ensures allEmployees == old(allEmployees)
      ensures if (toAdd == [] || assignOk) && (toRemove == [] || removeOk) && old(modalShown)
              then selectedEmployees == [] && employeeFilter == "" && rows == []
              else selectedEmployees == old(selectedEmployees) && employeeFilter == old(employeeFilter)
                   && rows == old(rows)
      ensures var adding := if toAdd != [] then [AssignEmployees(id, toAdd)] else [];
              var removing := if toRemove != [] then [RemoveEmployees(id, toRemove)] else [];
              if toAdd != [] && !assignOk then
                calls == old(calls) + adding && modalShown == old(modalShown)
                && notices == old(notices) + [Notice("Failed to assign employees", Error)]
              else if toRemove != [] && !removeOk then
                calls == old(calls) + adding + removing && modalShown == old(modalShown)
                && notices == old(notices) + [Notice("Failed to assign employees", Error)]
              else
                calls == old(calls) + adding + removing + [GetDivisions] && !modalShown
                && notices == old(notices) + [Notice("Employees assigned successfully", Success)]
    {
      if toAdd != [] {
        calls := calls + [AssignEmployees(id, toAdd)];
        if !assignOk {
          notices := notices + [Notice("Failed to assign employees", Error)];
          return;
        }
      }
      if toRemove != [] {
        calls := calls + [RemoveEmployees(id, toRemove)];
        if !removeOk {
          notices := notices + [Notice("Failed to assign employees", Error)];
          return;
        }
      }
      CloseAfterSave();
    }

    /**
     * The success path of `saveEmployees`: `.modal('hide')` (whose `hide.bs.modal` handler runs
     * at once when the dialog is shown), the grid reload and the success toast.
     */
    method CloseAfterSave()
      requires Valid()
      modifies this
      ensures Valid()
      ensures !modalShown
      ensures if old(modalShown) then selectedEmployees == [] && employeeFilter == "" && rows == []
              else selectedEmployees == old(selectedEmployees) && employeeFilter == old(employeeFilter)
                   && rows == old(rows)
      ensures divisions == old(divisions) && currentDivision == old(currentDivision)
      ensures allEmployees == old(allEmployees)
      ensures calls == old(calls) + [GetDivisions]
      ensures notices == old(notices) + [Notice("Employees assigned successfully", Success)]
    {
      if modalShown {
        OnHide();
      }
      calls := calls + [GetDivisions];
      notices := notices + [Notice("Employees assigned successfully", Success)];
    }
  }
}
