/**
 * The division dialog of the employee page (`EmployeePage`): a radio list of divisions, the
 * chosen one in `selectedDivision`, and a save that moves the employee out of an old division
 * before assigning the chosen one.
 */
module EmployeePage {
  import opened Wrappers
  import opened Search
  import opened Pages

  /** A grid row: an employee and the division object it carries, if any. */
  datatype EmployeeRow = EmployeeRow(id: int, name: string, division: Option<Item>)

  /** `{ id, name }` read from the button that opened the dialog. */
  datatype EmployeeRef = EmployeeRef(id: int, name: string)

  /** The API calls the dialog makes. */
  datatype EmployeeCall = GetDivisions | RemoveDivision(employeeId: int)
                        | AssignDivision(employeeId: int, divisionId: int) | GetEmployees

  function RowId(row: EmployeeRow): int { row.id }

  /** `dataSource.find(e => e.id === id)`: the first row with that id. */
  function FindRow(rows: seq<EmployeeRow>, id: int): Option<EmployeeRow> {
    FirstElement(rows, RowId, id)
  }

  /**
   * `currentEmployee?.division?.id && currentEmployee.division.id !== selectedId`: the old
   * division is removed first only when the row has one with a truthy (non-zero) id other
   * than the chosen one.
   */
  predicate NeedsRemoval(row: Option<EmployeeRow>, selectedId: int) {
    row.Some? && row.value.division.Some? && row.value.division.value.id != 0
    && row.value.division.value.id != selectedId
  }

  class EmployeePage {
    var employees: seq<EmployeeRow>
    var selectedDivision: Option<Item>
    var currentEmployee: Option<EmployeeRef>
    var allDivisions: seq<Item>
    var divisionFilter: string
    var rows: seq<Row>
    var modalShown: bool
    var calls: seq<EmployeeCall>
    var notices: seq<Notice>

    /** `employees` stands for the grid's data source once `loadData` has filled it. */
    constructor(employees0: seq<EmployeeRow>)
      ensures employees == employees0
      ensures selectedDivision == None && currentEmployee == None && allDivisions == [] && divisionFilter == ""
      ensures rows == [] && !modalShown && calls == [] && notices == []
    {
      employees := employees0;
      selectedDivision := None;
      currentEmployee := None;
      allDivisions := [];
      divisionFilter := "";
      rows := [];
      modalShown := false;
      calls := [];
      notices := [];
    }

    /** `renderDivisions`: the filtered divisions, the chosen one marked by id. */
    method RenderDivisions()
      modifies this
      ensures Shows(rows, FilterItems(allDivisions, divisionFilter), SelectedIds(selectedDivision))
      ensures employees == old(employees) && selectedDivision == old(selectedDivision)
      ensures currentEmployee == old(currentEmployee) && allDivisions == old(allDivisions)
      ensures divisionFilter == old(divisionFilter) && modalShown == old(modalShown)
      ensures calls == old(calls) && notices == old(notices)
    {
      rows := RenderRows(FilterItems(allDivisions, divisionFilter), SelectedIds(selectedDivision));
    }

    /**
     * `loadDivisions`: fetch every division; preselect the employee's current division when the
     * row has one, and leave the selection unchanged otherwise; render.
     */
    method LoadDivisions(employeeId: int, fetched: Option<seq<Item>>)
      modifies this
      ensures calls == old(calls) + [GetDivisions]
      ensures employees == old(employees) && currentEmployee == old(currentEmployee)
      ensures divisionFilter == old(divisionFilter) && modalShown == old(modalShown)
      ensures fetched.None? ==>
                allDivisions == old(allDivisions) && selectedDivision == old(selectedDivision) && rows == old(rows)
                && notices == old(notices) + [Notice("Failed to load divisions", Error)]
      ensures fetched.Some? ==>
                var row := FindRow(employees, employeeId);
                allDivisions == fetched.value && notices == old(notices)
                && selectedDivision == (if row.Some? && row.value.division.Some? then row.value.division
                                        else old(selectedDivision))
                && Shows(rows, FilterItems(allDivisions, divisionFilter), SelectedIds(selectedDivision))
    {
      calls := calls + [GetDivisions];
      if fetched.None? {
        notices := notices + [Notice("Failed to load divisions", Error)];
        return;
      }
      allDivisions := fetched.value;
      var row := FindRow(employees, employeeId);
      if row.Some? && row.value.division.Some? {
        selectedDivision := row.value.division;
      }
      RenderDivisions();
    }

    /** `show.bs.modal`: remember the employee from the button, then load the divisions. */
    method OnShow(employeeId: int, employeeName: string, fetched: Option<seq<Item>>)
      modifies this
      ensures currentEmployee == Some(EmployeeRef(employeeId, employeeName)) && modalShown
      ensures calls == old(calls) + [GetDivisions]
      ensures employees == old(employees) && divisionFilter == old(divisionFilter)
      ensures fetched.None? ==> selectedDivision == old(selectedDivision)
      ensures fetched.Some? ==>
                var row := FindRow(employees, employeeId);
                selectedDivision == (if row.Some? && row.value.division.Some? then row.value.division
                                     else old(selectedDivision))
    {
      modalShown := true;
      currentEmployee := Some(EmployeeRef(employeeId, employeeName));
      LoadDivisions(employeeId, fetched);
    }

    /** `hide.bs.modal`: forget the chosen division, clear the filter and the list. */
    method OnHide()
      modifies this
      ensures selectedDivision == None && divisionFilter == "" && rows == [] && !modalShown
      ensures employees == old(employees) && currentEmployee == old(currentEmployee)
      ensures allDivisions == old(allDivisions) && calls == old(calls) && notices == old(notices)
    {
      selectedDivision := None;
      divisionFilter := "";
      rows := [];
      modalShown := false;
    }

    /** The search box stores the lowercased text and re-renders. */
    method Search(typed: string)
      modifies this
      ensures divisionFilter == SearchFilter(typed)
      ensures Shows(rows, FilterItems(allDivisions, divisionFilter), SelectedIds(selectedDivision))
      ensures employees == old(employees) && selectedDivision == old(selectedDivision)
      ensures currentEmployee == old(currentEmployee) && allDivisions == old(allDivisions)
      ensures modalShown == old(modalShown) && calls == old(calls) && notices == old(notices)
    {
      divisionFilter := SearchFilter(typed);
      RenderDivisions();
    }

    /** A division item changed: it becomes the chosen one. */
    method Choose(division: Item)
      modifies this
      ensures selectedDivision == Some(division)
      ensures employees == old(employees) && currentEmployee == old(currentEmployee)
      ensures allDivisions == old(allDivisions) && divisionFilter == old(divisionFilter) && rows == old(rows)
      ensures modalShown == old(modalShown) && calls == old(calls) && notices == old(notices)
    {
      selectedDivision := Some(division);
    }

    /**
     * `saveDivision`: without an employee or a chosen division, warn and stop. Otherwise remove
     * the old division when `NeedsRemoval` holds, then assign the chosen one; a failed removal
     * skips the assignment. On success the dialog closes, the grid reloads, success is reported.
     * Closing a shown dialog runs its `hide.bs.modal` handler at once, which is `OnHide`.
     */
    method SaveDivision(removeOk: bool, assignOk: bool)
      modifies this
      ensures employees == old(employees) && currentEmployee == old(currentEmployee)
      ensures allDivisions == old(allDivisions)
      ensures var saved := old(currentEmployee).Some? && old(selectedDivision).Some? && assignOk
                           && (removeOk || !NeedsRemoval(FindRow(employees, old(currentEmployee).value.id),
                                                         old(selectedDivision).value.id));
              if saved && old(modalShown) then selectedDivision == None && divisionFilter == "" && rows == []
              else selectedDivision == old(selectedDivision) && divisionFilter == old(divisionFilter) && rows == old(rows)
      ensures old(currentEmployee).None? || old(selectedDivision).None? ==>
                calls == old(calls) && modalShown == old(modalShown)
                && notices == old(notices) + [Notice("Please select a division", Warning)]
      ensures old(currentEmployee).Some? && old(selectedDivision).Some? ==>
                var employeeId := old(currentEmployee).value.id;
                var divisionId := old(selectedDivision).value.id;
                var removal := if NeedsRemoval(FindRow(employees, employeeId), divisionId)
                               then [RemoveDivision(employeeId)] else [];
                if removal != [] && !removeOk then
                  calls == old(calls) + removal && modalShown == old(modalShown)
                  && notices == old(notices) + [Notice("Failed to assign division", Error)]
                else if !assignOk then
                  calls == old(calls) + removal + [AssignDivision(employeeId, divisionId)]
                  && modalShown == old(modalShown)
                  && notices == old(notices) + [Notice("Failed to assign division", Error)]
                else
                  calls == old(calls) + removal + [AssignDivision(employeeId, divisionId), GetEmployees]
                  && !modalShown
                  && notices == old(notices) + [Notice("Division assigned successfully", Success)]
    {
      if currentEmployee.None? || selectedDivision.None? {
        notices := notices + [Notice("Please select a division", Warning)];
        return;
      }
      var employeeId := currentEmployee.value.id;
      var divisionId := selectedDivision.value.id;
      var row := FindRow(employees, employeeId);
      if NeedsRemoval(row, divisionId) {
        calls := calls + [RemoveDivision(employeeId)];
        if !removeOk {
          notices := notices + [Notice("Failed to assign division", Error)];
          return;
        }
      }
      calls := calls + [AssignDivision(employeeId, divisionId)];
      if !assignOk {
        notices := notices + [Notice("Failed to assign division", Error)];
        return;
      }
      if modalShown {
        OnHide();
      }
      calls := calls + [GetEmployees];
      notices := notices + [Notice("Division assigned successfully", Success)];
    }
  }
}
