/**
 * What the assignment dialogs of the page controllers (division, employee, region, office,
 * product) share: the toast notifications, the lowercased search filter, the entries a dialog
 * lists (an id, a name and an optional second line: a description, or an employee's email),
 * the case-insensitive filter over them and the rendered list with its selection marks.
 */
module Pages {
  import opened Wrappers
  import opened Text

  /** The `type` argument of `DevExpress.ui.notify`. */
  datatype NoticeKind = Success | Error | Warning

  /** One `DevExpress.ui.notify(message, kind, ...)` call. */
  datatype Notice = Notice(message: string, kind: NoticeKind)

  /** The search handlers store `e.target.value.toLowerCase()`. */
  function SearchFilter(typed: string): (r: string)
    ensures |r| == |typed|
    ensures forall i :: 0 <= i < |r| ==> !('A' <= r[i] <= 'Z')
  {
    ToLower(typed)
  }

  /** Typing the same text in another case gives the same filter. */
  lemma SearchFilterIgnoresCase(typed: string)
    ensures SearchFilter(ToUpper(typed)) == SearchFilter(typed)
  {
    ToLowerIdempotentAndIgnoresCase(typed);
  }

  /** Lowercasing the filter a second time changes nothing. */
  lemma SearchFilterIdempotent(typed: string)
    ensures SearchFilter(SearchFilter(typed)) == SearchFilter(typed)
  {
    ToLowerIdempotentAndIgnoresCase(typed);
  }

  /** `text.toLowerCase().includes(filter)`. */
  predicate Matches(text: string, filter: string) {
    Contains(ToLower(text), filter)
  }

  /** An entry of a dialog list: `detail` is the optional `description` (or `email`). */
  datatype Item = Item(id: int, name: string, detail: Option<string>)

  /**
   * `item.name.toLowerCase().includes(f) || item.detail?.toLowerCase().includes(f)`: an absent
   * detail gives `undefined`, which does not match.
   */
  predicate ItemMatches(item: Item, filter: string) {
    Matches(item.name, filter) || (item.detail.Some? && Matches(item.detail.value, filter))
  }

  /** `items.filter(...)` with the predicate above, in list order. */
  function FilterItems(items: seq<Item>, filter: string): (r: seq<Item>)
    ensures forall x :: x in r <==> x in items && ItemMatches(x, filter)
    ensures |r| <= |items|
  {
    if items == [] then []
    else (if ItemMatches(items[0], filter) then [items[0]] else []) + FilterItems(items[1..], filter)
  }

  /** When every entry matches, the filter keeps the whole list in its order. */
  lemma {:induction false} FilterKeepsMatchingList(items: seq<Item>, filter: string)
    requires forall k :: 0 <= k < |items| ==> ItemMatches(items[k], filter)
    ensures FilterItems(items, filter) == items
  {
    if items != [] {
      FilterKeepsMatchingList(items[1..], filter);
      assert [items[0]] + items[1..] == items;
    }
  }

  /** The empty filter (the initial one, and the one hiding restores) lists every entry. */
  lemma EmptyFilterKeepsAll(items: seq<Item>)
    ensures FilterItems(items, "") == items
  {
    forall k | 0 <= k < |items|
      ensures ItemMatches(items[k], "")
    {
      ContainsEmpty(ToLower(items[k].name));
    }
    FilterKeepsMatchingList(items, "");
  }

  /** A rendered entry: the `selected` class and the checked input. */
  datatype Row = Row(item: Item, selected: bool)

  /** `rows` is what rendering `visible` shows, marking the entries whose id is in `selectedIds`. */
  ghost predicate Shows(rows: seq<Row>, visible: seq<Item>, selectedIds: seq<int>) {
    |rows| == |visible| && forall k :: 0 <= k < |rows| ==> rows[k] == Row(visible[k], visible[k].id in selectedIds)
  }

  /** The ids a radio selection (`this.selectedX?.id === item.id`) marks: none when nothing is selected. */
  function SelectedIds(selection: Option<Item>): (r: seq<int>)
    ensures forall id :: id in r <==> selection.Some? && selection.value.id == id
  {
    if selection.Some? then [selection.value.id] else []
  }

  /**
   * `filtered.forEach(item => list.append(createItem(item, isSelected)))`: one row per visible
   * entry, in order, marked exactly when its id is among `selectedIds`. An empty result is the
   * "nothing found" message.
   */
  method RenderRows(visible: seq<Item>, selectedIds: seq<int>) returns (rows: seq<Row>)
    ensures Shows(rows, visible, selectedIds)
    ensures forall k :: 0 <= k < |rows| ==> (rows[k].selected <==> visible[k].id in selectedIds)
  {
    rows := [];
    for i := 0 to |visible|
      invariant |rows| == i
      invariant forall k :: 0 <= k < i ==> rows[k] == Row(visible[k], visible[k].id in selectedIds)
    {
      rows := rows + [Row(visible[i], visible[i].id in selectedIds)];
    }
  }
}
