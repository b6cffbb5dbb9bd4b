/**
 * The permission dialog of the role page (`RolePage`): the permissions of all roles in the
 * grid, grouped into fixed categories by name, a checkbox per permission and a select-all
 * checkbox per category, the checked ids in the `selectedPermissions` set, and a save that
 * sends the chosen permissions as the role's new list.
 */
module RolePage {
  import opened Wrappers
  import opened Text
  import opened JsSet
  import opened Pages

  datatype Permission = Permission(id: int, name: string, description: string)

  /** A grid row; `permissions` is absent when the API sent none. */
  datatype Role = Role(id: int, name: string, description: string, permissions: Option<seq<Permission>>)

  // ---------------------------------------------------------------- categories

  /** The fixed category table of `getPermissionCategory`, in its declaration order. */
  const Categories: seq<(string, seq<string>)> := [
    ("Permission", ["View Permissions", "Manage Permissions"]),
    ("Role", ["View Roles", "Manage Roles", "Delete Roles"]),
    ("User", ["View Users", "Manage Users", "Delete Users"]),
    ("Menu", ["View Menus", "Manage Menus"]),
    ("Zone", ["View Zones", "Manage Zones", "Delete Zones"]),
    ("Order", ["View Orders", "Create Orders", "Update Orders", "Delete Orders", "Approve Orders"]),
    ("Payment", ["View Payments", "Process Payments", "Cancel Payments"]),
    ("Task", ["View Tasks", "Manage Tasks", "Delete Tasks"]),
    ("Finance", ["View Cash Flow", "Manage Cash Flow", "View Petty Cash", "Create Petty Cash", "Approve Petty Cash"])
  ]

  /** No permission name is listed under two categories, and "Other" is not a category. */
  lemma CategoriesDisjoint()
    ensures forall j, k, n :: 0 <= j < k < |Categories| && n in Categories[k].1 ==> n !in Categories[j].1
    ensures forall k :: 0 <= k < |Categories| ==> Categories[k].0 != "Other"
  {
  }

  /** The first entry of `cats` whose list contains `name`. */
  function FirstCategory(cats: seq<(string, seq<string>)>, name: string): (r: Option<nat>)
    ensures r.Some? ==> r.value < |cats| && name in cats[r.value].1
    ensures r.Some? ==> forall j :: 0 <= j < r.value ==> name !in cats[j].1
    ensures r.None? ==> forall j :: 0 <= j < |cats| ==> name !in cats[j].1
  {
    if cats == [] then None
    else if name in cats[0].1 then Some(0)
    else match FirstCategory(cats[1..], name)
      case Some(k) => Some(k + 1)
      case None => None
  }

  /** `getPermissionCategory`: the category whose list contains the name, else "Other". */
  function GetPermissionCategory(name: string): string {
    match FirstCategory(Categories, name)
    case Some(k) => Categories[k].0
    case None => "Other"
  }

  /** The answer is "Other" exactly for names no list contains, and otherwise a category listing the name. */
  lemma GetPermissionCategoryIff(name: string)
    ensures GetPermissionCategory(name) == "Other" <==> forall k :: 0 <= k < |Categories| ==> name !in Categories[k].1
    ensures GetPermissionCategory(name) != "Other" ==>
              exists k :: 0 <= k < |Categories| && Categories[k].0 == GetPermissionCategory(name) && name in Categories[k].1
  {
    CategoriesDisjoint();
  }

  /** Because the lists are disjoint, a listed name gets exactly the category that lists it. */
  lemma CategoryOfListedName(k: nat, name: string)
    requires k < |Categories| && name in Categories[k].1
    ensures GetPermissionCategory(name) == Categories[k].0
  {
    CategoriesDisjoint();
  }

  /** Two names from the table. */
  lemma CategoryExamples()
    ensures GetPermissionCategory("Delete Zones") == "Zone"
    ensures GetPermissionCategory("Approve Petty Cash") == "Finance"
  {
    CategoryOfListedName(4, "Delete Zones");
    CategoryOfListedName(8, "Approve Petty Cash");
  }

  // ---------------------------------------------------------------- grouping

  /*
   * The grouping below takes the categorisation as a parameter `category`; the page always
   * passes `GetPermissionCategory`. Keeping it abstract keeps the category table out of the
   * grouping proofs.
   */

  /** One entry of the object `groupPermissionsByCategory` builds. */
  datatype Group = Group(category: string, members: seq<Permission>)

  /** The category of each permission, in input order. */
  function CategoryNames(ps: seq<Permission>, category: string -> string): (r: seq<string>)
    ensures |r| == |ps|
    ensures forall k :: 0 <= k < |ps| ==> r[k] == category(ps[k].name)
  {
    seq(|ps|, k requires 0 <= k < |ps| => category(ps[k].name))
  }

  /** The keys of the grouped object, in insertion order. */
  function Keys(groups: seq<Group>): (r: seq<string>)
    ensures |r| == |groups|
    ensures forall k :: 0 <= k < |groups| ==> r[k] == groups[k].category
  {
    seq(|groups|, k requires 0 <= k < |groups| => groups[k].category)
  }

  /** `ps.filter(p => category(p.name) === c)`, in input order. */
  function InCategory(ps: seq<Permission>, category: string -> string, c: string): (r: seq<Permission>)
    ensures |r| <= |ps|
    ensures forall p :: p in r ==> p in ps && category(p.name) == c
  {
    if ps == [] then []
    else
      var init := InCategory(ps[..|ps| - 1], category, c);
      var last := ps[|ps| - 1];
      if category(last.name) == c then init + [last] else init
  }

  /** A permission is in the category's list exactly when it is in the input with that category. */
  lemma {:induction false} InCategoryMembers(ps: seq<Permission>, category: string -> string, c: string)
    ensures forall p :: p in InCategory(ps, category, c) <==> p in ps && category(p.name) == c
  {
    if ps != [] {
      InCategoryMembers(ps[..|ps| - 1], category, c);
      assert ps == ps[..|ps| - 1] + [ps[|ps| - 1]];
    }
  }

  /** Filtering `ps + [p]` extends the filtered `ps` by `p` when it has the category. */
  lemma InCategorySnoc(ps: seq<Permission>, p: Permission, category: string -> string, c: string)
    ensures InCategory(ps + [p], category, c) == InCategory(ps, category, c) + (if category(p.name) == c then [p] else [])
  {
    assert (ps + [p])[..|ps|] == ps;
  }

  /** Index of the group keyed `c`, or `|groups|` when there is none (`!grouped[category]`). */
  function GroupIndex(groups: seq<Group>, c: string): (r: nat)
    ensures r <= |groups|
    ensures r < |groups| ==> groups[r].category == c
    ensures r == |groups| ==> c !in Keys(groups)
  {
    if groups == [] then 0
    else if groups[0].category == c then 0
    else
      assert Keys(groups)[1..] == Keys(groups[1..]);
      1 + GroupIndex(groups[1..], c)
  }

  /** `groups` is the grouping of `ps`: keys in first-appearance order, each holding its permissions in order. */
  ghost predicate GroupedAs(groups: seq<Group>, ps: seq<Permission>, category: string -> string) {
    && Keys(groups) == FromSeq(CategoryNames(ps, category))
    && forall g :: 0 <= g < |groups| ==> groups[g].members == InCategory(ps, category, groups[g].category)
  }

  /** Appending a permission appends its category to the key list unless it is already there. */
  lemma NamesSnoc(ps: seq<Permission>, p: Permission, category: string -> string)
    ensures FromSeq(CategoryNames(ps + [p], category)) == Add(FromSeq(CategoryNames(ps, category)), category(p.name))
  {
    var names := CategoryNames(ps, category);
    assert CategoryNames(ps + [p], category) == names + [category(p.name)];
    assert (names + [category(p.name)])[..|ps|] == names;
  }

  /** A permission of a category not seen yet opens a new group at the end. */
  lemma {:induction false} NewGroupStep(groups: seq<Group>, ps: seq<Permission>, i: nat, category: string -> string)
    requires i < |ps| && GroupedAs(groups, ps[..i], category)
    requires category(ps[i].name) !in Keys(groups)
    ensures GroupedAs(groups + [Group(category(ps[i].name), [ps[i]])], ps[..i + 1], category)
  {
    var p := ps[i];
    var c := category(p.name);
    var q := ps[..i];
    assert ps[..i + 1] == q + [p];
    NamesSnoc(q, p, category);
    forall d {
      InCategorySnoc(q, p, category, d);
    }
    InCategoryMembers(q, category, c);
    assert InCategory(q, category, c) == [] by {
      var r := InCategory(q, category, c);
      assert r == [] || var y := r[0]; y in r;
    }
    assert Keys(groups + [Group(c, [p])]) == Keys(groups) + [c];
  }

  /** A permission of a category already seen is pushed onto that group. */
  lemma {:induction false} ExistingGroupStep(groups: seq<Group>, ps: seq<Permission>, i: nat, category: string -> string, g: nat)
    requires i < |ps| && GroupedAs(groups, ps[..i], category)
    requires g < |groups| && groups[g].category == category(ps[i].name)
    ensures GroupedAs(groups[g := Group(category(ps[i].name), groups[g].members + [ps[i]])], ps[..i + 1], category)
  {
    var p := ps[i];
    var c := category(p.name);
    var q := ps[..i];
    assert ps[..i + 1] == q + [p];
    var after := groups[g := Group(c, groups[g].members + [p])];
    NamesSnoc(q, p, category);
    forall d {
      InCategorySnoc(q, p, category, d);
    }
    assert Keys(after) == Keys(groups);
    assert c in Keys(groups);
  }

  /**
   * `groupPermissionsByCategory`: the keys are the categories in order of first appearance,
   * each once, and each key holds exactly the input permissions of that category, in input
   * order.
   */
  method GroupPermissionsByCategory(ps: seq<Permission>, category: string -> string) returns (groups: seq<Group>)
    ensures Keys(groups) == FromSeq(CategoryNames(ps, category))
    ensures forall g :: 0 <= g < |groups| ==> groups[g].members == InCategory(ps, category, groups[g].category)
  {
    groups := [];
    for i := 0 to |ps|
      invariant GroupedAs(groups, ps[..i], category)
    {
      var c := category(ps[i].name);
      var g := GroupIndex(groups, c);
      if g == |groups| {
        NewGroupStep(groups, ps, i, category);
        groups := groups + [Group(c, [ps[i]])];
      } else {
        ExistingGroupStep(groups, ps, i, category, g);
        groups := groups[g := Group(c, groups[g].members + [ps[i]])];
      }
    }
    assert ps[..|ps|] == ps;
  }

  /** What the grouping promises about each permission: no group is empty, and each permission is in its category's group and no other. */
  lemma GroupsPartition(groups: seq<Group>, ps: seq<Permission>, category: string -> string)
    requires GroupedAs(groups, ps, category)
    ensures NoDup(Keys(groups))
    ensures forall g :: 0 <= g < |groups| ==> groups[g].members != []
    ensures forall g, p :: 0 <= g < |groups| && p in groups[g].members ==> p in ps && category(p.name) == groups[g].category
    ensures forall p :: p in ps ==> exists g :: 0 <= g < |groups| && groups[g].category == category(p.name) && p in groups[g].members
  {
    forall g | 0 <= g < |groups|
      ensures groups[g].members != []
      ensures forall p :: p in groups[g].members ==> p in ps && category(p.name) == groups[g].category
    {
      var c := groups[g].category;
      InCategoryMembers(ps, category, c);
      assert Keys(groups)[g] == c;
      assert c in CategoryNames(ps, category);
      var k :| 0 <= k < |ps| && CategoryNames(ps, category)[k] == c;
      assert ps[k] in groups[g].members;
    }
    forall p | p in ps
      ensures exists g :: 0 <= g < |groups| && groups[g].category == category(p.name) && p in groups[g].members
    {
      var c := category(p.name);
      var k :| 0 <= k < |ps| && ps[k] == p;
      assert CategoryNames(ps, category)[k] == c;
      assert c in Keys(groups);
      var g :| 0 <= g < |groups| && Keys(groups)[g] == c;
      InCategoryMembers(ps, category, c);
    }
  }

  // ---------------------------------------------------------------- select-all checkboxes

  /** `permissions.map(p => p.id)`. */
  function PermissionIds(ps: seq<Permission>): (r: seq<int>)
    ensures |r| == |ps|
    ensures forall k :: 0 <= k < |ps| ==> r[k] == ps[k].id
  {
    seq(|ps|, k requires 0 <= k < |ps| => ps[k].id)
  }

  /** `[...selected].filter(id => ids.has(id))`, in selection order. */
  function SelectedAmong(selected: seq<int>, ids: seq<int>): (r: seq<int>)
    ensures |r| <= |selected|
  {
    if selected == [] then []
    else
      var init := SelectedAmong(selected[..|selected| - 1], ids);
      var last := selected[|selected| - 1];
      if last in ids then init + [last] else init
  }

  /** The selected ids among `ids` are exactly the ids both lists contain. */
  lemma {:induction false} SelectedAmongMembers(selected: seq<int>, ids: seq<int>)
    ensures forall x :: x in SelectedAmong(selected, ids) <==> x in selected && x in ids
  {
    if selected != [] {
      SelectedAmongMembers(selected[..|selected| - 1], ids);
      assert selected == selected[..|selected| - 1] + [selected[|selected| - 1]];
    }
  }

  /** When no selected id is among `ids`, none is kept. */
  lemma {:induction false} NoneAmong(selected: seq<int>, ids: seq<int>)
    requires forall x :: x in ids ==> x !in selected
    ensures SelectedAmong(selected, ids) == []
  {
    if selected != [] {
      NoneAmong(selected[..|selected| - 1], ids);
      assert selected[|selected| - 1] in selected;
    }
  }

  /** The state `updateSelectAllCheckboxes` gives the select-all box of a category. */
  datatype Checkbox = Checkbox(category: string, checked: bool, indeterminate: bool)

  /** `new Set([...selected].filter(id => categoryIds.has(id))).size`. */
  function SelectedCount(selected: seq<int>, members: seq<Permission>): nat {
    |FromSeq(SelectedAmong(selected, PermissionIds(members)))|
  }

  /**
   * The box is checked when the selected ids of the group are as many as its permissions, and
   * indeterminate when some but fewer are; it is never both.
   */
  function CheckboxOf(group: Group, selected: seq<int>): (r: Checkbox)
    ensures r.category == group.category
    ensures !(r.checked && r.indeterminate)
  {
    var n := SelectedCount(selected, group.members);
    Checkbox(group.category, n == |group.members|, 0 < n < |group.members|)
  }

  /** When every permission of a group with distinct ids is selected, its box is checked and not indeterminate. */
  lemma AllSelectedChecksBox(group: Group, selected: seq<int>)
    requires NoDup(PermissionIds(group.members))
    requires forall p :: p in group.members ==> p.id in selected
    ensures CheckboxOf(group, selected).checked && !CheckboxOf(group, selected).indeterminate
  {
    var ids := PermissionIds(group.members);
    var chosen := FromSeq(SelectedAmong(selected, ids));
    SelectedAmongMembers(selected, ids);
    forall x | x in ids
      ensures x in chosen
    {
      var k :| 0 <= k < |ids| && ids[k] == x;
      assert group.members[k] in group.members;
      assert x in selected;
      assert x in SelectedAmong(selected, ids);
    }
    forall i | 0 <= i < |chosen|
      ensures chosen[i] in ids
    {
      var y := chosen[i];
      assert y in chosen;
    }
    SameMembersSameSize(chosen, ids);
  }

  /** When no permission of a non-empty group is selected, its box is neither checked nor indeterminate. */
  lemma NoneSelectedClearsBox(group: Group, selected: seq<int>)
    requires group.members != []
    requires forall p :: p in group.members ==> p.id !in selected
    ensures !CheckboxOf(group, selected).checked && !CheckboxOf(group, selected).indeterminate
  {
    var ids := PermissionIds(group.members);
    var among := SelectedAmong(selected, ids);
    SelectedAmongMembers(selected, ids);
    forall y | y in ids
      ensures y !in selected
    {
      var k :| 0 <= k < |ids| && ids[k] == y;
      assert group.members[k] in group.members;
    }
    NoneAmong(selected, ids);
  }

  /** The boxes `updateSelectAllCheckboxes` sets: one per category of `all`, in grouping order. */
  function SelectAllBoxes(all: seq<Permission>, category: string -> string, selected: seq<int>): (r: seq<Checkbox>)
    ensures |r| == |FromSeq(CategoryNames(all, category))|
    ensures forall k :: 0 <= k < |r| ==> r[k].category == FromSeq(CategoryNames(all, category))[k]
  {
    var keys := FromSeq(CategoryNames(all, category));
    seq(|keys|, k requires 0 <= k < |keys| => CheckboxOf(Group(keys[k], InCategory(all, category, keys[k])), selected))
  }

  /** The ids "select all" on category `c` adds or deletes. */
  function CategoryIds(all: seq<Permission>, category: string -> string, c: string): (r: seq<int>)
    ensures forall id :: id in r <==> exists p :: p in all && category(p.name) == c && p.id == id
  {
    var members := InCategory(all, category, c);
    InCategoryMembers(all, category, c);
    assert forall id :: id in PermissionIds(members) ==> exists k :: 0 <= k < |members| && members[k].id == id;
    PermissionIds(members)
  }

  /**
   * After "select all" on category `c`, the box of `c` is checked, provided the category's
   * permissions have distinct ids.
   */
  lemma SelectAllThenChecked(all: seq<Permission>, category: string -> string, selected: seq<int>, c: string, k: nat)
    requires k < |SelectAllBoxes(all, category, AddAll(selected, CategoryIds(all, category, c)))|
    requires SelectAllBoxes(all, category, AddAll(selected, CategoryIds(all, category, c)))[k].category == c
    requires NoDup(CategoryIds(all, category, c))
    ensures SelectAllBoxes(all, category, AddAll(selected, CategoryIds(all, category, c)))[k].checked
  {
    var members := InCategory(all, category, c);
    var after := AddAll(selected, CategoryIds(all, category, c));
    InCategoryMembers(all, category, c);
    AllSelectedChecksBox(Group(c, members), after);
  }

  /** After "unselect all" on category `c`, the box of `c` is neither checked nor indeterminate. */
  lemma UnselectAllThenCleared(all: seq<Permission>, category: string -> string, selected: seq<int>, c: string, k: nat)
    requires k < |SelectAllBoxes(all, category, DeleteAll(selected, CategoryIds(all, category, c)))|
    requires SelectAllBoxes(all, category, DeleteAll(selected, CategoryIds(all, category, c)))[k].category == c
    ensures !SelectAllBoxes(all, category, DeleteAll(selected, CategoryIds(all, category, c)))[k].checked
    ensures !SelectAllBoxes(all, category, DeleteAll(selected, CategoryIds(all, category, c)))[k].indeterminate
  {
    var members := InCategory(all, category, c);
    var after := DeleteAll(selected, CategoryIds(all, category, c));
    var names := CategoryNames(all, category);
    assert c in FromSeq(names);
    var j :| 0 <= j < |all| && names[j] == c;
    InCategoryMembers(all, category, c);
    assert all[j] in members;
    NoneSelectedClearsBox(Group(c, members), after);
  }

  // ---------------------------------------------------------------- filter, union, save payload

  /**
   * The permission filter: an empty filter keeps everything; otherwise a permission stays when
   * its lowercased name or description contains the (already lowercased) filter. Input order.
   */
  function FilterPermissions(ps: seq<Permission>, filter: string): (r: seq<Permission>)
    ensures forall p :: p in r <==> p in ps && (filter == "" || Matches(p.name, filter) || Matches(p.description, filter))
    ensures |r| <= |ps|
  {
    if ps == [] then []
    else
      var keep := filter == "" || Matches(ps[0].name, filter) || Matches(ps[0].description, filter);
      (if keep then [ps[0]] else []) + FilterPermissions(ps[1..], filter)
  }

  /**
   * `highlightText` builds ``new RegExp(`(${filter})`, 'gi')`` for each permission listed under a
   * non-empty filter; `patternOk` says whether that pattern is valid regular-expression syntax
   * (it is not for a filter such as "(" or "["). An invalid pattern throws at the first listed
   * permission, before its group is appended, so the render stops with the list empty and the
   * select-all boxes not updated.
   */
  predicate HighlightThrows(all: seq<Permission>, filter: string, patternOk: bool) {
    filter != "" && !patternOk && FilterPermissions(all, filter) != []
  }

  /** The empty filter keeps the whole list, in order. */
  lemma {:induction false} EmptyPermissionFilterKeepsAll(ps: seq<Permission>)
    ensures FilterPermissions(ps, "") == ps
  {
    if ps != [] {
      EmptyPermissionFilterKeepsAll(ps[1..]);
      assert [ps[0]] + ps[1..] == ps;
    }
  }

  /** Every permission list of the grid's roles, concatenated in row order; rows without one add nothing. */
  function PermissionsOf(roles: seq<Role>): (r: seq<Permission>)
  {
    if roles == [] then []
    else
      var last := roles[|roles| - 1];
      PermissionsOf(roles[..|roles| - 1]) + (if last.permissions.Some? then last.permissions.value else [])
  }

  /** The union is exactly the permissions some role carries. */
  lemma {:induction false} PermissionsOfMembers(roles: seq<Role>)
    ensures forall p :: p in PermissionsOf(roles) <==>
              exists k :: 0 <= k < |roles| && roles[k].permissions.Some? && p in roles[k].permissions.value
  {
    if roles != [] {
      var init := roles[..|roles| - 1];
      PermissionsOfMembers(init);
      assert forall k :: 0 <= k < |init| ==> init[k] == roles[k];
    }
  }

  /** `getAllPermissions`: the distinct permissions of all roles, each once, at its first occurrence. */
  lemma AllPermissionsMembers(roles: seq<Role>)
    ensures NoDup(FromSeq(PermissionsOf(roles)))
    ensures forall p :: p in FromSeq(PermissionsOf(roles)) <==>
              exists k :: 0 <= k < |roles| && roles[k].permissions.Some? && p in roles[k].permissions.value
  {
    PermissionsOfMembers(roles);
  }

  /** `allPermissions.filter(p => selected.has(p.id))`: the save payload, in `allPermissions` order. */
  function Chosen(all: seq<Permission>, selected: seq<int>): (r: seq<Permission>)
    ensures forall p :: p in r <==> p in all && p.id in selected
    ensures |r| <= |all|
  {
    if all == [] then []
    else (if all[0].id in selected then [all[0]] else []) + Chosen(all[1..], selected)
  }

  /** The payload keeps the order of `allPermissions`: choosing from two parts is choosing from each. */
  lemma {:induction false} ChosenConcat(xs: seq<Permission>, ys: seq<Permission>, selected: seq<int>)
    ensures Chosen(xs + ys, selected) == Chosen(xs, selected) + Chosen(ys, selected)
  {
    if xs != [] {
      ChosenConcat(xs[1..], ys, selected);
      assert (xs + ys)[1..] == xs[1..] + ys;
    } else {
      assert xs + ys == ys;
    }
  }

  /** With every id selected, the payload is all of `allPermissions`. */
  lemma {:induction false} ChosenAll(all: seq<Permission>, selected: seq<int>)
    requires forall k :: 0 <= k < |all| ==> all[k].id in selected
    ensures Chosen(all, selected) == all
  {
    if all != [] {
      ChosenAll(all[1..], selected);
      assert [all[0]] + all[1..] == all;
    }
  }

  /** `items.findIndex(item => item.id === id)`, with `|roles|` for -1. */
  function RoleIndex(roles: seq<Role>, id: int): (r: nat)
    ensures r <= |roles|
    ensures r < |roles| ==> roles[r].id == id
    ensures forall j :: 0 <= j < r ==> roles[j].id != id
  {
    if roles == [] then 0
    else if roles[0].id == id then 0
    else 1 + RoleIndex(roles[1..], id)
  }

  /** `ids.forEach(id => checked ? set.add(id) : set.delete(id))`. */
  method SetAll(s: seq<int>, ids: seq<int>, checked: bool) returns (r: seq<int>)
    ensures r == if checked then AddAll(s, ids) else DeleteAll(s, ids)
  {
    r := s;
    for i := 0 to |ids|
      invariant r == if checked then AddAll(s, ids[..i]) else DeleteAll(s, ids[..i])
    {
      assert ids[..i + 1][..i] == ids[..i];
      if checked {
        r := Add(r, ids[i]);
      } else {
        r := Delete(r, ids[i]);
      }
    }
    assert ids[..|ids|] == ids;
  }

  // ---------------------------------------------------------------- the page

  /** The one API call the dialog makes. */
  datatype RoleCall = UpdateRole(roleId: int, role: Role)

  class RolePage {
    /** `this.getPermissionCategory`: the constructor sets it to `GetPermissionCategory`. */
    const categoryOf: string -> string
    var roles: seq<Role>
    var selectedPermissions: seq<int>
    var currentRole: Option<Role>
    var allPermissions: seq<Permission>
    var permissionFilter: string
    var visible: seq<Group>
    var checkboxes: seq<Checkbox>
    var modalShown: bool
    var calls: seq<RoleCall>
    var notices: seq<Notice>

    /** `selectedPermissions` is a set. */
    ghost predicate Valid()
      reads this
    {
      NoDup(selectedPermissions)
    }

    /**
     * What rendering with `filter` leaves: `allPermissions` rebuilt from the grid, the listed
     * groups those of the permissions the filter keeps, and the select-all boxes matching the
     * selection.
     */
    ghost predicate Rendered(filter: string)
      reads this
    {
      && allPermissions == FromSeq(PermissionsOf(roles))
      && GroupedAs(visible, FilterPermissions(allPermissions, filter), categoryOf)
      && checkboxes == SelectAllBoxes(allPermissions, categoryOf, selectedPermissions)
    }

    /** `roles` stands for the grid's data source once `loadData` has filled it. */
    constructor(roles0: seq<Role>)
      ensures Valid() && roles == roles0 && categoryOf == GetPermissionCategory
      ensures selectedPermissions == [] && currentRole == None && allPermissions == [] && permissionFilter == ""
      ensures visible == [] && checkboxes == [] && !modalShown && calls == [] && notices == []
    {
      categoryOf := GetPermissionCategory;
      roles := roles0;
      selectedPermissions := [];
      currentRole := None;
      allPermissions := [];
      permissionFilter := "";
      visible := [];
      checkboxes := [];
      modalShown := false;
      calls := [];
      notices := [];
    }

    /** A render that `highlightText` stopped: the permissions are recollected and the list is empty. */
    ghost predicate Stopped(boxes: seq<Checkbox>)
      reads this
    {
      allPermissions == FromSeq(PermissionsOf(roles)) && visible == [] && checkboxes == boxes
    }

    /** `getAllPermissions`: collect every role's permissions into a set of structurally distinct values. */
    method GetAllPermissions() returns (r: seq<Permission>)
      ensures r == FromSeq(PermissionsOf(roles))
    {
      r := [];
      for i := 0 to |roles|
        invariant r == FromSeq(PermissionsOf(roles[..i]))
      {
        var role := roles[i];
        assert roles[..i + 1][..i] == roles[..i];
        if role.permissions.Some? {
          var ps := role.permissions.value;
          var base := r;
          for j := 0 to |ps|
            invariant r == AddAll(base, ps[..j])
          {
            assert ps[..j + 1][..j] == ps[..j];
            r := Add(r, ps[j]);
          }
          assert ps[..|ps|] == ps;
          assert PermissionsOf(roles[..i + 1]) == PermissionsOf(roles[..i]) + ps;
          AddAllConcat([], PermissionsOf(roles[..i]), ps);
          assert r == AddAll([], PermissionsOf(roles[..i + 1]));
        } else {
          assert PermissionsOf(roles[..i + 1]) == PermissionsOf(roles[..i]) + [] == PermissionsOf(roles[..i]);
        }
      }
      assert roles[..|roles|] == roles;
    }

    /** `updateSelectAllCheckboxes`: set each category's box from the selection. */
    method UpdateSelectAllCheckboxes()
      modifies this
      ensures checkboxes == SelectAllBoxes(allPermissions, categoryOf, selectedPermissions)
      ensures roles == old(roles) && selectedPermissions == old(selectedPermissions)
      ensures currentRole == old(currentRole) && allPermissions == old(allPermissions)
      ensures permissionFilter == old(permissionFilter) && visible == old(visible)
      ensures modalShown == old(modalShown) && calls == old(calls) && notices == old(notices)
    {
      var groups := GroupPermissionsByCategory(allPermissions, categoryOf);
      var boxes := [];
      for i := 0 to |groups|
        invariant |boxes| == i
        invariant forall k :: 0 <= k < i ==> boxes[k] == CheckboxOf(groups[k], selectedPermissions)
      {
        boxes := boxes + [CheckboxOf(groups[i], selectedPermissions)];
      }
      checkboxes := boxes;
      assert Keys(groups) == FromSeq(CategoryNames(allPermissions, categoryOf));
    }

    /**
     * `renderPermissionCategories`: recompute `allPermissions` from the grid, list the groups
     * of the permissions the filter keeps, and update the select-all boxes.
     */
    method Render(patternOk: bool) returns (completed: bool)
      modifies this
      ensures completed == !HighlightThrows(allPermissions, permissionFilter, patternOk)
      ensures completed ==> Rendered(permissionFilter)
      ensures !completed ==> Stopped(old(checkboxes))
      ensures roles == old(roles) && selectedPermissions == old(selectedPermissions)
      ensures currentRole == old(currentRole) && permissionFilter == old(permissionFilter)
      ensures modalShown == old(modalShown) && calls == old(calls) && notices == old(notices)
    {
      allPermissions := GetAllPermissions();
      var filtered := FilterPermissions(allPermissions, permissionFilter);
      if HighlightThrows(allPermissions, permissionFilter, patternOk) {
        visible := [];
        return false;
      }
      visible := GroupPermissionsByCategory(filtered, categoryOf);
      UpdateSelectAllCheckboxes();
      completed := true;
    }

    /** The key button of a row: remember the role, select exactly its permission ids, open the dialog. */
    method KeyButton(row: Role)
      requires Valid()
      modifies this
      ensures Valid()
      ensures currentRole == Some(row)
      ensures row.permissions.Some? ==>
                selectedPermissions == FromSeq(PermissionIds(row.permissions.value)) && modalShown
      ensures row.permissions.Some? ==>
                forall id :: id in selectedPermissions <==> exists p :: p in row.permissions.value && p.id == id
      ensures row.permissions.None? ==>
                selectedPermissions == old(selectedPermissions) && modalShown == old(modalShown)
      ensures roles == old(roles) && allPermissions == old(allPermissions) && permissionFilter == old(permissionFilter)
      ensures visible == old(visible) && checkboxes == old(checkboxes) && calls == old(calls) && notices == old(notices)
    {
      currentRole := Some(row);
      if row.permissions.None? {
        return;
      }
      var ps := row.permissions.value;
      selectedPermissions := FromSeq(PermissionIds(ps));
      forall id | id in PermissionIds(ps)
        ensures exists p :: p in ps && p.id == id
      {
        var k :| 0 <= k < |ps| && PermissionIds(ps)[k] == id;
        assert ps[k] in ps;
      }
      modalShown := true;
    }

    /** `shown.bs.modal`: render with the current filter, then clear the filter unless the render threw. */
    method OnShown(patternOk: bool)
      modifies this
      ensures if HighlightThrows(allPermissions, old(permissionFilter), patternOk)
              then Stopped(old(checkboxes)) && permissionFilter == old(permissionFilter)
              else Rendered(old(permissionFilter)) && permissionFilter == ""
      ensures roles == old(roles) && selectedPermissions == old(selectedPermissions) && currentRole == old(currentRole)
      ensures modalShown == old(modalShown) && calls == old(calls) && notices == old(notices)
    {
      var completed := Render(patternOk);
      if completed {
        permissionFilter := "";
      }
    }

    /** `hidden.bs.modal`: clear the selection, the current role and the filter. */
    method OnHidden()
      modifies this
      ensures Valid()
      ensures selectedPermissions == [] && currentRole == None && permissionFilter == "" && !modalShown
      ensures roles == old(roles) && allPermissions == old(allPermissions)
      ensures visible == old(visible) && checkboxes == old(checkboxes) && calls == old(calls) && notices == old(notices)
    {
      selectedPermissions := [];
      currentRole := None;
      permissionFilter := "";
      modalShown := false;
    }

    /** The search box stores the lowercased text and re-renders. */
    method Search(typed: string, patternOk: bool)
      modifies this
      ensures permissionFilter == SearchFilter(typed)
      ensures if HighlightThrows(allPermissions, permissionFilter, patternOk) then Stopped(old(checkboxes))
              else Rendered(permissionFilter)
      ensures roles == old(roles) && selectedPermissions == old(selectedPermissions) && currentRole == old(currentRole)
      ensures modalShown == old(modalShown) && calls == old(calls) && notices == old(notices)
    {
      permissionFilter := SearchFilter(typed);
      var _ := Render(patternOk);
    }

    /** A permission checkbox changed: add its id when checked, delete it when unchecked; update the boxes. */
    method Toggle(permissionId: int, checked: bool)
      requires Valid()
      modifies this
      ensures Valid()
      ensures selectedPermissions == if checked then Add(old(selectedPermissions), permissionId)
                                     else Delete(old(selectedPermissions), permissionId)
      ensures forall id :: id != permissionId ==> (id in selectedPermissions <==> id in old(selectedPermissions))
      ensures (permissionId in selectedPermissions) == checked
      ensures checkboxes == SelectAllBoxes(allPermissions, categoryOf, selectedPermissions)
      ensures roles == old(roles) && currentRole == old(currentRole) && allPermissions == old(allPermissions)
      ensures permissionFilter == old(permissionFilter) && visible == old(visible)
      ensures modalShown == old(modalShown) && calls == old(calls) && notices == old(notices)
    {
      if checked {
        selectedPermissions := Add(selectedPermissions, permissionId);
      } else {
        selectedPermissions := Delete(selectedPermissions, permissionId);
      }
      UpdateSelectAllCheckboxes();
    }

    /**
     * The select-all box of `category` was clicked: add (when checked) or delete (when not)
     * the id of every permission of `allPermissions` in that category, then re-render. Ids of
     * other categories keep their state.
     */
    method SelectAll(category: string, checked: bool, patternOk: bool)
      requires Valid()
      modifies this
      ensures Valid()
      ensures var ids := CategoryIds(old(allPermissions), categoryOf, category);
              selectedPermissions == if checked then AddAll(old(selectedPermissions), ids)
                                     else DeleteAll(old(selectedPermissions), ids)
      ensures forall id :: id in CategoryIds(old(allPermissions), categoryOf, category) ==>
                (id in selectedPermissions <==> checked)
      ensures forall id :: id !in CategoryIds(old(allPermissions), categoryOf, category) ==>
                (id in selectedPermissions <==> id in old(selectedPermissions))
      ensures if HighlightThrows(allPermissions, permissionFilter, patternOk) then Stopped(old(checkboxes))
              else Rendered(permissionFilter)
      ensures roles == old(roles) && currentRole == old(currentRole) && permissionFilter == old(permissionFilter)
      ensures modalShown == old(modalShown) && calls == old(calls) && notices == old(notices)
    {
      var ids := CategoryIds(allPermissions, categoryOf, category);
      selectedPermissions := SetAll(selectedPermissions, ids, checked);
      var _ := Render(patternOk);
    }

    /**
     * `savePermissions`: without a current role nothing happens. Otherwise send the role with
     * its permissions replaced by the selected ones of `allPermissions`; on success patch the
     * matching grid row, close the dialog and report success, on failure report it.
     */
    method SavePermissions(updateOk: bool)
      modifies this
      ensures selectedPermissions == old(selectedPermissions) && currentRole == old(currentRole)
      ensures allPermissions == old(allPermissions) && permissionFilter == old(permissionFilter)
      ensures visible == old(visible) && checkboxes == old(checkboxes)
      ensures old(currentRole).None? ==>
                roles == old(roles) && modalShown == old(modalShown) && calls == old(calls) && notices == old(notices)
      ensures old(currentRole).Some? ==>
                var role := old(currentRole).value;
                var chosen := Chosen(allPermissions, selectedPermissions);
                var index := RoleIndex(old(roles), role.id);
                calls == old(calls) + [UpdateRole(role.id, role.(permissions := Some(chosen)))]
                && if !updateOk then
                     roles == old(roles) && modalShown == old(modalShown)
                     && notices == old(notices) + [Notice("Failed to update permissions", Error)]
                   else
                     roles == (if index < |old(roles)| then old(roles)[index := old(roles)[index].(permissions := Some(chosen))]
                               else old(roles))
                     && !modalShown
                     && notices == old(notices) + [Notice("Permissions updated successfully", Success)]
    {
      if currentRole.None? {
        return;
      }
      var role := currentRole.value;
      var chosen := Chosen(allPermissions, selectedPermissions);
      calls := calls + [UpdateRole(role.id, role.(permissions := Some(chosen)))];
      if !updateOk {
        notices := notices + [Notice("Failed to update permissions", Error)];
        return;
      }
      var index := RoleIndex(roles, role.id);
      if index < |roles| {
        roles := roles[index := roles[index].(permissions := Some(chosen))];
      }
      modalShown := false;
      notices := notices + [Notice("Permissions updated successfully", Success)];
    }
  }
}
