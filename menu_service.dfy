/**
 * The menu application service: building the menu forest from the flat rows the repository
 * returns, and the audited create, update and delete operations over the menu table.
 *
 * `buildMenuTree` shares one node per id between the id map, the children lists and the
 * roots list, so its result is modelled as an id graph: the node stored for each id, the
 * child ids of each node and the root ids. The repository is an in-memory table; whether its
 * writes and the audit service succeed is given by boolean parameters.
 */
module MenuService {
  import opened Wrappers
  import opened Search
  import opened Audit

  /** A row of `master_menu`. */
  datatype Menu = Menu(id: int, name: string, url: string, icon: string, parentId: Option<int>)

  // ---------------------------------------------------------------- buildMenuTree

  /** The result of `buildMenuTree`: a node per id, the children of each node, and the roots. */
  datatype MenuForest = MenuForest(nodes: map<int, Menu>, children: map<int, seq<int>>, roots: seq<int>)

  /** The ids of the rows, as a set. */
  function IdSet(menus: seq<Menu>): (r: set<int>)
    ensures forall k :: 0 <= k < |menus| ==> menus[k].id in r
  {
    if menus == [] then {} else IdSet(menus[..|menus| - 1]) + {menus[|menus| - 1].id}
  }

  /** Only ids of rows are in the id set. */
  lemma {:induction false} IdSetMembership(menus: seq<Menu>, x: int)
    ensures x in IdSet(menus) <==> exists k :: 0 <= k < |menus| && menus[k].id == x
  {
    if menus != [] {
      var n := |menus| - 1;
      IdSetMembership(menus[..n], x);
      assert forall k :: 0 <= k < n ==> menus[..n][k] == menus[k];
    }
  }

  /** `menuMap` after the first pass: a later row with the same id replaces an earlier one. */
  function NodeMap(menus: seq<Menu>): (r: map<int, Menu>)
    ensures r.Keys == IdSet(menus)
    ensures forall x :: x in r ==> r[x].id == x
  {
    if menus == [] then map[] else NodeMap(menus[..|menus| - 1])[menus[|menus| - 1].id := menus[|menus| - 1]]
  }

  /** Ids of the rows without a parent, in input order. */
  function RootIds(menus: seq<Menu>): seq<int> {
    if menus == [] then []
    else RootIds(menus[..|menus| - 1]) + (if menus[|menus| - 1].parentId.None? then [menus[|menus| - 1].id] else [])
  }

  /** Ids of the rows whose parent is `p`, in input order. */
  function ChildIds(menus: seq<Menu>, p: int): seq<int> {
    if menus == [] then []
    else ChildIds(menus[..|menus| - 1], p) + (if menus[|menus| - 1].parentId == Some(p) then [menus[|menus| - 1].id] else [])
  }

  /** The rows without a parent, in input order. */
  function RootRows(menus: seq<Menu>): seq<Menu> {
    if menus == [] then []
    else RootRows(menus[..|menus| - 1]) + (if menus[|menus| - 1].parentId.None? then [menus[|menus| - 1]] else [])
  }

  /**
   * `buildMenuTree`: the first pass gives every id a node with an empty children list, the
   * second appends each row to its parent's list when the parent id is known, or to the roots
   * when it has no parent.
   */
  method BuildMenuTree(menus: seq<Menu>) returns (f: MenuForest)
    ensures f.nodes == NodeMap(menus)
    ensures f.children.Keys == f.nodes.Keys
    ensures forall p :: p in f.children ==> f.children[p] == ChildIds(menus, p)
    ensures f.roots == RootIds(menus)
  {
    var nodes: map<int, Menu> := map[];
    var children: map<int, seq<int>> := map[];
    var i := 0;
    while i < |menus|
      invariant 0 <= i <= |menus|
      invariant nodes == NodeMap(menus[..i])
      invariant children.Keys == nodes.Keys
      invariant forall p :: p in children ==> children[p] == []
    {
      PrefixStep(menus, i);
      nodes := nodes[menus[i].id := menus[i]];
      children := children[menus[i].id := []];
      i := i + 1;
    }
    assert menus[..i] == menus;
    var roots: seq<int> := [];
    i := 0;
    while i < |menus|
      invariant 0 <= i <= |menus|
      invariant children.Keys == nodes.Keys
      invariant forall p :: p in children ==> children[p] == ChildIds(menus[..i], p)
      invariant roots == RootIds(menus[..i])
    {
      PrefixStep(menus, i);
      var m := menus[i];
      AttachStep(children, nodes.Keys, menus, i);
      if m.parentId.Some? {
        if m.parentId.value in nodes {
          children := children[m.parentId.value := children[m.parentId.value] + [m.id]];
        }
      } else {
        roots := roots + [m.id];
      }
      i := i + 1;
    }
    assert menus[..i] == menus;
    f := MenuForest(nodes, children, roots);
  }

  /** How the reference definitions grow by one row. */
  lemma PrefixStep(menus: seq<Menu>, i: nat)
    requires i < |menus|
    ensures NodeMap(menus[..i + 1]) == NodeMap(menus[..i])[menus[i].id := menus[i]]
    ensures RootIds(menus[..i + 1]) == RootIds(menus[..i]) + (if menus[i].parentId.None? then [menus[i].id] else [])
  {
    assert menus[..i + 1][..i] == menus[..i];
  }

  /** One step of the second pass keeps every children list equal to its reference. */
  lemma AttachStep(children: map<int, seq<int>>, keys: set<int>, menus: seq<Menu>, i: nat)
    requires i < |menus| && children.Keys == keys
    requires forall p :: p in children ==> children[p] == ChildIds(menus[..i], p)
    ensures var m := menus[i];
            var next := if m.parentId.Some? && m.parentId.value in keys
                        then children[m.parentId.value := children[m.parentId.value] + [m.id]]
                        else children;
            next.Keys == keys && forall p :: p in next ==> next[p] == ChildIds(menus[..i + 1], p)
  {
    var m := menus[i];
    var next := if m.parentId.Some? && m.parentId.value in keys
                then children[m.parentId.value := children[m.parentId.value] + [m.id]]
                else children;
    forall p | p in next
      ensures next[p] == ChildIds(menus[..i + 1], p)
    {
      ChildIdsStep(menus, i, p);
    }
  }

  lemma ChildIdsStep(menus: seq<Menu>, i: nat, p: int)
    requires i < |menus|
    ensures ChildIds(menus[..i + 1], p) == ChildIds(menus[..i], p) + (if menus[i].parentId == Some(p) then [menus[i].id] else [])
  {
    assert menus[..i + 1][..i] == menus[..i];
  }

  /** No two rows share an id. */
  predicate UniqueIds(menus: seq<Menu>) {
    forall j, k :: 0 <= j < k < |menus| ==> menus[j].id != menus[k].id
  }

  /** An id is among the roots exactly when some row with that id has no parent. */
  lemma {:induction false} RootIdsMembership(menus: seq<Menu>, x: int)
    ensures x in RootIds(menus) <==> exists k :: 0 <= k < |menus| && menus[k].id == x && menus[k].parentId.None?
  {
    if menus != [] {
      var n := |menus| - 1;
      RootIdsMembership(menus[..n], x);
      assert forall k :: 0 <= k < n ==> menus[..n][k] == menus[k];
    }
  }

  /** An id is among the children of `p` exactly when some row with that id has parent `p`. */
  lemma {:induction false} ChildIdsMembership(menus: seq<Menu>, p: int, x: int)
    ensures x in ChildIds(menus, p) <==> exists k :: 0 <= k < |menus| && menus[k].id == x && menus[k].parentId == Some(p)
  {
    if menus != [] {
      var n := |menus| - 1;
      ChildIdsMembership(menus[..n], p, x);
      assert forall k :: 0 <= k < n ==> menus[..n][k] == menus[k];
    }
  }

  /** The roots are the ids of the parentless rows, in input order, and there are as many. */
  lemma {:induction false} RootIdsAreParentlessRows(menus: seq<Menu>)
    ensures |RootIds(menus)| == |RootRows(menus)|
    ensures forall k :: 0 <= k < |RootRows(menus)| ==> RootIds(menus)[k] == RootRows(menus)[k].id
    ensures forall k :: 0 <= k < |RootRows(menus)| ==> RootRows(menus)[k].parentId.None?
  {
    if menus != [] {
      RootIdsAreParentlessRows(menus[..|menus| - 1]);
    }
  }

  /** With unique ids, the node stored for each id is the row with that id. */
  lemma {:induction false} NodeMapOfUnique(menus: seq<Menu>, k: nat)
    requires UniqueIds(menus) && k < |menus|
    ensures NodeMap(menus)[menus[k].id] == menus[k]
  {
    var n := |menus| - 1;
    if k < n {
      assert UniqueIds(menus[..n]);
      NodeMapOfUnique(menus[..n], k);
      assert menus[n].id != menus[k].id;
    }
  }

  /** With unique ids every root node has no parent. */
  lemma RootNodesHaveNoParent(menus: seq<Menu>, f: MenuForest, x: int)
    requires UniqueIds(menus) && f.nodes == NodeMap(menus) && f.roots == RootIds(menus)
    requires x in f.roots
    ensures x in f.nodes && f.nodes[x].parentId.None?
  {
    RootIdsMembership(menus, x);
    var k :| 0 <= k < |menus| && menus[k].id == x && menus[k].parentId.None?;
    NodeMapOfUnique(menus, k);
  }

  /**
   * With unique ids, a row whose parent id names no row is neither a root nor a child of any
   * node: it appears nowhere in the forest.
   */
  lemma OrphanAppearsNowhere(menus: seq<Menu>, f: MenuForest, k: nat)
    requires UniqueIds(menus) && k < |menus|
    requires menus[k].parentId.Some? && menus[k].parentId.value !in IdSet(menus)
    requires f.nodes == NodeMap(menus) && f.children.Keys == f.nodes.Keys && f.roots == RootIds(menus)
    requires forall p :: p in f.children ==> f.children[p] == ChildIds(menus, p)
    ensures menus[k].id !in f.roots
    ensures forall p :: p in f.children ==> menus[k].id !in f.children[p]
  {
    var x := menus[k].id;
    RootIdsMembership(menus, x);
    forall p | p in f.children
      ensures x !in f.children[p]
    {
      ChildIdsMembership(menus, p, x);
    }
  }

  /** A row whose parent id names a row is listed among that parent's children. */
  lemma ChildIsAttached(menus: seq<Menu>, f: MenuForest, k: nat)
    requires k < |menus| && menus[k].parentId.Some? && menus[k].parentId.value in IdSet(menus)
    requires f.nodes == NodeMap(menus) && f.children.Keys == f.nodes.Keys
    requires forall p :: p in f.children ==> f.children[p] == ChildIds(menus, p)
    ensures menus[k].parentId.value in f.children
    ensures menus[k].id in f.children[menus[k].parentId.value]
  {
    ChildIdsMembership(menus, menus[k].parentId.value, menus[k].id);
  }

  // ---------------------------------------------------------------- audited writes

  datatype ServiceError = NotFound | RepositoryFailed | AuditFailed

  function MenuId(m: Menu): int { m.id }

  /** Index of the first row with id `id`, if any (`repo.FindByID`). */
  function FindRow(rows: seq<Menu>, id: int): Option<nat> {
    First(rows, MenuId, id)
  }

  /** The table without the rows with id `id` (`repo.Delete(id)`). */
  function RemoveId(rows: seq<Menu>, id: int): (r: seq<Menu>)
    ensures forall k :: 0 <= k < |r| ==> r[k].id != id
    ensures forall k :: 0 <= k < |r| ==> r[k] in rows
    ensures forall k :: 0 <= k < |rows| && rows[k].id != id ==> rows[k] in r
  {
    if rows == [] then []
    else if rows[0].id == id then RemoveId(rows[1..], id)
    else [rows[0]] + RemoveId(rows[1..], id)
  }

  class MenuService {
    /** The `master_menu` table. */
    var rows: seq<Menu>
    /** The id the database assigns to the next insert. */
    var nextId: int
    /** Every `LogChange` call, oldest first. */
    var audit: seq<AuditEntry<Menu>>

    /** Ids are unique and below the next one to be assigned. */
    predicate Valid()
      reads this
    {
      UniqueIds(rows) && forall k :: 0 <= k < |rows| ==> rows[k].id < nextId
    }

    constructor()
      ensures Valid() && rows == [] && audit == []
    {
      rows, nextId, audit := [], 1, [];
    }

    /** `CreateMenu`: insert, then audit (old nil, new the menu) only if the insert succeeded. */
    method CreateMenu(name: string, url: string, icon: string, parentId: Option<int>, createOk: bool, auditOk: bool)
      returns (r: Result<Menu, ServiceError>)
      requires Valid()
      modifies this
      ensures Valid()
      ensures !createOk ==> r == Err(RepositoryFailed) && rows == old(rows) && audit == old(audit)
      ensures createOk ==>
        var m := Menu(old(nextId), name, url, icon, parentId);
        rows == old(rows) + [m]
        && audit == old(audit) + [AuditEntry(m.id, ActionCreate, None, Some(m))]
        && r == (if auditOk then Ok(m) else Err(AuditFailed))
    {
      if !createOk {
        return Err(RepositoryFailed);
      }
      var m := Menu(nextId, name, url, icon, parentId);
      rows := rows + [m];
      nextId := nextId + 1;
      audit := audit + [AuditEntry(m.id, ActionCreate, None, Some(m))];
      if !auditOk {
        return Err(AuditFailed);
      }
      return Ok(m);
    }

    /**
     * `UpdateMenu`: the stored row is looked up and kept as the audit's old value before its
     * name, url, icon and parent are overwritten; a missing row or a failed write audits nothing.
     */
    method UpdateMenu(id: int, name: string, url: string, icon: string, parentId: Option<int>, updateOk: bool, auditOk: bool)
      returns (r: Result<Menu, ServiceError>)
      requires Valid()
      modifies this
      ensures Valid() && nextId == old(nextId)
      ensures FindRow(old(rows), id).None? ==> r == Err(NotFound) && rows == old(rows) && audit == old(audit)
      ensures FindRow(old(rows), id).Some? && !updateOk ==> r == Err(RepositoryFailed) && rows == old(rows) && audit == old(audit)
      ensures FindRow(old(rows), id).Some? && updateOk ==>
        var k := FindRow(old(rows), id).value;
        var before := old(rows)[k];
        var after := Menu(id, name, url, icon, parentId);
        rows == old(rows)[k := after]
        && audit == old(audit) + [AuditEntry(id, ActionUpdate, Some(before), Some(after))]
        && r == (if auditOk then Ok(after) else Err(AuditFailed))
    {
      var found := FindRow(rows, id);
      if found.None? {
        return Err(NotFound);
      }
      var k := found.value;
      var oldValues := rows[k];
      var updated := oldValues.(name := name, url := url, icon := icon, parentId := parentId);
      if !updateOk {
        return Err(RepositoryFailed);
      }
      rows := rows[k := updated];
      audit := audit + [AuditEntry(updated.id, ActionUpdate, Some(oldValues), Some(updated))];
      if !auditOk {
        return Err(AuditFailed);
      }
      return Ok(updated);
    }

    /** `Delete`: look up (for the audit), delete, then audit (old the menu, new nil). */
    method Delete(id: int, deleteOk: bool, auditOk: bool) returns (r: Result<(), ServiceError>)
      requires Valid()
      modifies this
      ensures Valid() && nextId == old(nextId)
      ensures FindRow(old(rows), id).None? ==> r == Err(NotFound) && rows == old(rows) && audit == old(audit)
      ensures FindRow(old(rows), id).Some? && !deleteOk ==> r == Err(RepositoryFailed) && rows == old(rows) && audit == old(audit)
      ensures FindRow(old(rows), id).Some? && deleteOk ==>
        rows == RemoveId(old(rows), id)
        && audit == old(audit) + [AuditEntry(id, ActionDelete, Some(old(rows)[FindRow(old(rows), id).value]), None)]
        && r == (if auditOk then Ok(()) else Err(AuditFailed))
    {
      var found := FindRow(rows, id);
      if found.None? {
        return Err(NotFound);
      }
      var menu := rows[found.value];
      if !deleteOk {
        return Err(RepositoryFailed);
      }
      RemoveIdKeepsUnique(rows, id);
      rows := RemoveId(rows, id);
      audit := audit + [AuditEntry(id, ActionDelete, Some(menu), None)];
      if !auditOk {
        return Err(AuditFailed);
      }
      return Ok(());
    }
  }

  /** Deleting rows keeps the remaining ids unique. */
  lemma {:induction false} RemoveIdKeepsUnique(rows: seq<Menu>, id: int)
    requires UniqueIds(rows)
    ensures UniqueIds(RemoveId(rows, id))
  {
    if rows != [] {
      assert UniqueIds(rows[1..]);
      RemoveIdKeepsUnique(rows[1..], id);
      if rows[0].id != id {
        var rest := RemoveId(rows[1..], id);
        forall k | 0 <= k < |rest|
          ensures rest[k].id != rows[0].id
        {
          assert rest[k] in rows[1..];
        }
        assert RemoveId(rows, id) == [rows[0]] + rest;
      }
    }
  }

  /** After a successful delete no row with that id is left. */
  lemma DeleteRemovesId(rows: seq<Menu>, id: int)
    ensures FindRow(RemoveId(rows, id), id).None?
  {
  }
}
