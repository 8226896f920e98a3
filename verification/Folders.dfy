/** The folder tree of a user: recursive listing and recursive deletion. */
module Folders {
  import opened Forest
  import opened Collections

  datatype Folder = Folder(parentId: Option<Id>, userId: string, name: string, updatedAt: int)

  type Table = map<Id, Folder>

  predicate Owns(rows: Table, u: string, id: Id) {
    id in rows && rows[id].userId == u
  }

  /** The parent pointers of `u`'s folders, whatever they point at. */
  function Links(rows: Table, u: string): map<Id, Id> {
    map x | x in rows && Owns(rows, u, x) && rows[x].parentId.Some? :: rows[x].parentId.value
  }

  function Children(rows: Table, u: string, id: Id): set<Id> {
    set x | x in rows && Owns(rows, u, x) && rows[x].parentId == Some(id)
  }

  /** A link leads from each folder of the user that has a parent, to that parent. */
  lemma LinksExact(rows: Table, u: string, c: Id, p: Id)
    ensures c in Links(rows, u) && Links(rows, u)[c] == p <==> c in rows && rows[c].userId == u && rows[c].parentId == Some(p)
  {
  }

  /** What lies below a folder belongs to the user. */
  lemma BelowOwned(rows: Table, u: string, id: Id, x: Id)
    requires x in Below(rows, u, id)
    ensures x in rows && rows[x].userId == u && rows[x].parentId.Some?
  {
    InDescendants(Links(rows, u), id, x);
    AncestorStep(Links(rows, u), id, x);
  }

  ghost function Below(rows: Table, u: string, id: Id): set<Id> {
    Descendants(Links(rows, u), id)
  }

  lemma ChildFacts(rows: Table, u: string, id: Id, c: Id)
    requires Acyclic(Links(rows, u))
    ensures c in Children(rows, u, id) ==>
              && c in Links(rows, u) && Links(rows, u)[c] == id && c in Below(rows, u, id)
              && Below(rows, u, c) < Below(rows, u, id) && |Below(rows, u, c)| < |Below(rows, u, id)|
              && c !in Below(rows, u, c)
  {
    if c in Children(rows, u, id) {
      ChildHasFewer(Links(rows, u), c);
    }
  }

  /** The whole subtree of a child: the child and everything below it. */
  ghost function Subtree(rows: Table, u: string, c: Id): set<Id> {
    {c} + Below(rows, u, c)
  }

  /** What lies below a folder is the union of its children's subtrees. */
  lemma BelowIsSubtrees(rows: Table, u: string, id: Id, x: Id)
    ensures x in Below(rows, u, id) <==> exists c :: c in Children(rows, u, id) && x in Subtree(rows, u, c)
  {
    var par := Links(rows, u);
    InDescendants(par, id, x);
    if Ancestor(par, id, x) {
      var n: nat :| n > 0 && Climb(par, x, id, n);
      var c := ClimbLast(par, x, id, n);
      assert c in Children(rows, u, id);
      if n > 1 {
        assert Ancestor(par, c, x);
        InDescendants(par, c, x);
      }
      assert x in Subtree(rows, u, c);
    }
    if exists c :: c in Children(rows, u, id) && x in Subtree(rows, u, c) {
      var c :| c in Children(rows, u, id) && x in Subtree(rows, u, c);
      ParentIsAncestor(par, c);
      InDescendants(par, c, x);
      if x != c { AncestorTransitive(par, id, c, x); }
    }
  }

  /** Subtrees of different children do not meet. */
  lemma SubtreesDisjoint(rows: Table, u: string, id: Id, c: Id, d: Id)
    requires Acyclic(Links(rows, u)) && c in Children(rows, u, id) && d in Children(rows, u, id) && c != d
    ensures Subtree(rows, u, c) !! Subtree(rows, u, d)
  {
    var par := Links(rows, u);
    forall x | x in Subtree(rows, u, c) ensures x !in Subtree(rows, u, d) {
      InDescendants(par, c, x);
      InDescendants(par, d, x);
      SiblingsDisjoint(par, c, d, x);
    }
  }

  lemma LinksWithout(rows: Table, u: string, gone: set<Id>)
    ensures Links(rows - gone, u) == Links(rows, u) - gone
  {
  }

  lemma AcyclicWithout(rows: Table, u: string, gone: set<Id>)
    requires Acyclic(Links(rows, u))
    ensures Acyclic(Links(rows - gone, u))
  {
    LinksWithout(rows, u, gone);
    SubgraphAcyclic(Links(rows - gone, u), Links(rows, u));
  }

  /** Deleting folders outside a subtree leaves the subtree as it is. */
  lemma BelowWithout(rows: Table, u: string, gone: set<Id>, c: Id)
    requires gone !! Below(rows, u, c)
    ensures Below(rows - gone, u, c) == Below(rows, u, c)
  {
    LinksWithout(rows, u, gone);
    RemovalKeepsSubtree(Links(rows, u), gone, c);
  }

  /** Everything below one of the first children. */
  ghost function Done(rows: Table, u: string, kids: seq<Id>): set<Id> {
    if kids == [] then {} else Done(rows, u, kids[..|kids| - 1]) + Subtree(rows, u, kids[|kids| - 1])
  }

  lemma {:induction false} DoneElems(rows: Table, u: string, kids: seq<Id>, x: Id)
    ensures x in Done(rows, u, kids) <==> exists i :: 0 <= i < |kids| && x in Subtree(rows, u, kids[i])
  {
    if kids != [] {
      var front, last := kids[..|kids| - 1], kids[|kids| - 1];
      DoneElems(rows, u, front, x);
      if x in Done(rows, u, front) {
        var i :| 0 <= i < |front| && x in Subtree(rows, u, front[i]);
        assert kids[i] == front[i];
      }
      if x in Subtree(rows, u, last) { assert x in Subtree(rows, u, kids[|kids| - 1]); }
      if i :| 0 <= i < |kids| && x in Subtree(rows, u, kids[i]) {
        if i < |front| { assert front[i] == kids[i]; }
      }
    }
  }

  /** When all children are done, everything below is. */
  lemma AllDone(rows: Table, u: string, id: Id, kids: seq<Id>)
    requires forall c :: c in kids <==> c in Children(rows, u, id)
    ensures Done(rows, u, kids) == Below(rows, u, id)
  {
    forall x ensures x in Done(rows, u, kids) <==> x in Below(rows, u, id) {
      DoneElems(rows, u, kids, x);
      BelowIsSubtrees(rows, u, id, x);
      if i :| 0 <= i < |kids| && x in Subtree(rows, u, kids[i]) {
        assert kids[i] in kids;
      }
    }
  }

  /** The next child's subtree is still untouched. */
  lemma NextUntouched(rows: Table, u: string, id: Id, kids: seq<Id>, i: nat)
    requires Acyclic(Links(rows, u)) && NoDup(kids) && i < |kids|
    requires forall c :: c in kids <==> c in Children(rows, u, id)
    ensures Done(rows, u, kids[..i]) !! Subtree(rows, u, kids[i])
    ensures Done(rows, u, kids[..i + 1]) == Done(rows, u, kids[..i]) + Subtree(rows, u, kids[i])
  {
    assert kids[..i + 1][..i] == kids[..i];
    assert kids[i] in kids;
    forall x | x in Subtree(rows, u, kids[i]) ensures x !in Done(rows, u, kids[..i]) {
      DoneElems(rows, u, kids[..i], x);
      if j :| 0 <= j < i && x in Subtree(rows, u, kids[..i][j]) {
        assert kids[j] in kids && kids[j] != kids[i];
        SubtreesDisjoint(rows, u, id, kids[i], kids[j]);
      }
    }
  }

  lemma EmptyDone(rows: Table, u: string, kids: seq<Id>)
    ensures Done(rows, u, kids[..0]) == {}
  {
  }

  lemma AppendElem(s: seq<Id>, x: Id)
    requires NoDup(s) && x !in Elems(s)
    ensures NoDup(s + [x]) && Elems(s + [x]) == Elems(s) + {x}
  {
    NoDupAppend(s, x);
  }

  /** Everything the recursion needs to know before it enters the `i`-th child. */
  lemma BeforeChild(rows: Table, u: string, id: Id, kids: seq<Id>, i: nat)
    requires Acyclic(Links(rows, u)) && NoDup(kids) && i < |kids|
    requires forall c :: c in kids <==> c in Children(rows, u, id)
    ensures var c, before := kids[i], Done(rows, u, kids[..i]);
      && |Below(rows, u, c)| < |Below(rows, u, id)|
      && Done(rows, u, kids[..i + 1]) == before + {c} + Below(rows, u, c)
      && before !! Below(rows, u, c) && c !in before && c !in Below(rows, u, c)
      && c in Below(rows, u, id) && Below(rows, u, c) <= Below(rows, u, id)
      && Owns(rows, u, c)
  {
    assert kids[i] in kids;
    ChildFacts(rows, u, id, kids[i]);
    NextUntouched(rows, u, id, kids, i);
  }

  /** The `i`-th child, in the table from which the earlier ones are deleted. */
  lemma BeforeDeletion(rows: Table, u: string, id: Id, kids: seq<Id>, i: nat)
    requires Acyclic(Links(rows, u)) && NoDup(kids) && i < |kids|
    requires forall c :: c in kids <==> c in Children(rows, u, id)
    ensures var c, before := kids[i], Done(rows, u, kids[..i]);
      && Acyclic(Links(rows - before, u)) && c !in Below(rows - before, u, c)
      && Subtree(rows - before, u, c) == Subtree(rows, u, c) <= Below(rows, u, id)
      && before !! Subtree(rows, u, c)
      && |Below(rows - before, u, c)| < |Below(rows, u, id)|
      && rows - before - Subtree(rows, u, c) == rows - Done(rows, u, kids[..i + 1])
      && before + Subtree(rows, u, c) == Done(rows, u, kids[..i + 1])
  {
    hide *;
    BeforeChild(rows, u, id, kids, i);
    AcyclicWithout(rows, u, Done(rows, u, kids[..i]));
    BelowWithout(rows, u, Done(rows, u, kids[..i]), kids[i]);
    SubtreeParts(rows, u, kids[i]);
    SubtreeParts(rows - Done(rows, u, kids[..i]), u, kids[i]);
    GoneInTurn(rows, Done(rows, u, kids[..i]), kids[i], Below(rows, u, kids[i]));
  }

  lemma SubtreeParts(rows: Table, u: string, c: Id)
    ensures Subtree(rows, u, c) == {c} + Below(rows, u, c)
  {
  }

  lemma GoneInTurn(rows: Table, a: set<Id>, c: Id, below: set<Id>)
    ensures rows - a - ({c} + below) == rows - (a + {c} + below)
    ensures a + ({c} + below) == a + {c} + below
    ensures a !! below && c !in a ==> a !! ({c} + below)
  {
  }

  class FolderTable {
    var rows: Table

    constructor ()
      ensures rows == map[]
    {
      rows := map[];
    }

    /** `get_folders_by_parent_id_and_user_id`, in any order. */
    method SelectChildren(parentId: Id, u: string) returns (ids: seq<Id>)
      ensures NoDup(ids) && forall c :: c in ids <==> c in Children(rows, u, parentId)
      ensures forall c :: c in ids <==> c in rows && rows[c].userId == u && rows[c].parentId == Some(parentId)
    {
      ids := [];
      var todo := Children(rows, u, parentId);
      while todo != {}
        invariant todo <= Children(rows, u, parentId) && NoDup(ids)
        invariant forall c :: c in ids <==> c in Children(rows, u, parentId) && c !in todo
        decreases todo
      {
        var c :| c in todo;
        NoDupAppend(ids, c);
        ids, todo := ids + [c], todo - {c};
      }
    }

    /** The recursive closure of `get_children_folders_by_id_and_user_id`: children
        after what is below them.  Without cycles it terminates. */
    method CollectChildren(id: Id, u: string, collected: seq<Id>) returns (folders: seq<Id>)
      requires Acyclic(Links(rows, u))
      requires NoDup(collected) && Elems(collected) !! Below(rows, u, id)
      ensures NoDup(folders) && Elems(folders) == Elems(collected) + Below(rows, u, id)
      decreases |Below(rows, u, id)|
    {
      hide Acyclic, Below, Done, Links, Children;
      var kids := SelectChildren(id, u);
      folders := collected;
      EmptyDone(rows, u, kids);
      for i := 0 to |kids|
        invariant NoDup(folders) && Elems(folders) == Elems(collected) + Done(rows, u, kids[..i])
      {
        BeforeChild(rows, u, id, kids, i);
        folders := CollectChildren(kids[i], u, folders);
        AppendElem(folders, kids[i]);
        folders := folders + [kids[i]];
      }
      assert kids[..|kids|] == kids;
      AllDone(rows, u, id, kids);
    }

    /** Nothing for a folder the user does not have; otherwise exactly the folders
        below it, each once. */
    method GetChildrenFolders(id: Id, u: string) returns (folders: Option<seq<Id>>)
      requires Acyclic(Links(rows, u))
      ensures folders.None? <==> !(id in rows && rows[id].userId == u)
      ensures folders.Some? ==> NoDup(folders.value) && Elems(folders.value) == Below(rows, u, id)
      ensures folders.Some? ==> forall x :: x in folders.value ==> x in rows && rows[x].userId == u
    {
      if !(id in rows && rows[id].userId == u) { return None; }
      var all := CollectChildren(id, u, []);
      folders := Some(all);
      forall x | x in all ensures x in rows && rows[x].userId == u {
        assert x in Elems(all);
        BelowOwned(rows, u, id, x);
      }
    }

    /** The recursive closure of the delete: each child goes after what is below it. */
    method DeleteChildren(id: Id, u: string, deleted: seq<Id>) returns (folderIds: seq<Id>)
      requires Acyclic(Links(rows, u))
      requires NoDup(deleted) && Elems(deleted) !! Below(rows, u, id)
      modifies this
      ensures rows == old(rows) - Below(old(rows), u, id)
      ensures deleted <= folderIds && NoDup(folderIds)
      ensures Elems(folderIds) == Elems(deleted) + Below(old(rows), u, id)
      decreases |Below(rows, u, id)|, 0
    {
      hide Acyclic, Below, Done, Links, Children, Owns, Subtree;
      ghost var before := rows;
      var kids := SelectChildren(id, u);
      folderIds := deleted;
      EmptyDone(rows, u, kids);
      for i := 0 to |kids|
        invariant rows == before - Done(before, u, kids[..i])
        invariant deleted <= folderIds && NoDup(folderIds)
        invariant Elems(folderIds) == Elems(deleted) + Done(before, u, kids[..i])
      {
        BeforeDeletion(before, u, id, kids, i);
        folderIds := DeleteSubtree(kids[i], u, folderIds);
      }
      assert kids[..|kids|] == kids;
      AllDone(before, u, id, kids);
    }

    /** One round of the loop over children: what is below the child, then the child. */
    method DeleteSubtree(child: Id, u: string, deleted: seq<Id>) returns (folderIds: seq<Id>)
      requires Acyclic(Links(rows, u)) && child !in Below(rows, u, child)
      requires NoDup(deleted) && Elems(deleted) !! Subtree(rows, u, child)
      modifies this
      ensures rows == old(rows) - Subtree(old(rows), u, child)
      ensures deleted <= folderIds && NoDup(folderIds)
      ensures Elems(folderIds) == Elems(deleted) + Subtree(old(rows), u, child)
      decreases |Below(rows, u, child)|, 1
    {
      hide Acyclic, Below, Links;
      folderIds := DeleteChildren(child, u, deleted);
      AppendElem(folderIds, child);
      folderIds := folderIds + [child];
      rows := rows - {child};
    }

    /** Deletes the folder and exactly what its owner keeps below it, and returns
        their ids, each once, the root first. */
    method DeleteFolder(id: Id, u: string) returns (folderIds: seq<Id>)
      requires Acyclic(Links(rows, u))
      modifies this
      ensures !(id in old(rows) && old(rows)[id].userId == u) ==> folderIds == [] && rows == old(rows)
      ensures forall x :: x in old(rows) && old(rows)[x].userId != u ==> x in rows
      ensures id in old(rows) && old(rows)[id].userId == u ==>
                && rows == old(rows) - Subtree(old(rows), u, id)
                && NoDup(folderIds) && Elems(folderIds) == Subtree(old(rows), u, id)
                && folderIds != [] && folderIds[0] == id
    {
      folderIds := [];
      if id in rows && rows[id].userId == u {
        InDescendants(Links(rows, u), id, id);
        folderIds := DeleteChildrenOfRoot(id, u);
        rows := rows - {id};
        forall x | x in old(rows) && old(rows)[x].userId != u ensures x in rows {
          if x in Below(old(rows), u, id) { BelowOwned(old(rows), u, id, x); }
        }
      }
    }

    method DeleteChildrenOfRoot(id: Id, u: string) returns (folderIds: seq<Id>)
      requires Acyclic(Links(rows, u)) && id !in Below(rows, u, id)
      modifies this
      ensures rows == old(rows) - Below(old(rows), u, id)
      ensures NoDup(folderIds) && Elems(folderIds) == Subtree(old(rows), u, id)
      ensures folderIds != [] && folderIds[0] == id
    {
      var root := [id];
      assert Elems(root) == {id};
      folderIds := DeleteChildren(id, u, root);
      assert folderIds[0] == root[0];
    }

    method UpdateParent(id: Id, u: string, parentId: Option<Id>, now: int) returns (found: bool)
      modifies this
      ensures found == (id in old(rows) && old(rows)[id].userId == u)
      ensures rows == if found then old(rows)[id := old(rows)[id].(parentId := parentId, updatedAt := now)] else old(rows)
    {
      found := id in rows && rows[id].userId == u;
      if found {
        var folder := rows[id];
        folder := folder.(parentId := parentId);
        folder := folder.(updatedAt := now);
        rows := rows[id := folder];
      }
    }
  }

  // -------------------------------------------------------- what deletion leaves

  /** A folder of `u` whose parent is gone. */
  predicate Dangling(rows: Table, u: string, x: Id) {
    Owns(rows, u, x) && rows[x].parentId.Some? && rows[x].parentId.value !in rows
  }

  /** Deleting a folder with everything below it leaves no folder of that user
      dangling that was not dangling before, and the rest is still a forest. */
  lemma DeleteLeavesNoOrphans(rows: Table, u: string, id: Id, x: Id)
    requires Acyclic(Links(rows, u)) && Owns(rows, u, id)
    ensures var rows' := rows - Subtree(rows, u, id);
      Acyclic(Links(rows', u)) && (Dangling(rows', u, x) ==> Dangling(rows, u, x))
  {
    var rows' := rows - Subtree(rows, u, id);
    AcyclicWithout(rows, u, Subtree(rows, u, id));
    if Dangling(rows', u, x) && !Dangling(rows, u, x) {
      var par, p := Links(rows, u), rows[x].parentId.value;
      assert p in Subtree(rows, u, id) && par[x] == p;
      ParentIsAncestor(par, x);
      InDescendants(par, id, p);
      if p != id { AncestorTransitive(par, id, p, x); }
      InDescendants(par, id, x);
      assert false;
    }
  }

  /** Moving a folder keeps the forest exactly when the new parent is neither the
      folder itself nor one of the folders the children listing returns for it. */
  lemma MoveKeepsForest(rows: Table, u: string, id: Id, parentId: Option<Id>, now: int)
    requires Acyclic(Links(rows, u)) && Owns(rows, u, id)
    ensures var moved := rows[id := rows[id].(parentId := parentId, updatedAt := now)];
      Acyclic(Links(moved, u)) <==> !(parentId.Some? && (parentId.value == id || parentId.value in Below(rows, u, id)))
  {
    var moved := rows[id := rows[id].(parentId := parentId, updatedAt := now)];
    var par, par' := Links(rows, u), Links(moved, u);
    if parentId.Some? {
      assert par' == par[id := parentId.value];
      SetParent(par, id, parentId.value);
      InDescendants(par, id, parentId.value);
    } else {
      assert par' == par - {id};
      SubgraphAcyclic(par', par);
    }
  }
}
