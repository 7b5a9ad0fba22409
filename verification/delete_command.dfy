/** `DELETE FROM <table> WHERE <id column> = :id`, with the foreign keys'
    `ON DELETE CASCADE` actions. The statement's count is the number of rows
    its own `WHERE` matched: SQLite leaves rows removed by a foreign-key
    action out of the change count. */
module DeleteCommand {
  import opened Expect
  import opened Schema
  import opened DirectoryTree

  /** Which rows the statement's `WHERE` clause selects. `IdOnly` is the
      three-argument command; `IdAndParentNotNull` is the root-protecting
      variant the directory repository asks for with its fourth argument,
      which also requires the parent column to be non-NULL. */
  datatype RowFilter = IdOnly | IdAndParentNotNull

  /** The tables after a statement and its change count. */
  datatype Deleted = Deleted(store: Store, count: nat)

  /** The `WHERE` clause holds of the row with key `id`. */
  predicate Selects(t: Table, id: Id, filter: RowFilter) {
    id in t && (filter == IdOnly || t[id].parent.Some?)
  }

  /** Removing directory `d` and, through the cascades, every directory of
      its subtree and every file whose parent lies in that subtree. */
  function Cascade(s: Store, d: Id): (r: Store)
    ensures r.dirs.Keys == s.dirs.Keys - Subtree(s.dirs, d)
    ensures forall id | id in r.dirs :: r.dirs[id] == s.dirs[id]
    ensures forall id | id in s.files :: id in r.files <==> !ParentIn(s.files[id], Subtree(s.dirs, d))
    ensures forall id | id in r.files :: id in s.files && r.files[id] == s.files[id]
  {
    var sub := Subtree(s.dirs, d);
    Store(map id | id in s.dirs && id !in sub :: s.dirs[id],
          map id | id in s.files && !ParentIn(s.files[id], sub) :: s.files[id])
  }

  /** The statement on table `kind`. */
  function DeleteById(s: Store, kind: Kind, id: Id, filter: RowFilter): (r: Deleted)
    ensures r.count <= 1
    ensures r.count == 1 <==> Selects(s.Rows(kind), id, filter)
    ensures r.count == 0 ==> r.store == s
    ensures r.count == 1 && kind == FileTable ==> r.store == Store(s.dirs, s.files - {id})
    ensures r.count == 1 && kind == DirectoryTable ==> r.store == Cascade(s, id)
  {
    if !Selects(s.Rows(kind), id, filter) then Deleted(s, 0)
    else match kind
      case DirectoryTable => Deleted(Cascade(s, id), 1)
      case FileTable => Deleted(Store(s.dirs, s.files - {id}), 1)
  }

  // ----- the cascade removes exactly the subtree -----

  /** After the cascade no foreign key is broken. */
  lemma CascadeKeepsValid(s: Store, d: Id)
    requires Valid(s)
    ensures Valid(Cascade(s, d))
  {
    var sub := Subtree(s.dirs, d);
    var r := Cascade(s, d);
    SubtreeIsLeastClosedSet(s.dirs, d, {});
  }

  /** Any set of directories whose removal leaves no dangling parent and
      that contains `d` contains all of `d`'s subtree: the cascade removes
      no more than the foreign keys force it to. */
  lemma CascadeIsMinimal(dirs: Table, d: Id, removed: set<Id>)
    requires d in removed
    requires ParentsExist(dirs, dirs)
    requires ParentsExist(map id | id in dirs && id !in removed :: dirs[id], map id | id in dirs && id !in removed :: dirs[id])
    ensures Subtree(dirs, d) <= removed
  {
    var kept := map id | id in dirs && id !in removed :: dirs[id];
    assert ParentsExist(kept, kept);
    forall x | x in Children(dirs, removed)
      ensures x in removed
    {
      assert x in kept <==> x !in removed;
    }
    SubtreeIsLeastClosedSet(dirs, d, removed);
  }

  /** A directory that is not the root never has the root in its subtree,
      because the root has no parent. */
  lemma RootOutsideOtherSubtrees(dirs: Table, d: Id)
    requires RootId in dirs && dirs[RootId].parent.None?
    requires d != RootId
    ensures RootId !in Subtree(dirs, d)
  {
    SubtreeIsLeastClosedSet(dirs, d, {});
  }

  /** Directories outside the removed subtree are still reachable from the
      root in what remains. */
  lemma CascadeKeepsReachability(s: Store, d: Id)
    requires Rooted(s) && s.dirs != map[] && d != RootId
    ensures s.dirs.Keys - Subtree(s.dirs, d) <= Subtree(Cascade(s, d).dirs, RootId)
  {
    var sub := Subtree(s.dirs, d);
    var r := Cascade(s, d);
    var kept := Subtree(r.dirs, RootId);
    var t := kept + sub;
    SubtreeIsLeastClosedSet(s.dirs, d, {});
    SubtreeIsLeastClosedSet(r.dirs, RootId, {});
    forall x | x in Children(s.dirs, t)
      ensures x in t
    {
      var p := s.dirs[x].parent.value;
      if x !in sub && p !in sub {
        assert x in r.dirs && r.dirs[x] == s.dirs[x];
        assert x in Children(r.dirs, kept);
      } else if p in sub {
        assert x in Children(s.dirs, sub);
      }
    }
    SubtreeIsLeastClosedSet(s.dirs, RootId, t);
  }

  /** The cascade keeps the tree shape; removing the root's subtree leaves
      the store empty, which is trivially rooted. */
  lemma CascadeKeepsRooted(s: Store, d: Id)
    requires Valid(s) && Rooted(s)
    ensures Rooted(Cascade(s, d))
  {
    var r := Cascade(s, d);
    if s.dirs != map[] && d != RootId {
      RootOutsideOtherSubtrees(s.dirs, d);
      CascadeKeepsReachability(s, d);
      assert RootId in r.dirs;
    }
  }

  /** Without the root filter, deleting the root removes every directory and
      every file. */
  lemma DeletingRootEmptiesStore(s: Store)
    requires Valid(s) && Rooted(s) && RootId in s.dirs
    ensures DeleteById(s, DirectoryTable, RootId, IdOnly) == Deleted(Store(map[], map[]), 1)
  {
    var r := Cascade(s, RootId);
    assert r.dirs.Keys == {};
    forall id | id in s.files
      ensures id !in r.files
    {
      assert s.files[id].parent.value in s.dirs;
    }
    assert r.files.Keys == {};
  }

  /** With the root filter the root is never selected, so the statement
      changes nothing and counts no row. */
  lemma RootFilterProtectsRoot(s: Store)
    requires Rooted(s)
    ensures DeleteById(s, DirectoryTable, RootId, IdAndParentNotNull) == Deleted(s, 0)
  {
  }

  /** Deleting a directory that has descendants still counts one row, and
      the descendants are gone with it. */
  lemma CascadeCountsOneRow(s: Store, d: Id, child: Id, filter: RowFilter)
    requires Selects(s.dirs, d, filter)
    requires child in s.dirs && s.dirs[child].parent == Some(d)
    ensures DeleteById(s, DirectoryTable, d, filter).count == 1
    ensures d !in DeleteById(s, DirectoryTable, d, filter).store.dirs
    ensures child !in DeleteById(s, DirectoryTable, d, filter).store.dirs
  {
    SubtreeIsLeastClosedSet(s.dirs, d, {});
    assert child in Children(s.dirs, Subtree(s.dirs, d));
  }

  /** The statement keeps the invariants whichever table and filter it runs with. */
  lemma DeleteByIdKeepsInvariants(s: Store, kind: Kind, id: Id, filter: RowFilter)
    requires Valid(s) && Rooted(s)
    ensures Valid(DeleteById(s, kind, id, filter).store)
    ensures Rooted(DeleteById(s, kind, id, filter).store)
  {
    if Selects(s.Rows(kind), id, filter) && kind == DirectoryTable {
      CascadeKeepsValid(s, id);
      CascadeKeepsRooted(s, id);
    }
  }
}
