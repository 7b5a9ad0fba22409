/** The one-level listing: the child directories of a parent, tagged as
    directories, `UNION` its child files, tagged as files. Each entry's
    parent is the requested id, copied from the argument. The query has no
    `ORDER BY`, so the result is a set. */
module ListCommand {
  import opened Expect
  import opened Schema

  /** One row of the listing. */
  datatype Entry = Entry(id: Id, parent: Id, name: string, isDirectory: bool)

  /** The ids of the rows of `t` whose parent is `parent`. */
  function ChildIds(t: Table, parent: Id): (r: set<Id>)
    ensures forall id | id in t :: id in r <==> t[id].parent == Some(parent)
    ensures r <= t.Keys
  {
    set id | id in t && t[id].parent == Some(parent)
  }

  /** The entries the half of the query over one table yields. */
  function EntriesOf(t: Table, ids: set<Id>, parent: Id, isDirectory: bool): set<Entry>
    requires ids <= t.Keys
  {
    set id | id in ids :: Entry(id, parent, t[id].name, isDirectory)
  }

  /** The whole query. An entry is listed exactly when its id is a row of
      the table its tag names, that row has the requested parent, and the
      entry carries the row's name. */
  function EntriesByParent(s: Store, parent: Id): (r: set<Entry>)
    ensures forall e | e in r :: e.parent == parent
    ensures forall e: Entry | e.parent == parent ::
              e in r <==> (if e.isDirectory then e.id in s.dirs && s.dirs[e.id] == Row(Some(parent), e.name)
                           else e.id in s.files && s.files[e.id] == Row(Some(parent), e.name))
  {
    EntriesOf(s.dirs, ChildIds(s.dirs, parent), parent, true) + EntriesOf(s.files, ChildIds(s.files, parent), parent, false)
  }

  /** Distinct ids give distinct entries, so one table's half of the query
      has as many entries as it has matching rows. */
  lemma {:induction false} EntriesOfCardinality(t: Table, ids: set<Id>, parent: Id, isDirectory: bool)
    requires ids <= t.Keys
    ensures |EntriesOf(t, ids, parent, isDirectory)| == |ids|
    decreases |ids|
  {
    if ids != {} {
      var x :| x in ids;
      var rest := ids - {x};
      EntriesOfCardinality(t, rest, parent, isDirectory);
      var e := Entry(x, parent, t[x].name, isDirectory);
      assert EntriesOf(t, ids, parent, isDirectory) == EntriesOf(t, rest, parent, isDirectory) + {e};
      assert e !in EntriesOf(t, rest, parent, isDirectory);
    }
  }

  /** The listing has one entry per child directory and one per child file:
      `UNION` never merges a directory with a file, because the tags differ. */
  lemma EntriesCount(s: Store, parent: Id)
    ensures |EntriesByParent(s, parent)| == |ChildIds(s.dirs, parent)| + |ChildIds(s.files, parent)|
  {
    var ds := EntriesOf(s.dirs, ChildIds(s.dirs, parent), parent, true);
    var fs := EntriesOf(s.files, ChildIds(s.files, parent), parent, false);
    EntriesOfCardinality(s.dirs, ChildIds(s.dirs, parent), parent, true);
    EntriesOfCardinality(s.files, ChildIds(s.files, parent), parent, false);
    assert ds * fs == {};
  }

  /** An id that is not a directory has no children under the foreign keys,
      so its listing is empty rather than an error. */
  lemma MissingParentListsNothing(s: Store, parent: Id)
    requires Valid(s) && parent !in s.dirs
    ensures EntriesByParent(s, parent) == {}
  {
    assert ChildIds(s.dirs, parent) == {};
    assert ChildIds(s.files, parent) == {};
  }

  /** The listing is not recursive: a directory whose parent is a child of
      the requested directory is not listed with it. */
  lemma NoGrandchildren(s: Store, parent: Id, child: Id, grandchild: Id)
    requires child in ChildIds(s.dirs, parent) && child != parent
    requires grandchild in ChildIds(s.dirs, child)
    ensures forall e | e in EntriesByParent(s, parent) && e.isDirectory :: e.id != grandchild
  {
  }
}
