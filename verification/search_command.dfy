/** The file search: the recursive query collects the subtree of the root
    id, keeps the files whose parent lies in it and whose name is
    `LIKE prefix || '%'`, and stops after `LIMIT` rows. The query has no
    `ORDER BY`, so which matching rows survive the limit is the engine's
    choice. */
module SearchCommand {
  import opened Expect
  import opened Schema
  import opened DirectoryTree
  import opened LikeOperator

  /** One result row. */
  datatype FileEntity = FileEntity(id: Id, parent: Id, name: string)

  /** The bound `LIKE` pattern: C# string interpolation turns a `null`
      prefix into the empty string, so a missing prefix becomes `%`. */
  function Pattern(prefix: Option<string>): (p: string)
    ensures |p| >= 1 && p[|p| - 1] == '%'
    ensures prefix.Some? ==> p[..|p| - 1] == prefix.value
    ensures prefix.None? ==> p == "%"
  {
    prefix.UnwrapOr("") + "%"
  }

  /** The file ids the query selects before the limit is applied. */
  function MatchingIds(s: Store, root: Id, prefix: Option<string>): (r: set<Id>)
    ensures r <= s.files.Keys
    ensures forall id | id in s.files ::
              id in r <==> ParentIn(s.files[id], Subtree(s.dirs, root)) && Like(s.files[id].name, Pattern(prefix))
  {
    var sub := Subtree(s.dirs, root);
    set id | id in s.files && ParentIn(s.files[id], sub) && Like(s.files[id].name, Pattern(prefix))
  }

  /** How many rows `LIMIT limit` lets through out of `n`: a negative limit
      is no limit at all. */
  function Capped(n: nat, limit: Int32): (r: nat)
    ensures r <= n
    ensures limit < 0 ==> r == n
    ensures limit >= 0 ==> r <= limit && (r == n || r == limit)
  {
    if limit < 0 || n <= limit then n else limit
  }

  /** A file whose parent column holds a directory id. */
  predicate HasParent(s: Store, id: Id) {
    id in s.files && s.files[id].parent.Some?
  }

  /** The row the query reads back for file `id`. */
  function EntityOf(s: Store, id: Id): (e: FileEntity)
    requires HasParent(s, id)
    ensures e.id == id && Some(e.parent) == s.files[id].parent && e.name == s.files[id].name
  {
    FileEntity(id, s.files[id].parent.value, s.files[id].name)
  }

  /** The ids of a sequence of rows. */
  function IdsOf(rows: seq<FileEntity>): set<Id> {
    set i | 0 <= i < |rows| :: rows[i].id
  }

  lemma IdsOfAppend(rows: seq<FileEntity>, e: FileEntity)
    ensures IdsOf(rows + [e]) == IdsOf(rows) + {e.id}
  {
    var r := rows + [e];
    forall x | x in IdsOf(r)
      ensures x in IdsOf(rows) + {e.id}
    {
      var i :| 0 <= i < |r| && r[i].id == x;
      if i < |rows| {
        assert r[i] == rows[i];
      }
    }
    forall x | x in IdsOf(rows)
      ensures x in IdsOf(r)
    {
      var i :| 0 <= i < |rows| && rows[i].id == x;
      assert r[i] == rows[i];
    }
    assert r[|rows|] == e;
  }

  /** After reading `rows`, the ids in `remaining` are those not read yet,
      and every row read so far is a distinct selected file. */
  ghost predicate ReadSoFar(s: Store, ids: set<Id>, rows: seq<FileEntity>, remaining: set<Id>) {
    && remaining <= ids && IdsOf(rows) == ids - remaining
    && |rows| + |remaining| == |ids|
    && (forall i | 0 <= i < |rows| :: rows[i].id in ids && HasParent(s, rows[i].id) && rows[i] == EntityOf(s, rows[i].id))
    && (forall i, j | 0 <= i < j < |rows| :: rows[i].id != rows[j].id)
  }

  /** Reading one more unread id keeps the bookkeeping right. */
  lemma ReadOneMore(s: Store, ids: set<Id>, rows: seq<FileEntity>, remaining: set<Id>, id: Id)
    requires forall x | x in ids :: HasParent(s, x)
    requires ReadSoFar(s, ids, rows, remaining) && id in remaining
    ensures ReadSoFar(s, ids, rows + [EntityOf(s, id)], remaining - {id})
  {
    var e := EntityOf(s, id);
    var r := rows + [e];
    IdsOfAppend(rows, e);
    assert id !in IdsOf(rows);
    forall i | 0 <= i < |rows|
      ensures rows[i].id != id
    {
      assert rows[i].id in IdsOf(rows);
    }
  }

  /** Reads `count` rows out of the selected ids, one distinct id at a time. */
  method ReadRows(s: Store, ids: set<Id>, count: nat) returns (rows: seq<FileEntity>)
    requires count <= |ids|
    requires forall id | id in ids :: HasParent(s, id)
    ensures |rows| == count
    ensures forall i | 0 <= i < |rows| :: rows[i].id in ids && rows[i] == EntityOf(s, rows[i].id)
    ensures forall i, j | 0 <= i < j < |rows| :: rows[i].id != rows[j].id
    ensures count == |ids| ==> IdsOf(rows) == ids
  {
    var remaining := ids;
    rows := [];
    while |rows| < count
      invariant |rows| <= count
      invariant ReadSoFar(s, ids, rows, remaining)
      decreases count - |rows|
    {
      var id :| id in remaining;
      ReadOneMore(s, ids, rows, remaining, id);
      rows := rows + [EntityOf(s, id)];
      remaining := remaining - {id};
    }
  }

  /** Runs the query and reads its rows in whatever order the engine yields
      them. */
  method SearchForFilesInSubtree(s: Store, root: Id, prefix: Option<string>, limit: Int32)
    returns (rows: seq<FileEntity>)
    ensures |rows| == Capped(|MatchingIds(s, root, prefix)|, limit)
    ensures forall i | 0 <= i < |rows| ::
              rows[i].id in MatchingIds(s, root, prefix) && rows[i] == EntityOf(s, rows[i].id)
    ensures forall i, j | 0 <= i < j < |rows| :: rows[i].id != rows[j].id
    ensures limit < 0 || |MatchingIds(s, root, prefix)| <= limit ==> IdsOf(rows) == MatchingIds(s, root, prefix)
  {
    var matching := MatchingIds(s, root, prefix);
    rows := ReadRows(s, matching, Capped(|matching|, limit));
  }

  // ----- what the search selects -----

  /** A root id that is not a directory has no descendants and no files
      under it, so the search selects nothing rather than failing. */
  lemma MissingRootSelectsNothing(s: Store, root: Id, prefix: Option<string>)
    requires Valid(s) && root !in s.dirs
    ensures MatchingIds(s, root, prefix) == {}
  {
    SubtreeOfMissingDirectory(s.dirs, root);
  }

  /** An empty or missing prefix selects every file of the subtree. */
  lemma EmptyPrefixSelectsWholeSubtree(s: Store, root: Id, prefix: Option<string>)
    requires prefix == None || prefix == Some("")
    ensures MatchingIds(s, root, prefix) == set id | id in s.files && ParentIn(s.files[id], Subtree(s.dirs, root))
  {
    assert Pattern(prefix) == "%";
    forall id | id in s.files
      ensures Like(s.files[id].name, Pattern(prefix))
    {
      PercentMatchesEverything(s.files[id].name);
    }
  }

  /** For a prefix without `%` or `_`, a file of the subtree is selected
      exactly when its name starts with the prefix, ignoring ASCII case. */
  lemma PlainPrefixSelectsByStart(s: Store, root: Id, prefix: string, id: Id)
    requires WildcardFree(prefix) && id in s.files
    ensures id in MatchingIds(s, root, Some(prefix)) <==>
              ParentIn(s.files[id], Subtree(s.dirs, root)) && StartsWithIgnoringAsciiCase(s.files[id].name, prefix)
  {
    PrefixPatternMatchesPrefixes(s.files[id].name, prefix);
  }

  /** A name that differs from a plain prefix at or before the prefix's
      last character is never selected. */
  lemma DivergingNameExcluded(s: Store, root: Id, prefix: string, id: Id, k: nat)
    requires WildcardFree(prefix) && id in s.files
    requires k < |prefix| && k < |s.files[id].name| && !SameIgnoringAsciiCase(s.files[id].name[k], prefix[k])
    ensures id !in MatchingIds(s, root, Some(prefix))
  {
    MismatchWithinPrefixExcludes(s.files[id].name, prefix, k);
  }

  /** A file in a directory outside the subtree is never selected. */
  lemma FilesOutsideSubtreeExcluded(s: Store, root: Id, prefix: Option<string>, id: Id)
    requires id in s.files && !ParentIn(s.files[id], Subtree(s.dirs, root))
    ensures id !in MatchingIds(s, root, prefix)
  {
  }
}
