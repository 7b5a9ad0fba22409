/** The subtree closure of a directory: the least set of ids that holds the
    directory and every directory whose parent is already in the set. The
    recursive search query builds it with `WITH RECURSIVE ... UNION`, and
    `ON DELETE CASCADE` removes exactly the same set. */
module DirectoryTree {
  import opened Expect
  import opened Schema

  /** The row's parent is one of `s` (a NULL parent is in no set). */
  predicate ParentIn(row: Row, s: set<Id>) {
    row.parent.Some? && row.parent.value in s
  }

  /** The ids of the directories whose parent lies in `s`: one step of the
      recursive part of the query. */
  function Children(dirs: Table, s: set<Id>): (r: set<Id>)
    ensures r <= dirs.Keys
    ensures forall id | id in dirs :: id in r <==> ParentIn(dirs[id], s)
  {
    set id | id in dirs && ParentIn(dirs[id], s)
  }

  /** No step of the recursion can add anything to `s`. */
  predicate ClosedUnder(dirs: Table, s: set<Id>) {
    Children(dirs, s) <= s
  }

  lemma ChildrenMonotone(dirs: Table, a: set<Id>, b: set<Id>)
    requires a <= b
    ensures Children(dirs, a) <= Children(dirs, b)
  {
  }

  lemma SubsetCardinality<T>(a: set<T>, b: set<T>)
    requires a <= b
    ensures |a| <= |b|
  {
    if a != {} {
      var y :| y in a;
      SubsetCardinality(a - {y}, b - {y});
    }
  }

  /** A step that adds an id leaves fewer directory ids outside the set. */
  lemma GrowthShrinksRemainder(dirs: Table, seed: set<Id>)
    requires !(seed + Children(dirs, seed) <= seed)
    ensures |dirs.Keys - (seed + Children(dirs, seed))| < |dirs.Keys - seed|
  {
    var next := seed + Children(dirs, seed);
    var x :| x in next && x !in seed;
    var rest := dirs.Keys - seed;
    assert x in rest;
    SubsetCardinality(dirs.Keys - next, rest - {x});
  }

  /** The fixpoint iteration of the recursive query: add the children of the
      current set until nothing new appears. */
  function Close(dirs: Table, seed: set<Id>): (c: set<Id>)
    ensures seed <= c
    ensures ClosedUnder(dirs, c)
    ensures c <= seed + Children(dirs, c)
    decreases |dirs.Keys - seed|
  {
    var next := seed + Children(dirs, seed);
    if next <= seed then seed
    else
      GrowthShrinksRemainder(dirs, seed);
      var c := Close(dirs, next);
      ChildrenMonotone(dirs, seed, c);
      c
  }

  /** The closure is contained in every closed set that contains the seed:
      it is the least fixpoint. */
  lemma {:induction false} CloseIsLeast(dirs: Table, seed: set<Id>, t: set<Id>)
    requires seed <= t && ClosedUnder(dirs, t)
    ensures Close(dirs, seed) <= t
    decreases |dirs.Keys - seed|
  {
    var next := seed + Children(dirs, seed);
    if !(next <= seed) {
      GrowthShrinksRemainder(dirs, seed);
      ChildrenMonotone(dirs, seed, t);
      CloseIsLeast(dirs, next, t);
    }
  }

  /** The directory `root` together with all of its descendants. */
  function Subtree(dirs: Table, root: Id): (r: set<Id>)
    ensures root in r && ClosedUnder(dirs, r)
  {
    Close(dirs, {root})
  }

  /** The subtree holds the root, is closed under taking children, and lies
      inside every set with those two properties. */
  lemma SubtreeIsLeastClosedSet(dirs: Table, root: Id, t: set<Id>)
    ensures root in Subtree(dirs, root)
    ensures ClosedUnder(dirs, Subtree(dirs, root))
    ensures root in t && ClosedUnder(dirs, t) ==> Subtree(dirs, root) <= t
  {
    if root in t && ClosedUnder(dirs, t) {
      CloseIsLeast(dirs, {root}, t);
    }
  }

  /** Every member other than the root is a directory whose parent is a member. */
  lemma SubtreeMemberHasParentInside(dirs: Table, root: Id, x: Id)
    requires x in Subtree(dirs, root) && x != root
    ensures x in dirs && ParentIn(dirs[x], Subtree(dirs, root))
  {
  }

  /** A child of the root belongs to the root's subtree. */
  lemma ChildInSubtree(dirs: Table, root: Id, child: Id)
    requires child in dirs && dirs[child].parent == Some(root)
    ensures child in Subtree(dirs, root)
  {
    SubtreeIsLeastClosedSet(dirs, root, {});
    assert child in Children(dirs, Subtree(dirs, root));
  }

  /** With the foreign key in force, an id that is not a directory has no
      children, so its subtree is just itself. */
  lemma SubtreeOfMissingDirectory(dirs: Table, root: Id)
    requires ParentsExist(dirs, dirs)
    requires root !in dirs
    ensures Subtree(dirs, root) == {root}
  {
    assert ClosedUnder(dirs, {root});
    CloseIsLeast(dirs, {root}, {root});
  }

  /** `small` is `big` restricted to some of its keys. */
  ghost predicate SubTable(small: Table, big: Table) {
    forall id | id in small :: id in big && big[id] == small[id]
  }

  /** Adding rows to the directory table can only enlarge a closure. */
  lemma CloseGrowsWithTable(small: Table, big: Table, seed: set<Id>)
    requires SubTable(small, big)
    ensures Close(small, seed) <= Close(big, seed)
  {
    var c := Close(big, seed);
    assert Children(small, c) <= Children(big, c);
    CloseIsLeast(small, seed, c);
  }

  // ----- the tree shape kept by the repository operations -----

  /** The shape every sequence of repository operations keeps: files always
      have a parent, and when there are directories, the root is one of them,
      has no parent, and every directory descends from it. */
  ghost predicate Rooted(s: Store) {
    && (forall id | id in s.files :: s.files[id].parent.Some?)
    && (s.dirs != map[] ==>
          && RootId in s.dirs
          && s.dirs[RootId].parent.None?
          && s.dirs.Keys <= Subtree(s.dirs, RootId))
  }

  /** In a rooted store no directory is its own parent. */
  lemma RootedHasNoSelfParent(s: Store, d: Id)
    requires Rooted(s)
    requires d in s.dirs
    ensures s.dirs[d].parent != Some(d)
  {
    if s.dirs[d].parent == Some(d) {
      var c := Subtree(s.dirs, RootId);
      var t := c - {d};
      forall x | x in Children(s.dirs, t)
        ensures x in t
      {
        assert x in Children(s.dirs, c);
      }
      SubtreeIsLeastClosedSet(s.dirs, RootId, t);
      assert false;
    }
  }
}
