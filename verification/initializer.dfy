/** Bootstrap of the store. Both tables are created with `IF NOT EXISTS`, and
    the sentinel root directory (id 0, no parent, name `~`) is inserted only
    when the probe `SELECT id FROM directory` finds no row at all; the probe
    asks for any directory, not for id 0. An absent table and an empty one
    are the same here: both are an empty map. */
module DatabaseInitializer {
  import opened Expect
  import opened Schema
  import opened DirectoryTree

  const RootRow: Row := Row(None, RootName)

  function Initialize(s: Store): (r: Store)
    ensures r.files == s.files
    ensures s.dirs != map[] ==> r == s
    ensures s.dirs == map[] ==> r.dirs == map[RootId := RootRow]
  {
    if s.dirs == map[] then s.(dirs := map[RootId := RootRow]) else s
  }

  /** The whole bootstrap runs in one transaction and nothing catches a
      failure: when the engine fails any statement or the commit, the call
      throws to its caller and disposing the transaction rolls it back, so
      the database stays `s`. Otherwise the bootstrapped store is committed. */
  function InitializeTransaction(s: Store, engineFault: bool): (r: Call<Store>)
    ensures r.Threw? <==> engineFault
    ensures r.Returned? ==> r.value.files == s.files
    ensures r.Returned? ==> (r.value == s <==> s.dirs != map[])
    ensures r.Returned? ==> r.value.dirs != map[]
  {
    if engineFault then Threw
    else
      assert RootId in Initialize(s).dirs || s.dirs != map[];
      Returned(Initialize(s))
  }

  /** A second run changes nothing. */
  lemma InitializeIsIdempotent(s: Store)
    ensures Initialize(Initialize(s)) == Initialize(s)
  {
  }

  /** From an empty database, exactly the root directory and no file remain. */
  lemma InitializeEmptyStore()
    ensures Initialize(Store(map[], map[])) == Store(map[RootId := Row(None, "~")], map[])
  {
  }

  /** The root is inserted only when there is no directory at all: a store
      that lacks id 0 but has another directory is left without a root. */
  lemma InitializeProbesForAnyRow(s: Store)
    requires s.dirs != map[] && RootId !in s.dirs
    ensures RootId !in Initialize(s).dirs
  {
  }

  lemma RootNameIsNonBlank()
    ensures NonBlank(RootName)
  {
    assert RootName[0] != ' ';
    NonBlankIffSomeNonSpace(RootName);
  }

  /** The store bootstrap leaves behind in an empty database. */
  const Bootstrapped: Store := Store(map[RootId := RootRow], map[])

  /** The root-only store keeps every schema constraint. */
  lemma BootstrappedIsValid()
    ensures Valid(Bootstrapped)
  {
    var t := Bootstrapped.dirs;
    assert t.Keys == {RootId};
    assert forall id | id in t :: t[id] == RootRow;
    RootNameIsNonBlank();
    assert NamesNonBlank(t);
    assert forall id | id in t :: t[id].parent.None?;
  }

  /** The root-only store has the tree shape. */
  lemma BootstrappedIsRooted()
    ensures Rooted(Bootstrapped)
  {
    SubtreeIsLeastClosedSet(Bootstrapped.dirs, RootId, {});
    assert Bootstrapped.dirs.Keys == {RootId};
  }

  /** Bootstrap keeps the schema constraints and the tree shape, and in a
      store of that shape it always leaves the root in place. */
  lemma InitializeEstablishesRoot(s: Store)
    requires Valid(s) && Rooted(s)
    ensures Valid(Initialize(s)) && Rooted(Initialize(s))
    ensures RootId in Initialize(s).dirs && Initialize(s).dirs[RootId].parent.None?
  {
    if s.dirs == map[] {
      assert Initialize(s) == Bootstrapped;
      BootstrappedIsValid();
      BootstrappedIsRooted();
    }
  }
}
