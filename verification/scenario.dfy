/** An end-to-end run of the repositories from an empty database: bootstrap,
    create a directory under the root and a file inside it, list, search,
    and delete the directory again. */
module Scenario {
  import opened Expect
  import opened Schema
  import opened DirectoryTree
  import opened LikeOperator
  import opened DatabaseInitializer
  import opened DeleteCommand
  import opened ListCommand
  import opened SearchCommand
  import opened DirectoryRepository
  import opened FileRepository
  import opened RepositoryResults

  /** The names used below are valid. */
  lemma ScenarioNamesValid()
    ensures NonBlank("D") && NonBlank("F")
  {
    var dn, fn := "D", "F";
    assert dn[0] != ' ' && fn[0] != ' ';
    NonBlankIffSomeNonSpace(dn);
    NonBlankIffSomeNonSpace(fn);
  }

  /** The store holding the root, directory `D` under it and file `F` in `D`. */
  function Populated(d: Id, f: Id): Store {
    Store(map[RootId := RootRow, d := Row(Some(RootId), "D")], map[f := Row(Some(d), "F")])
  }

  /** Bootstrap and the two creates succeed, echo their arguments, and leave
      exactly that store. */
  lemma ScenarioCreates(d: Id, f: Id)
    requires d != RootId
    ensures var s0 := Initialize(Store(map[], map[]));
            var c1 := CreateDirectory(s0, RootId, Some("D"), d, false);
            var c2 := CreateFile(c1.store, d, Some("F"), f, false);
            && c1.result == Ok(DirectoryEntity(d, RootId, "D"))
            && c2.result == Ok(FileEntity(f, d, "F"))
            && c2.store == Populated(d, f)
  {
    ScenarioNamesValid();
  }

  /** The root lists the directory and the directory lists the file. */
  lemma ScenarioListing(d: Id, f: Id)
    requires d != RootId
    ensures Entry(d, RootId, "D", true) in EntriesByParent(Populated(d, f), RootId)
    ensures Entry(f, d, "F", false) in EntriesByParent(Populated(d, f), d)
  {
  }

  /** A search of the whole tree with an empty prefix finds the file. */
  lemma ScenarioSearchFinds(d: Id, f: Id)
    requires d != RootId
    ensures f in MatchingIds(Populated(d, f), RootId, Some(""))
  {
    var s := Populated(d, f);
    ChildInSubtree(s.dirs, RootId, d);
    PercentMatchesEverything(s.files[f].name);
    assert Pattern(Some("")) == "%";
  }

  /** A search of the directory for `zzz` does not find the file. */
  lemma ScenarioSearchMisses(d: Id, f: Id)
    requires d != RootId
    ensures f !in MatchingIds(Populated(d, f), d, Some("zzz"))
  {
    var s := Populated(d, f);
    var zzz := "zzz";
    assert WildcardFree(zzz);
    assert s.files[f].name == "F";
    assert !SameIgnoringAsciiCase(s.files[f].name[0], zzz[0]);
    DivergingNameExcluded(s, d, zzz, f, 0);
  }

  /** Deleting the directory takes the file with it and leaves the root alone. */
  lemma ScenarioDelete(d: Id, f: Id)
    requires d != RootId
    ensures DeleteDirectory(Populated(d, f), d, IdAndParentNotNull, false) ==
              Outcome(Store(map[RootId := RootRow], map[]), Ok(d))
  {
    var s := Populated(d, f);
    var sub := Subtree(s.dirs, d);
    SubtreeIsLeastClosedSet(s.dirs, d, {d});
    assert sub == {d};
    var r := Cascade(s, d);
    assert r.dirs.Keys == {RootId};
    assert r.files.Keys == {};
  }
}
