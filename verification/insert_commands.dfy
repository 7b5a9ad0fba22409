/** The two insert commands, `INSERT INTO <table> (parent, name) VALUES (..)
    RETURNING id`. The caller binds only the parent and the name; the engine
    picks the new id, and `newId` stands for that choice: any id that is not
    yet a key of the table (the primary key is an alias of the rowid, so the
    engine never reuses a live id, but it may reuse a deleted one).

    SQLite checks a row's constraints in a fixed order: `NOT NULL` and
    `CHECK` while it builds the row, `UNIQUE` when it writes the index entry,
    and an immediate foreign key at the end of the statement. A statement
    that fails any of them leaves the tables as they were. */
module InsertCommands {
  import opened Expect
  import opened Schema
  import opened DirectoryTree

  /** The tables after a statement, and what the statement returned. */
  datatype Step<+T> = Step(store: Store, result: Result<T, Fault>)

  /** The store with the row `(parent, name)` added under id `newId`. */
  function Candidate(s: Store, kind: Kind, parent: Id, name: string, newId: Id): (r: Store)
    ensures r.Rows(kind) == s.Rows(kind)[newId := Row(Some(parent), name)]
    ensures kind == DirectoryTable ==> r.files == s.files
    ensures kind == FileTable ==> r.dirs == s.dirs
  {
    s.WithRows(kind, s.Rows(kind)[newId := Row(Some(parent), name)])
  }

  /** One insert statement whose foreign-key check looks the parent up in
      `fkTargets`. A `None` name is a C# `null` bound to the name column. */
  function InsertRow(s: Store, kind: Kind, parent: Id, name: Option<string>, newId: Id, fkTargets: set<Id>): (r: Step<Id>)
    requires newId !in s.Rows(kind)
    ensures r.result.Err? ==> r.store == s
    ensures r.result.Ok? ==> r.result.value == newId && name.Some?
    ensures r.result.Ok? ==> r.store == Candidate(s, kind, parent, name.value, newId)
    ensures r.result == Err(ConstraintNotNull) <==> name.None?
    ensures r.result == Err(ConstraintCheck) <==> name.Some? && !NonBlank(name.value)
    ensures r.result == Err(ConstraintUnique) <==>
              name.Some? && NonBlank(name.value) && HasSibling(s.Rows(kind), parent, name.value)
    ensures r.result == Err(ConstraintForeignKey) <==>
              name.Some? && NonBlank(name.value) && !HasSibling(s.Rows(kind), parent, name.value) && parent !in fkTargets
    ensures r.result != Err(EngineFailure)
  {
    if name.None? then Step(s, Err(ConstraintNotNull))
    else if !NonBlank(name.value) then Step(s, Err(ConstraintCheck))
    else if HasSibling(s.Rows(kind), parent, name.value) then Step(s, Err(ConstraintUnique))
    else if parent !in fkTargets then Step(s, Err(ConstraintForeignKey))
    else Step(Candidate(s, kind, parent, name.value, newId), Ok(newId))
  }

  /** The directory ids the engine's foreign-key check accepts as parent of
      the new row. When the child table is also the parent table, SQLite lets
      a new row satisfy its foreign key with its own primary key, so a new
      directory may name itself as parent. */
  function ForeignKeyTargetsAsWritten(s: Store, kind: Kind, newId: Id): (r: set<Id>)
    ensures s.dirs.Keys <= r
    ensures kind == FileTable ==> r == s.dirs.Keys
    ensures kind == DirectoryTable ==> newId in r
  {
    match kind
    case DirectoryTable => s.dirs.Keys + {newId}
    case FileTable => s.dirs.Keys
  }

  /** The insert exactly as the engine runs it, self-reference included. */
  function InsertAsWritten(s: Store, kind: Kind, parent: Id, name: Option<string>, newId: Id): (r: Step<Id>)
    requires newId !in s.Rows(kind)
    ensures r.result.Ok? ==> parent in s.dirs || (kind == DirectoryTable && parent == newId)
  {
    InsertRow(s, kind, parent, name, newId, ForeignKeyTargetsAsWritten(s, kind, newId))
  }

  /** The insert as the repositories intend it: the parent must already be a
      directory, so a new directory can never be its own parent. */
  function Insert(s: Store, kind: Kind, parent: Id, name: Option<string>, newId: Id): (r: Step<Id>)
    requires newId !in s.Rows(kind)
    ensures r.result.Ok? ==> parent in s.dirs
    ensures r.result == Err(ConstraintForeignKey) ==> parent !in s.dirs
  {
    InsertRow(s, kind, parent, name, newId, s.dirs.Keys)
  }

  /** `INSERT INTO directory ...` as the engine runs it: the parent may be an
      existing directory or the new row itself. It never touches the file table. */
  function InsertDirectoryEntity(s: Store, parent: Id, name: Option<string>, newId: Id): (r: Step<Id>)
    requires newId !in s.dirs
    ensures r.store.files == s.files
    ensures r.result.Ok? ==> r.result.value !in s.dirs && r.result.value in r.store.dirs
    ensures r.result.Ok? ==> name.Some? && r.store.dirs == s.dirs[r.result.value := Row(Some(parent), name.value)]
    ensures r.result.Ok? ==> parent in s.dirs || parent == r.result.value
  {
    InsertAsWritten(s, DirectoryTable, parent, name, newId)
  }

  /** `INSERT INTO file ...` as the engine runs it: the parent must be an
      existing directory. It never touches the directory table. */
  function InsertFileEntity(s: Store, parent: Id, name: Option<string>, newId: Id): (r: Step<Id>)
    requires newId !in s.files
    ensures r.store.dirs == s.dirs
    ensures r.result.Ok? ==> r.result.value !in s.files && r.result.value in r.store.files
    ensures r.result.Ok? ==> name.Some? && r.store.files == s.files[r.result.value := Row(Some(parent), name.value)]
    ensures r.result.Ok? ==> parent in s.dirs
  {
    InsertAsWritten(s, FileTable, parent, name, newId)
  }

  // ----- one new row against the table constraints -----

  lemma NamesNonBlankWithRow(t: Table, newId: Id, row: Row)
    requires newId !in t && NamesNonBlank(t)
    ensures NamesNonBlank(t[newId := row]) <==> NonBlank(row.name)
  {
    assert t[newId := row][newId] == row;
  }

  lemma SiblingNamesUniqueWithRow(t: Table, newId: Id, parent: Id, name: string)
    requires newId !in t && SiblingNamesUnique(t)
    ensures SiblingNamesUnique(t[newId := Row(Some(parent), name)]) <==> !HasSibling(t, parent, name)
  {
    var u := t[newId := Row(Some(parent), name)];
    if HasSibling(t, parent, name) {
      var id :| id in t && t[id].parent == Some(parent) && t[id].name == name;
      assert u[id] == t[id] && u[newId].name == name && id != newId;
    }
  }

  lemma ParentsExistGrows(t: Table, dirs: Table, more: Table)
    requires ParentsExist(t, dirs) && dirs.Keys <= more.Keys
    ensures ParentsExist(t, more)
  {
  }

  /** The statement succeeds exactly when none of the four checks fails. */
  lemma InsertRowOkIff(s: Store, kind: Kind, parent: Id, name: Option<string>, newId: Id, fkTargets: set<Id>)
    requires newId !in s.Rows(kind)
    ensures InsertRow(s, kind, parent, name, newId, fkTargets).result.Ok? <==>
              name.Some? && NonBlank(name.value) && !HasSibling(s.Rows(kind), parent, name.value) && parent in fkTargets
  {
  }

  /** A new directory row satisfies the self-referencing foreign key exactly
      when its parent is an old directory or the new row itself. */
  lemma ParentsExistWithDirectory(dirs: Table, parent: Id, name: string, newId: Id)
    requires ParentsExist(dirs, dirs) && newId !in dirs
    ensures ParentsExist(dirs[newId := Row(Some(parent), name)], dirs[newId := Row(Some(parent), name)]) <==>
              parent in dirs || parent == newId
  {
    var u := dirs[newId := Row(Some(parent), name)];
    assert u[newId].parent == Some(parent);
  }

  /** A new file row satisfies its foreign key exactly when its parent is
      a directory. */
  lemma ParentsExistWithFile(files: Table, dirs: Table, parent: Id, name: string, newId: Id)
    requires ParentsExist(files, dirs) && newId !in files
    ensures ParentsExist(files[newId := Row(Some(parent), name)], dirs) <==> parent in dirs
  {
    var u := files[newId := Row(Some(parent), name)];
    assert u[newId].parent == Some(parent);
  }

  /** With the invariants in force, adding a directory row keeps them
      exactly when its name is valid, it has no sibling of that name, and
      its parent is a directory of the new table. */
  lemma ValidWithDirectory(s: Store, parent: Id, name: string, newId: Id)
    requires Valid(s) && newId !in s.dirs
    ensures Valid(Candidate(s, DirectoryTable, parent, name, newId)) <==>
              NonBlank(name) && !HasSibling(s.dirs, parent, name) && (parent in s.dirs || parent == newId)
  {
    var u := s.dirs[newId := Row(Some(parent), name)];
    assert Candidate(s, DirectoryTable, parent, name, newId) == Store(u, s.files);
    NamesNonBlankWithRow(s.dirs, newId, Row(Some(parent), name));
    SiblingNamesUniqueWithRow(s.dirs, newId, parent, name);
    ParentsExistWithDirectory(s.dirs, parent, name, newId);
    ParentsExistGrows(s.files, s.dirs, u);
  }

  /** With the invariants in force, adding a file row keeps them exactly
      when its name is valid, it has no sibling of that name, and its parent
      is a directory. */
  lemma ValidWithFile(s: Store, parent: Id, name: string, newId: Id)
    requires Valid(s) && newId !in s.files
    ensures Valid(Candidate(s, FileTable, parent, name, newId)) <==>
              NonBlank(name) && !HasSibling(s.files, parent, name) && parent in s.dirs
  {
    var u := s.files[newId := Row(Some(parent), name)];
    assert Candidate(s, FileTable, parent, name, newId) == Store(s.dirs, u);
    NamesNonBlankWithRow(s.files, newId, Row(Some(parent), name));
    SiblingNamesUniqueWithRow(s.files, newId, parent, name);
    ParentsExistWithFile(s.files, s.dirs, parent, name, newId);
  }

  /** As written, an insert succeeds exactly when the store with the new row
      keeps every schema constraint. */
  lemma InsertAsWrittenAcceptsExactlyValidCandidates(s: Store, kind: Kind, parent: Id, name: string, newId: Id)
    requires Valid(s) && newId !in s.Rows(kind)
    ensures InsertAsWritten(s, kind, parent, Some(name), newId).result.Ok? <==>
              Valid(Candidate(s, kind, parent, name, newId))
  {
    InsertRowOkIff(s, kind, parent, Some(name), newId, ForeignKeyTargetsAsWritten(s, kind, newId));
    match kind
    case DirectoryTable => ValidWithDirectory(s, parent, name, newId);
    case FileTable => ValidWithFile(s, parent, name, newId);
  }

  /** The smallest database the engine accepts a self-parented directory
      into: the root alone, where the engine's next id is 1. */
  lemma SelfParentAcceptedAsWritten()
    ensures var s := Store(map[RootId := Row(None, RootName)], map[]);
            var r := InsertAsWritten(s, DirectoryTable, 1, Some("x"), 1);
            && r.result == Ok(1)
            && r.store.dirs[1].parent == Some(1)
            && !Rooted(r.store)
  {
    var s := Store(map[RootId := Row(None, RootName)], map[]);
    var x := "x";
    assert x[0] != ' ';
    NonBlankIffSomeNonSpace(x);
    assert !HasSibling(s.dirs, 1, x);
    var r := InsertAsWritten(s, DirectoryTable, 1, Some(x), 1);
    assert r.store.dirs[1].parent == Some(1);
    if Rooted(r.store) {
      RootedHasNoSelfParent(r.store, 1);
    }
  }

  /** The same request against the intended insert is refused as a missing
      parent and leaves the store alone. */
  lemma SelfParentRefused()
    ensures var s := Store(map[RootId := Row(None, RootName)], map[]);
            Insert(s, DirectoryTable, 1, Some("x"), 1) == Step(s, Err(ConstraintForeignKey))
  {
    var s := Store(map[RootId := Row(None, RootName)], map[]);
    var x := "x";
    assert x[0] != ' ';
    NonBlankIffSomeNonSpace(x);
    assert !HasSibling(s.dirs, 1, x);
  }

  /** A new directory under an existing one keeps the tree shape. */
  lemma AddChildKeepsRooted(s: Store, parent: Id, name: string, newId: Id)
    requires Rooted(s) && parent in s.dirs && newId !in s.dirs
    ensures Rooted(Candidate(s, DirectoryTable, parent, name, newId))
  {
    var c := Candidate(s, DirectoryTable, parent, name, newId);
    CloseGrowsWithTable(s.dirs, c.dirs, {RootId});
    var sub := Subtree(c.dirs, RootId);
    SubtreeIsLeastClosedSet(c.dirs, RootId, {});
    assert newId in Children(c.dirs, sub);
  }

  /** A directory that names itself as parent breaks the tree shape. */
  lemma SelfParentBreaksRooted(s: Store, name: string, newId: Id)
    requires newId !in s.dirs
    ensures !Rooted(Candidate(s, DirectoryTable, newId, name, newId))
  {
    var c := Candidate(s, DirectoryTable, newId, name, newId);
    if Rooted(c) {
      RootedHasNoSelfParent(c, newId);
    }
  }

  /** The intended directory insert succeeds exactly when the store with
      the new row keeps every schema constraint and the tree shape. */
  lemma InsertDirectoryAcceptsExactlyValidRootedCandidates(s: Store, parent: Id, name: string, newId: Id)
    requires Valid(s) && Rooted(s) && newId !in s.dirs
    ensures Insert(s, DirectoryTable, parent, Some(name), newId).result.Ok? <==>
              Valid(Candidate(s, DirectoryTable, parent, name, newId)) && Rooted(Candidate(s, DirectoryTable, parent, name, newId))
  {
    InsertRowOkIff(s, DirectoryTable, parent, Some(name), newId, s.dirs.Keys);
    ValidWithDirectory(s, parent, name, newId);
    if parent in s.dirs {
      AddChildKeepsRooted(s, parent, name, newId);
    } else if parent == newId {
      SelfParentBreaksRooted(s, name, newId);
    }
  }

  /** A file row with a parent leaves the directory tree as it was. */
  lemma AddFileKeepsRooted(s: Store, parent: Id, name: string, newId: Id)
    requires Rooted(s) && newId !in s.files
    ensures Rooted(Candidate(s, FileTable, parent, name, newId))
  {
    var c := Candidate(s, FileTable, parent, name, newId);
    assert c.dirs == s.dirs;
    assert forall id | id in c.files :: c.files[id].parent.Some?;
  }

  /** The intended file insert succeeds exactly when the store with the new
      row keeps every schema constraint; the tree shape cannot break. */
  lemma InsertFileAcceptsExactlyValidRootedCandidates(s: Store, parent: Id, name: string, newId: Id)
    requires Valid(s) && Rooted(s) && newId !in s.files
    ensures Insert(s, FileTable, parent, Some(name), newId).result.Ok? <==>
              Valid(Candidate(s, FileTable, parent, name, newId)) && Rooted(Candidate(s, FileTable, parent, name, newId))
  {
    InsertRowOkIff(s, FileTable, parent, Some(name), newId, s.dirs.Keys);
    ValidWithFile(s, parent, name, newId);
    AddFileKeepsRooted(s, parent, name, newId);
  }

  /** The intended insert succeeds exactly when the store with the new row
      keeps every schema constraint and the tree shape. */
  lemma InsertAcceptsExactlyValidRootedCandidates(s: Store, kind: Kind, parent: Id, name: string, newId: Id)
    requires Valid(s) && Rooted(s) && newId !in s.Rows(kind)
    ensures Insert(s, kind, parent, Some(name), newId).result.Ok? <==>
              Valid(Candidate(s, kind, parent, name, newId)) && Rooted(Candidate(s, kind, parent, name, newId))
  {
    match kind
    case DirectoryTable => InsertDirectoryAcceptsExactlyValidRootedCandidates(s, parent, name, newId);
    case FileTable => InsertFileAcceptsExactlyValidRootedCandidates(s, parent, name, newId);
  }

  /** Whatever the intended insert returns, the invariants survive it. */
  lemma InsertKeepsInvariants(s: Store, kind: Kind, parent: Id, name: Option<string>, newId: Id)
    requires Valid(s) && Rooted(s) && newId !in s.Rows(kind)
    ensures Valid(Insert(s, kind, parent, name, newId).store)
    ensures Rooted(Insert(s, kind, parent, name, newId).store)
  {
    if name.Some? {
      InsertAcceptsExactlyValidRootedCandidates(s, kind, parent, name.value, newId);
    }
  }

  /** As written, an insert keeps the schema constraints whatever it
      returns, and keeps the tree shape exactly unless it commits a
      directory that is its own parent. */
  lemma InsertAsWrittenKeepsInvariants(s: Store, kind: Kind, parent: Id, name: Option<string>, newId: Id)
    requires Valid(s) && Rooted(s) && newId !in s.Rows(kind)
    ensures Valid(InsertAsWritten(s, kind, parent, name, newId).store)
    ensures Rooted(InsertAsWritten(s, kind, parent, name, newId).store) <==>
              !(InsertAsWritten(s, kind, parent, name, newId).result.Ok? && kind == DirectoryTable && parent == newId)
  {
    var r := InsertAsWritten(s, kind, parent, name, newId);
    if r.result.Ok? {
      InsertAsWrittenAcceptsExactlyValidCandidates(s, kind, parent, name.value, newId);
      assert r.store == Candidate(s, kind, parent, name.value, newId);
      match kind
      case DirectoryTable =>
        if parent == newId {
          SelfParentBreaksRooted(s, name.value, newId);
        } else {
          AddChildKeepsRooted(s, parent, name.value, newId);
        }
      case FileTable => AddFileKeepsRooted(s, parent, name.value, newId);
    }
  }

  /** Under the invariants a uniqueness fault implies that the name is valid
      and the parent exists, so the first failing check is the only one
      violated; only an invalid name under a missing parent violates two,
      and that insert reports the name. */
  lemma InvalidNameWinsOverMissingParent(s: Store, kind: Kind, parent: Id, name: string, newId: Id)
    requires newId !in s.Rows(kind)
    requires !NonBlank(name) && parent !in s.dirs
    ensures Insert(s, kind, parent, Some(name), newId).result == Err(ConstraintCheck)
  {
  }
}
