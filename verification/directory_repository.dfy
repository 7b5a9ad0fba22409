/** The directory repository: create a directory under a parent, and delete
    a directory by id. Each call is one transaction; `engineFault` stands for
    any failure the engine reports that is not a constraint violation (a busy
    database, an I/O error, an exhausted id space, a failed commit), which
    the final `catch` turns into `UnknownError` after rolling back. */
module DirectoryRepository {
  import opened Expect
  import opened Schema
  import opened Errors
  import opened ErrorCodes
  import opened DirectoryTree
  import opened InsertCommands
  import opened DeleteCommand
  import opened ListCommand
  import opened RepositoryResults

  /** The entity a successful create returns. */
  datatype DirectoryEntity = DirectoryEntity(id: Id, parent: Id, name: string)

  /** Inserts the row and maps a constraint fault to its create code. The
      engine's self-referencing foreign key also accepts the new id itself
      as parent. */
  function CreateDirectory(s: Store, parent: Id, name: Option<string>, newId: Id, engineFault: bool): (r: Outcome<DirectoryEntity, CreateErrorCode>)
    requires newId !in s.dirs
    ensures r.store.files == s.files
    ensures r.result.Err? ==> r.store == s && r.result.error.exception.Some?
    ensures r.result.Ok? ==> name.Some? && r.result.value == DirectoryEntity(newId, parent, name.value)
    ensures r.result.Ok? ==> r.store.dirs == s.dirs[newId := Row(Some(parent), name.value)]
    ensures r.result.Ok? ==> parent in s.dirs || parent == newId
    ensures engineFault ==> r.result == Err(Failure(CreateErrorCode.UnknownError, Some(EngineFailure)))
  {
    if engineFault then Outcome(s, Err(Failure(CreateErrorCode.UnknownError, Some(EngineFailure))))
    else
      var step := InsertDirectoryEntity(s, parent, name, newId);
      match step.result
      case Ok(id) => Outcome(step.store, Ok(DirectoryEntity(id, parent, name.value)))
      case Err(f) => Outcome(s, Err(Failure(CreateCode(f), Some(f))))
  }

  /** Deletes the directory (and, by cascade, its subtree) and maps the
      change count; more than one row would be `UnknownError`. */
  function DeleteDirectory(s: Store, id: Id, filter: RowFilter, engineFault: bool): (r: Outcome<Id, DeleteErrorCode>)
    ensures r.result.Err? ==> r.store == s
    ensures r.result.Ok? ==> r.result.value == id && r.store == Cascade(s, id)
    ensures r.result.Ok? <==> !engineFault && Selects(s.dirs, id, filter)
    ensures !engineFault && !Selects(s.dirs, id, filter) ==>
              r.result == Err(Failure(DeleteErrorCode.EntityNotFound, None))
    ensures engineFault ==> r.result == Err(Failure(DeleteErrorCode.UnknownError, Some(EngineFailure)))
  {
    if engineFault then Outcome(s, Err(Failure(DeleteErrorCode.UnknownError, Some(EngineFailure))))
    else
      var deleted := DeleteById(s, DirectoryTable, id, filter);
      var result := CountResult(id, deleted.count, DeleteErrorCode.UnknownError);
      Outcome(if result.Ok? then deleted.store else s, result)
  }

  // ----- the error codes a create reports -----

  /** Without an engine fault, a create reports the first constraint the
      new row breaks, in the engine's order, and succeeds when it breaks none. */
  lemma CreateDirectoryClassifiesFaults(s: Store, parent: Id, name: Option<string>, newId: Id)
    requires newId !in s.dirs
    ensures var r := CreateDirectory(s, parent, name, newId, false);
            && (r.result.Err? && r.result.error.code == Invalid <==> name.None? || !NonBlank(name.value))
            && (r.result.Err? && r.result.error.code == Duplicate <==>
                  name.Some? && NonBlank(name.value) && HasSibling(s.dirs, parent, name.value))
            && (r.result.Err? && r.result.error.code == ParentNotFound <==>
                  name.Some? && NonBlank(name.value) && !HasSibling(s.dirs, parent, name.value)
                  && parent !in s.dirs && parent != newId)
            && (r.result.Ok? <==>
                  name.Some? && NonBlank(name.value) && !HasSibling(s.dirs, parent, name.value)
                  && (parent in s.dirs || parent == newId))
            && r.result != Err(Failure(CreateErrorCode.UnknownError, Some(EngineFailure)))
  {
    InsertRowOkIff(s, DirectoryTable, parent, name, newId, ForeignKeyTargetsAsWritten(s, DirectoryTable, newId));
  }

  /** A directory created with its own new id as parent is accepted; it is
      stored as its own parent and the tree shape is lost. In a valid store
      nothing has the unused id as parent, so no name can clash. */
  lemma SelfParentedDirectoryAccepted(s: Store, name: string, newId: Id)
    requires Valid(s) && newId !in s.dirs && NonBlank(name)
    ensures var r := CreateDirectory(s, newId, Some(name), newId, false);
            && r.result == Ok(DirectoryEntity(newId, newId, name))
            && r.store.dirs[newId].parent == Some(newId)
            && !Rooted(r.store)
  {
    var r := CreateDirectory(s, newId, Some(name), newId, false);
    assert r.store == Candidate(s, DirectoryTable, newId, name, newId);
    SelfParentBreaksRooted(s, name, newId);
  }

  /** A `null`, empty or all-space name is `Invalid`, and the store is unchanged. */
  lemma BlankDirectoryNamesInvalid(s: Store, parent: Id, newId: Id, name: Option<string>)
    requires newId !in s.dirs
    requires name == None || name == Some("") || name == Some(" ")
    ensures var r := CreateDirectory(s, parent, name, newId, false);
            r.store == s && r.result.Err? && r.result.error.code == Invalid
  {
    BlankNamesRejected();
  }

  /** Creating a directory whose name is taken under the same parent is a
      `Duplicate`; the earlier directory is still there and still listed. */
  lemma DuplicateKeepsEarlierDirectory(s: Store, parent: Id, name: string, newId: Id, earlier: Id)
    requires Valid(s) && newId !in s.dirs
    requires earlier in s.dirs && s.dirs[earlier] == Row(Some(parent), name)
    ensures var r := CreateDirectory(s, parent, Some(name), newId, false);
            && r.result.Err? && r.result.error.code == Duplicate
            && r.store == s
            && Entry(earlier, parent, name, true) in EntriesByParent(r.store, parent)
  {
    assert NonBlank(s.dirs[earlier].name);
    assert HasSibling(s.dirs, parent, name);
  }

  /** A created directory appears in its parent's listing under its new id. */
  lemma CreatedDirectoryIsListed(s: Store, parent: Id, name: Option<string>, newId: Id)
    requires newId !in s.dirs
    requires CreateDirectory(s, parent, name, newId, false).result.Ok?
    ensures Entry(newId, parent, name.value, true) in EntriesByParent(CreateDirectory(s, parent, name, newId, false).store, parent)
  {
  }

  /** After a successful delete neither the directory nor anything below it
      appears in any listing. */
  lemma DeletedDirectoryIsNotListed(s: Store, id: Id, filter: RowFilter, below: Id, p: Id, e: Entry)
    requires DeleteDirectory(s, id, filter, false).result.Ok?
    requires below in Subtree(s.dirs, id)
    requires e in EntriesByParent(DeleteDirectory(s, id, filter, false).store, p) && e.isDirectory
    ensures e.id != below
  {
  }

  /** A directory with descendants is deleted with a count of one, so the
      call succeeds and its children go with it. */
  lemma DeleteWithChildrenSucceeds(s: Store, id: Id, child: Id, filter: RowFilter)
    requires Selects(s.dirs, id, filter)
    requires child in s.dirs && s.dirs[child].parent == Some(id)
    ensures DeleteDirectory(s, id, filter, false).result == Ok(id)
    ensures child !in DeleteDirectory(s, id, filter, false).store.dirs
  {
    CascadeCountsOneRow(s, id, child, filter);
  }

  /** The delete never reports `MultipleMatches`, nor `UnknownError` without
      an engine fault: the id is a primary key. */
  lemma DeleteDirectoryNeverReportsManyRows(s: Store, id: Id, filter: RowFilter)
    ensures DeleteDirectory(s, id, filter, false).result.Err? ==>
              DeleteDirectory(s, id, filter, false).result.error.code == DeleteErrorCode.EntityNotFound
  {
  }

  /** With the root filter the root cannot be deleted; without it, deleting
      the root empties the whole store. */
  lemma RootDeletion(s: Store)
    requires Valid(s) && Rooted(s) && RootId in s.dirs
    ensures DeleteDirectory(s, RootId, IdAndParentNotNull, false) ==
              Outcome(s, Err(Failure(DeleteErrorCode.EntityNotFound, None)))
    ensures DeleteDirectory(s, RootId, IdOnly, false) == Outcome(Store(map[], map[]), Ok(RootId))
  {
    DeletingRootEmptiesStore(s);
  }

  /** Every outcome of a create keeps the schema constraints, and keeps the
      tree shape exactly unless it created a directory that is its own parent. */
  lemma CreateDirectoryKeepsInvariants(s: Store, parent: Id, name: Option<string>, newId: Id, engineFault: bool)
    requires Valid(s) && Rooted(s) && newId !in s.dirs
    ensures Valid(CreateDirectory(s, parent, name, newId, engineFault).store)
    ensures Rooted(CreateDirectory(s, parent, name, newId, engineFault).store) <==>
              !(CreateDirectory(s, parent, name, newId, engineFault).result.Ok? && parent == newId)
  {
    InsertAsWrittenKeepsInvariants(s, DirectoryTable, parent, name, newId);
    var r := CreateDirectory(s, parent, name, newId, engineFault);
    var step := InsertAsWritten(s, DirectoryTable, parent, name, newId);
    assert r.result.Ok? ==> step.result.Ok? && r.store == step.store;
    assert r.result.Err? ==> r.store == s;
  }

  /** The create as intended: the same mapping over the insert that demands
      an existing parent, so it never commits a self-parented directory. */
  function CreateDirectoryAsIntended(s: Store, parent: Id, name: Option<string>, newId: Id, engineFault: bool): (r: Outcome<DirectoryEntity, CreateErrorCode>)
    requires newId !in s.dirs
    ensures r.store.files == s.files
    ensures r.result.Err? ==> r.store == s
    ensures r.result.Ok? ==> parent in s.dirs && name.Some? && r.result.value == DirectoryEntity(newId, parent, name.value)
    ensures !engineFault && name.Some? && NonBlank(name.value) && !HasSibling(s.dirs, parent, name.value) && parent !in s.dirs ==>
              r.result.Err? && r.result.error.code == ParentNotFound
  {
    if engineFault then Outcome(s, Err(Failure(CreateErrorCode.UnknownError, Some(EngineFailure))))
    else
      var step := Insert(s, DirectoryTable, parent, name, newId);
      match step.result
      case Ok(id) => Outcome(step.store, Ok(DirectoryEntity(id, parent, name.value)))
      case Err(f) => Outcome(s, Err(Failure(CreateCode(f), Some(f))))
  }

  /** Every outcome of the intended create keeps both invariants. */
  lemma CreateDirectoryAsIntendedKeepsInvariants(s: Store, parent: Id, name: Option<string>, newId: Id, engineFault: bool)
    requires Valid(s) && Rooted(s) && newId !in s.dirs
    ensures Valid(CreateDirectoryAsIntended(s, parent, name, newId, engineFault).store)
    ensures Rooted(CreateDirectoryAsIntended(s, parent, name, newId, engineFault).store)
  {
    InsertKeepsInvariants(s, DirectoryTable, parent, name, newId);
    var r := CreateDirectoryAsIntended(s, parent, name, newId, engineFault);
    assert r.store == s || r.store == Insert(s, DirectoryTable, parent, name, newId).store;
  }

  /** Every outcome of a delete keeps the schema constraints and the tree
      shape, with or without the root filter. */
  lemma DeleteDirectoryKeepsInvariants(s: Store, id: Id, filter: RowFilter, engineFault: bool)
    requires Valid(s) && Rooted(s)
    ensures Valid(DeleteDirectory(s, id, filter, engineFault).store)
    ensures Rooted(DeleteDirectory(s, id, filter, engineFault).store)
  {
    DeleteByIdKeepsInvariants(s, DirectoryTable, id, filter);
    var r := DeleteDirectory(s, id, filter, engineFault);
    assert r.store == s || r.store == DeleteById(s, DirectoryTable, id, filter).store;
  }
}
