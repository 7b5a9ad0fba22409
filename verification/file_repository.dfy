/** The file repository: create a file in a directory, search a subtree for
    files by name prefix, and delete a file by id. Each call is one
    transaction; `engineFault` stands for any failure the engine reports
    that is not a constraint violation, which becomes `UnknownError`. No call
    touches the directory table. */
module FileRepository {
  import opened Expect
  import opened Schema
  import opened Errors
  import opened ErrorCodes
  import opened DirectoryTree
  import opened InsertCommands
  import opened DeleteCommand
  import opened ListCommand
  import opened SearchCommand
  import opened RepositoryResults

  /** Inserts the row and maps a constraint fault to its create code. */
  function CreateFile(s: Store, parent: Id, name: Option<string>, newId: Id, engineFault: bool): (r: Outcome<FileEntity, CreateErrorCode>)
    requires newId !in s.files
    ensures r.store.dirs == s.dirs
    ensures r.result.Err? ==> r.store == s && r.result.error.exception.Some?
    ensures r.result.Ok? ==> name.Some? && r.result.value == FileEntity(newId, parent, name.value)
    ensures r.result.Ok? ==> r.store.files == s.files[newId := Row(Some(parent), name.value)]
    ensures engineFault ==> r.result == Err(Failure(CreateErrorCode.UnknownError, Some(EngineFailure)))
  {
    if engineFault then Outcome(s, Err(Failure(CreateErrorCode.UnknownError, Some(EngineFailure))))
    else
      var step := InsertFileEntity(s, parent, name, newId);
      match step.result
      case Ok(id) => Outcome(step.store, Ok(FileEntity(id, parent, name.value)))
      case Err(f) => Outcome(s, Err(Failure(CreateCode(f), Some(f))))
  }

  /** Runs the search; its rows come back unchanged, and any failure is
      `UnknownError`. The store is never changed. */
  method SearchFiles(s: Store, root: Id, prefix: Option<string>, limit: Int32, engineFault: bool)
    returns (r: Outcome<seq<FileEntity>, GetErrorCode>)
    ensures r.store == s
    ensures r.result.Err? <==> engineFault
    ensures r.result.Err? ==> r.result.error == Failure(GetErrorCode.UnknownError, Some(EngineFailure))
    ensures r.result.Ok? ==> |r.result.value| == Capped(|MatchingIds(s, root, prefix)|, limit)
    ensures r.result.Ok? ==> forall i | 0 <= i < |r.result.value| ::
              r.result.value[i].id in MatchingIds(s, root, prefix) && r.result.value[i] == EntityOf(s, r.result.value[i].id)
    ensures r.result.Ok? ==> forall i, j | 0 <= i < j < |r.result.value| :: r.result.value[i].id != r.result.value[j].id
    ensures r.result.Ok? && (limit < 0 || |MatchingIds(s, root, prefix)| <= limit) ==>
              IdsOf(r.result.value) == MatchingIds(s, root, prefix)
  {
    if engineFault {
      return Outcome(s, Err(Failure(GetErrorCode.UnknownError, Some(EngineFailure))));
    }
    var rows := SearchForFilesInSubtree(s, root, prefix, limit);
    return Outcome(s, Ok(rows));
  }

  /** Deletes the file and maps the change count; more than one row would be
      `MultipleMatches`. */
  function DeleteFile(s: Store, id: Id, engineFault: bool): (r: Outcome<Id, DeleteErrorCode>)
    ensures r.store.dirs == s.dirs
    ensures r.result.Err? ==> r.store == s
    ensures r.result.Ok? ==> r.result.value == id && r.store.files == s.files - {id}
    ensures r.result.Ok? <==> !engineFault && id in s.files
    ensures !engineFault && id !in s.files ==> r.result == Err(Failure(DeleteErrorCode.EntityNotFound, None))
    ensures engineFault ==> r.result == Err(Failure(DeleteErrorCode.UnknownError, Some(EngineFailure)))
  {
    if engineFault then Outcome(s, Err(Failure(DeleteErrorCode.UnknownError, Some(EngineFailure))))
    else
      var deleted := DeleteById(s, FileTable, id, IdOnly);
      var result := CountResult(id, deleted.count, MultipleMatches);
      Outcome(if result.Ok? then deleted.store else s, result)
  }

  // ----- properties of the calls -----

  /** Without an engine fault, a create reports the first constraint the
      new row breaks, in the engine's order, and succeeds when it breaks none. */
  lemma CreateFileClassifiesFaults(s: Store, parent: Id, name: Option<string>, newId: Id)
    requires newId !in s.files
    ensures var r := CreateFile(s, parent, name, newId, false);
            && (r.result.Err? && r.result.error.code == Invalid <==> name.None? || !NonBlank(name.value))
            && (r.result.Err? && r.result.error.code == Duplicate <==>
                  name.Some? && NonBlank(name.value) && HasSibling(s.files, parent, name.value))
            && (r.result.Err? && r.result.error.code == ParentNotFound <==>
                  name.Some? && NonBlank(name.value) && !HasSibling(s.files, parent, name.value) && parent !in s.dirs)
            && (r.result.Ok? <==>
                  name.Some? && NonBlank(name.value) && !HasSibling(s.files, parent, name.value) && parent in s.dirs)
            && r.result != Err(Failure(CreateErrorCode.UnknownError, Some(EngineFailure)))
  {
    InsertRowOkIff(s, FileTable, parent, name, newId, ForeignKeyTargetsAsWritten(s, FileTable, newId));
  }

  /** A file may share its name with a directory under the same parent: the
      uniqueness constraint is per table. */
  lemma FileMayShareNameWithDirectory(s: Store, parent: Id, name: string, newId: Id)
    requires newId !in s.files && parent in s.dirs && NonBlank(name)
    requires HasSibling(s.dirs, parent, name) && !HasSibling(s.files, parent, name)
    ensures CreateFile(s, parent, Some(name), newId, false).result.Ok?
  {
  }

  /** A created file appears in its parent's listing; a deleted one appears
      in no listing. */
  lemma CreatedFileListedDeletedFileNot(s: Store, parent: Id, name: Option<string>, newId: Id, id: Id, p: Id, e: Entry)
    requires newId !in s.files
    requires CreateFile(s, parent, name, newId, false).result.Ok?
    requires DeleteFile(s, id, false).result.Ok?
    requires e in EntriesByParent(DeleteFile(s, id, false).store, p) && !e.isDirectory
    ensures Entry(newId, parent, name.value, false) in EntriesByParent(CreateFile(s, parent, name, newId, false).store, parent)
    ensures e.id != id
  {
  }

  /** The file delete never reports `MultipleMatches`: the id is a primary key. */
  lemma DeleteFileNeverReportsMultipleMatches(s: Store, id: Id, engineFault: bool)
    ensures DeleteFile(s, id, engineFault).result.Err? ==>
              DeleteFile(s, id, engineFault).result.error.code != MultipleMatches
  {
  }

  /** Every outcome of a create keeps the schema constraints and the tree shape. */
  lemma CreateFileKeepsInvariants(s: Store, parent: Id, name: Option<string>, newId: Id, engineFault: bool)
    requires Valid(s) && Rooted(s) && newId !in s.files
    ensures Valid(CreateFile(s, parent, name, newId, engineFault).store)
    ensures Rooted(CreateFile(s, parent, name, newId, engineFault).store)
  {
    InsertAsWrittenKeepsInvariants(s, FileTable, parent, name, newId);
    var r := CreateFile(s, parent, name, newId, engineFault);
    assert r.store == s || r.store == InsertAsWritten(s, FileTable, parent, name, newId).store;
  }

  /** Every outcome of a delete keeps the schema constraints and the tree shape. */
  lemma DeleteFileKeepsInvariants(s: Store, id: Id, engineFault: bool)
    requires Valid(s) && Rooted(s)
    ensures Valid(DeleteFile(s, id, engineFault).store)
    ensures Rooted(DeleteFile(s, id, engineFault).store)
  {
    DeleteByIdKeepsInvariants(s, FileTable, id, IdOnly);
    var r := DeleteFile(s, id, engineFault);
    assert r.store == s || r.store == DeleteById(s, FileTable, id, IdOnly).store;
  }
}
