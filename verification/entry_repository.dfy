/** The entry repository: list what a directory holds. The call reads only;
    `engineFault` stands for any failure the engine reports, which becomes
    `UnknownError`. */
module EntryRepository {
  import opened Expect
  import opened Schema
  import opened Errors
  import opened ErrorCodes
  import opened ListCommand
  import opened RepositoryResults

  /** Runs the listing and returns its rows in an `Ok`. */
  function GetFileSystemEntries(s: Store, parent: Id, engineFault: bool): (r: Outcome<set<Entry>, GetErrorCode>)
    ensures r.store == s
    ensures r.result.Err? <==> engineFault
    ensures r.result.Err? ==> r.result.error == Failure(GetErrorCode.UnknownError, Some(EngineFailure))
    ensures r.result.Ok? ==> r.result.value == EntriesByParent(s, parent)
    ensures r.result.Ok? ==> forall e | e in r.result.value :: e.parent == parent
    ensures r.result.Ok? ==> |r.result.value| == |ChildIds(s.dirs, parent)| + |ChildIds(s.files, parent)|
  {
    EntriesCount(s, parent);
    if engineFault then Outcome(s, Err(Failure(GetErrorCode.UnknownError, Some(EngineFailure))))
    else Outcome(s, Ok(EntriesByParent(s, parent)))
  }

  /** A parent that is not a directory gives an empty listing, never a
      not-found error. */
  lemma MissingParentGivesEmptyListing(s: Store, parent: Id)
    requires Valid(s) && parent !in s.dirs
    ensures GetFileSystemEntries(s, parent, false).result == Ok({})
  {
    MissingParentListsNothing(s, parent);
  }
}
