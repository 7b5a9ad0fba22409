/** What the three repositories share: every call is one transaction that
    either commits the command's new tables with an `Ok`, or rolls back and
    returns an `Error` whose code comes from a closed enum. The exception
    attached to an error is the engine fault it was built from; the row-count
    errors of the deletes use the two-argument constructor and carry none. */
module RepositoryResults {
  import opened Expect
  import opened Schema
  import opened Errors
  import opened ErrorCodes

  /** The tables after the transaction, and what the call returned. */
  datatype Outcome<+T, +C> = Outcome(store: Store, result: Result<T, Error<C, Fault>>)

  /** The error the repository builds. The description strings are not
      modelled; every error carries the empty one. */
  function Failure<C>(code: C, fault: Option<Fault>): (e: Error<C, Fault>)
    ensures e.code == code && e.exception == fault
  {
    Error(code, "", fault)
  }

  /** The `catch` clauses of both create calls, tried in order: foreign key,
      unique, check or not-null, then any other exception. */
  function CreateCode(f: Fault): (c: CreateErrorCode)
    ensures c == ParentNotFound <==> f == ConstraintForeignKey
    ensures c == Duplicate <==> f == ConstraintUnique
    ensures c == Invalid <==> f == ConstraintCheck || f == ConstraintNotNull
    ensures c == CreateErrorCode.UnknownError <==> f == EngineFailure
  {
    match f
    case ConstraintForeignKey => ParentNotFound
    case ConstraintUnique => Duplicate
    case ConstraintCheck => Invalid
    case ConstraintNotNull => Invalid
    case EngineFailure => CreateErrorCode.UnknownError
  }

  /** The deletes' reading of the change count: one row commits and returns
      the id, none is `EntityNotFound`, and more than one is `tooMany`. */
  function CountResult(id: Id, count: nat, tooMany: DeleteErrorCode): (r: Result<Id, Error<DeleteErrorCode, Fault>>)
    ensures r.Ok? <==> count == 1
    ensures r.Ok? ==> r.value == id
    ensures r.Err? ==> r.error.exception == None
    ensures count == 0 ==> r.Err? && r.error.code == DeleteErrorCode.EntityNotFound
    ensures count > 1 ==> r.Err? && r.error.code == tooMany
  {
    if count == 1 then Ok(id)
    else if count == 0 then Err(Failure(DeleteErrorCode.EntityNotFound, None))
    else Err(Failure(tooMany, None))
  }

  /** Two different faults share a create code only when both are faults of
      the name column. */
  lemma CreateCodeSeparatesConstraints(f: Fault, g: Fault)
    requires CreateCode(f) == CreateCode(g) && f != g
    ensures {f, g} == {ConstraintCheck, ConstraintNotNull}
  {
  }
}
