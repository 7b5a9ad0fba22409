/** The error record every repository returns: an enum code, a description
    for operators, and an optional attached exception. `C` stands for the
    code enum and `X` for the exception type; the record is sealed, so two
    errors are equal exactly when their three components are. */
module Errors {
  import opened Expect

  datatype Error<+C, +X> = Error(code: C, description: string, exception: Option<X>) {

    /** Replaces the code by `mapper(code)`; description and exception carry over. */
    function ConvertTo<D>(mapper: C -> D): (r: Error<D, X>)
      ensures r.code == mapper(code)
      ensures r.description == description
      ensures r.exception == exception
    {
      Error(mapper(code), description, exception)
    }
  }

  /** The two-argument constructor: no exception is attached. */
  function WithoutException<C, X>(code: C, description: string): (r: Error<C, X>)
    ensures r.code == code && r.description == description
    ensures r.exception.IsNone()
  {
    Error(code, description, None)
  }

  /** The three-argument constructor: every component is the argument given. */
  function WithException<C, X>(code: C, description: string, exception: Option<X>): (r: Error<C, X>)
    ensures r.code == code && r.description == description && r.exception == exception
  {
    Error(code, description, exception)
  }

  lemma ConvertToIdentity<C, X>(e: Error<C, X>)
    ensures e.ConvertTo(c => c) == e
  {
  }

  lemma ConvertToComposition<C, D, F, X>(e: Error<C, X>, f: C -> D, g: D -> F)
    ensures e.ConvertTo(f).ConvertTo(g) == e.ConvertTo(c => g(f(c)))
  {
  }

  /** Record equality: equal components give equal errors, and conversely. */
  lemma ErrorEqualityIsComponentwise<C, X>(a: Error<C, X>, b: Error<C, X>)
    ensures a == b <==> a.code == b.code && a.description == b.description && a.exception == b.exception
  {
  }
}

/** The closed sets of domain error codes the repositories return, one enum
    per operation kind. */
module ErrorCodes {

  datatype CreateErrorCode = Invalid | Duplicate | ParentNotFound | UnknownError

  datatype DeleteErrorCode = EntityNotFound | MultipleMatches | UnknownError

  /** `EntityNotFound` is declared but no repository operation returns it. */
  datatype GetErrorCode = EntityNotFound | UnknownError
}
