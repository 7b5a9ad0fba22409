/** Algebraic laws of the `Option` and `Result` combinators: the two variants
    are exclusive, the mapping operations are functors, `Then` and `FlatMap`
    are monadic binds, and the conversions between the two types round-trip. */
module ExpectLaws {
  import opened Expect

  // ----- Result -----

  /** Exactly one of `IsOk` and `IsError` holds. */
  lemma ResultIsOkXorIsError<T, E>(r: Result<T, E>)
    ensures r.IsOk() != r.IsError()
  {
  }

  /** `Expect` on an ok value and `ExpectError` on an error return what was
      stored; the opposite calls throw. */
  lemma ResultExpectRoundTrip<T, E>(v: T, e: E)
    ensures Result<T, E>.Ok(v).Expect() == Returned(v)
    ensures Result<T, E>.Err(e).ExpectError() == Returned(e)
    ensures Result<T, E>.Err(e).Expect() == Threw
    ensures Result<T, E>.Ok(v).ExpectError() == Threw
  {
  }

  lemma ResultMapIdentity<T, E>(r: Result<T, E>)
    ensures r.Map(x => x) == r
  {
  }

  lemma ResultMapComposition<T, U, V, E>(r: Result<T, E>, f: T -> U, g: U -> V)
    ensures r.Map(f).Map(g) == r.Map(x => g(f(x)))
  {
  }

  lemma ResultMapErrorIdentity<T, E>(r: Result<T, E>)
    ensures r.MapError(e => e) == r
  {
  }

  /** `Map` and `MapError` act on different branches, so they commute. */
  lemma ResultMapsCommute<T, U, E, F>(r: Result<T, E>, f: T -> U, g: E -> F)
    ensures r.Map(f).MapError(g) == r.MapError(g).Map(f)
  {
  }

  /** `Transform` is `Map` followed by `MapError`. */
  lemma ResultTransformIsMapThenMapError<T, U, E, F>(r: Result<T, E>, f: T -> U, g: E -> F)
    ensures r.Transform(f, g) == r.Map(f).MapError(g)
  {
  }

  lemma ResultThenLeftIdentity<T, U, E>(v: T, f: T -> Result<U, E>)
    ensures Result<T, E>.Ok(v).Then(f) == f(v)
  {
  }

  lemma ResultThenRightIdentity<T, E>(r: Result<T, E>)
    ensures r.Then(x => Result<T, E>.Ok(x)) == r
  {
  }

  lemma ResultThenAssociative<T, U, V, E>(r: Result<T, E>, f: T -> Result<U, E>, g: U -> Result<V, E>)
    ensures r.Then(f).Then(g) == r.Then(x => f(x).Then(g))
  {
  }

  /** `Map` is `Then` followed by wrapping in `Ok`. */
  lemma ResultMapIsThenOk<T, U, E>(r: Result<T, E>, f: T -> U)
    ensures r.Map(f) == r.Then(x => Result<U, E>.Ok(f(x)))
  {
  }

  /** `And(other)` is `Then(_ => other)`. */
  lemma ResultAndIsThenConstant<T, U, E>(r: Result<T, E>, other: Result<U, E>)
    ensures r.And(other) == r.Then(_ => other)
  {
  }

  /** `Or(other)` is `OrElse(() => other)`. */
  lemma ResultOrIsOrElseConstant<T, E>(r: Result<T, E>, other: Result<T, E>)
    ensures r.Or(other) == r.OrElse(() => other)
  {
  }

  /** `Match` and `MapOrElse` take the same branch; `UnwrapOr` after `Map` is `MapOr`. */
  lemma ResultMatchAgreesWithMapOrElse<T, U, E>(r: Result<T, E>, f: T -> U, g: E -> U, d: U)
    ensures r.Match(f, g) == r.MapOrElse(f, g)
    ensures r.Map(f).UnwrapOr(d) == r.MapOr(d, f)
  {
  }

  /** `Option()` then `ToResult` with the original error gives back the result. */
  lemma ResultOptionRoundTrip<T, E>(r: Result<T, E>)
    requires r.IsError()
    ensures r.ToOption().ToResult(r.error) == r
  {
  }

  lemma ResultOkOptionRoundTrip<T, E>(r: Result<T, E>, e: E)
    requires r.IsOk()
    ensures r.ToOption().ToResult(e) == r
  {
  }

  // ----- Option -----

  /** A Some is always some and a None is always none. */
  lemma OptionIsSomeXorIsNone<T>(o: Option<T>, v: T)
    ensures o.IsSome() != o.IsNone()
    ensures Some(v).IsSome() && Option<T>.None.IsNone()
  {
  }

  /** `Expect` returns the value of a Some and throws on a None; `ExpectNone`
      throws only on a Some. */
  lemma OptionExpectBehaviour<T>(v: T)
    ensures Some(v).Expect() == Returned(v)
    ensures Option<T>.None.Expect() == Threw
    ensures Some(v).ExpectNone() == Threw
    ensures Option<T>.None.ExpectNone() == Returned(())
  {
  }

  lemma OptionMapIdentity<T>(o: Option<T>)
    ensures o.Map(x => x) == o
  {
  }

  lemma OptionMapComposition<T, U, V>(o: Option<T>, f: T -> U, g: U -> V)
    ensures o.Map(f).Map(g) == o.Map(x => g(f(x)))
  {
  }

  lemma OptionFlatMapLeftIdentity<T, U>(v: T, f: T -> Option<U>)
    ensures Some(v).FlatMap(f) == f(v)
  {
  }

  lemma OptionFlatMapRightIdentity<T>(o: Option<T>)
    ensures o.FlatMap(x => Some(x)) == o
  {
  }

  lemma OptionFlatMapAssociative<T, U, V>(o: Option<T>, f: T -> Option<U>, g: U -> Option<V>)
    ensures o.FlatMap(f).FlatMap(g) == o.FlatMap(x => f(x).FlatMap(g))
  {
  }

  /** `MapOr`, `UnwrapOr` and `MapOrElse` pick the same branch. */
  lemma OptionMapOrIsMapThenUnwrapOr<T, U>(o: Option<T>, d: U, f: T -> U)
    ensures o.MapOr(d, f) == o.Map(f).UnwrapOr(d)
    ensures o.MapOr(d, f) == o.MapOrElse(f, () => d)
  {
  }

  /** `Result(e)` then `Option()` gives back the option. */
  lemma OptionResultRoundTrip<T, E>(o: Option<T>, e: E)
    ensures o.ToResult(e).ToOption() == o
    ensures o.ToResultElse(() => e) == o.ToResult(e)
  {
  }

  /** `==` on options is an equivalence relation and `!=` is its negation. */
  lemma OptionEqualityIsEquivalence<T>(a: Option<T>, b: Option<T>, c: Option<T>)
    ensures OptionEquals(a, a)
    ensures OptionEquals(a, b) == OptionEquals(b, a)
    ensures OptionEquals(a, b) && OptionEquals(b, c) ==> OptionEquals(a, c)
    ensures OptionNotEquals(a, b) == !OptionEquals(a, b)
  {
  }

  /** Values equal exactly when their Somes are; no Some equals a None. */
  lemma OptionEqualityOnValues<T>(x: T, y: T)
    ensures OptionEquals(Some(x), Some(y)) <==> x == y
    ensures !OptionEquals(Some(x), None)
    ensures OptionEquals(Option<T>.None, Option<T>.None)
  {
  }
}
