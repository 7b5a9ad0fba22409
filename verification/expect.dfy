/** The optional-value and success/error types that every layer of the store
    uses for error propagation, with the combinators the C# classes offer.

    `Option<T>` is the abstract class with its two sealed subclasses `Some<T>`
    and `None<T>`; `Result<T, E>` is the sealed class holding either an ok
    value or an error. The C# `Result.Error` constructor is named `Err` here so
    that it does not clash with the `Error` record of module `Errors`.
    Members that would throw in C# (`Expect`, `ExpectError`, `ExpectNone`)
    return a `Call`, which records whether the call returned or threw. */
module Expect {

  /** The outcome of a call that may throw an exception instead of returning. */
  datatype Call<+T> = Returned(value: T) | Threw

  datatype Option<+T> = None | Some(value: T) {

    predicate IsSome() {
      Some?
    }

    function IsNone(): (b: bool)
      ensures b <==> !IsSome()
    {
      !IsSome()
    }

    /** Returns the carried value; throws on a None. */
    function Expect(): (r: Call<T>)
      ensures r.Returned? <==> IsSome()
      ensures IsSome() ==> r.value == value
    {
      match this
      case Some(v) => Returned(v)
      case None => Threw
    }

    /** Returns normally exactly when the option is a None. */
    function ExpectNone(): (r: Call<()>)
      ensures r.Threw? <==> IsSome()
    {
      match this
      case Some(_) => Threw
      case None => Returned(())
    }

    function Map<U>(mapper: T -> U): (r: Option<U>)
      ensures r.IsSome() <==> IsSome()
      ensures IsSome() ==> r.value == mapper(value)
    {
      match this
      case Some(v) => Some(mapper(v))
      case None => None
    }

    function MapOr<U>(default: U, mapper: T -> U): (r: U)
      ensures IsSome() ==> r == mapper(value)
      ensures IsNone() ==> r == default
    {
      match this
      case Some(v) => mapper(v)
      case None => default
    }

    function MapOrElse<U>(mapper: T -> U, noneMapper: () -> U): (r: U)
      ensures IsSome() ==> r == mapper(value)
      ensures IsNone() ==> r == noneMapper()
    {
      match this
      case Some(v) => mapper(v)
      case None => noneMapper()
    }

    function FlatMap<U>(mapper: T -> Option<U>): (r: Option<U>)
      ensures IsSome() ==> r == mapper(value)
      ensures IsNone() ==> r.IsNone()
    {
      match this
      case Some(v) => mapper(v)
      case None => None
    }

    function FlatMapOrElse<U>(someMapper: T -> Option<U>, noneMapper: () -> Option<U>): (r: Option<U>)
      ensures IsSome() ==> r == someMapper(value)
      ensures IsNone() ==> r == noneMapper()
    {
      match this
      case Some(v) => someMapper(v)
      case None => noneMapper()
    }

    /** `Option.Result(error)`: a Some becomes an ok value, a None the given error. */
    function ToResult<E>(error: E): (r: Result<T, E>)
      ensures r.IsOk() <==> IsSome()
      ensures IsSome() ==> r.value == value
      ensures IsNone() ==> r.error == error
    {
      match this
      case Some(v) => Ok(v)
      case None => Err(error)
    }

    /** `Option.Result(errorFunc)`: the error is produced only for a None. */
    function ToResultElse<E>(errorProducer: () -> E): (r: Result<T, E>)
      ensures r.IsOk() <==> IsSome()
      ensures IsSome() ==> r.value == value
      ensures IsNone() ==> r.error == errorProducer()
    {
      match this
      case Some(v) => Ok(v)
      case None => Err(errorProducer())
    }

    function UnwrapOr(default: T): (r: T)
      ensures IsSome() ==> r == value
      ensures IsNone() ==> r == default
    {
      match this
      case Some(v) => v
      case None => default
    }

    function UnwrapOrElse(defaultProducer: () -> T): (r: T)
      ensures IsSome() ==> r == value
      ensures IsNone() ==> r == defaultProducer()
    {
      match this
      case Some(v) => v
      case None => defaultProducer()
    }

    /** The callback's side effect is not modelled; the receiver comes back as it was. */
    function OnSome(someAction: T -> ()): (r: Option<T>)
      ensures r == this
    {
      this
    }

    /** The callback's side effect is not modelled; the receiver comes back as it was. */
    function OnNone(noneAction: () -> ()): (r: Option<T>)
      ensures r == this
    {
      this
    }
  }

  /** The `==` operator of `Option`: two Nones are equal, two Somes are equal
      when their values are, and a Some never equals a None. */
  function OptionEquals<T(==)>(lhs: Option<T>, rhs: Option<T>): (b: bool)
    ensures b <==> lhs == rhs
  {
    if lhs.IsNone() && rhs.IsNone() then true
    else if lhs.IsSome() && rhs.IsSome() then lhs.value == rhs.value
    else false
  }

  /** The `!=` operator of `Option`, defined as the negation of `==`. */
  function OptionNotEquals<T(==)>(lhs: Option<T>, rhs: Option<T>): (b: bool)
    ensures b <==> lhs != rhs
  {
    !OptionEquals(lhs, rhs)
  }

  datatype Result<+T, +E> = Ok(value: T) | Err(error: E) {

    predicate IsOk() {
      Ok?
    }

    function IsError(): (b: bool)
      ensures b <==> !IsOk()
    {
      !IsOk()
    }

    /** Returns the ok value; throws on an error. */
    function Expect(): (r: Call<T>)
      ensures r.Returned? <==> IsOk()
      ensures IsOk() ==> r.value == value
    {
      match this
      case Ok(v) => Returned(v)
      case Err(_) => Threw
    }

    /** Returns the error; throws on an ok value. */
    function ExpectError(): (r: Call<E>)
      ensures r.Returned? <==> IsError()
      ensures IsError() ==> r.value == error
    {
      match this
      case Ok(_) => Threw
      case Err(e) => Returned(e)
    }

    function Map<U>(mapper: T -> U): (r: Result<U, E>)
      ensures r.IsOk() <==> IsOk()
      ensures IsOk() ==> r.value == mapper(value)
      ensures IsError() ==> r.error == error
    {
      match this
      case Ok(v) => Ok(mapper(v))
      case Err(e) => Err(e)
    }

    function MapError<F>(mapper: E -> F): (r: Result<T, F>)
      ensures r.IsOk() <==> IsOk()
      ensures IsOk() ==> r.value == value
      ensures IsError() ==> r.error == mapper(error)
    {
      match this
      case Ok(v) => Ok(v)
      case Err(e) => Err(mapper(e))
    }

    function MapOr<U>(default: U, okMapper: T -> U): (r: U)
      ensures IsOk() ==> r == okMapper(value)
      ensures IsError() ==> r == default
    {
      match this
      case Ok(v) => okMapper(v)
      case Err(_) => default
    }

    function MapOrElse<U>(okMapper: T -> U, errorMapper: E -> U): (r: U)
      ensures IsOk() ==> r == okMapper(value)
      ensures IsError() ==> r == errorMapper(error)
    {
      match this
      case Ok(v) => okMapper(v)
      case Err(e) => errorMapper(e)
    }

    /** Monadic bind: continue with `mapper` on an ok value, keep an error. */
    function Then<U>(mapper: T -> Result<U, E>): (r: Result<U, E>)
      ensures IsOk() ==> r == mapper(value)
      ensures IsError() ==> r == Err(error)
    {
      match this
      case Ok(v) => mapper(v)
      case Err(e) => Err(e)
    }

    function And<U>(other: Result<U, E>): (r: Result<U, E>)
      ensures IsOk() ==> r == other
      ensures IsError() ==> r == Err(error)
    {
      Then(_ => other)
    }

    function Or(other: Result<T, E>): (r: Result<T, E>)
      ensures IsOk() ==> r == this
      ensures IsError() ==> r == other
    {
      MapOr(other, ok => Ok(ok))
    }

    function OrElse(otherProducer: () -> Result<T, E>): (r: Result<T, E>)
      ensures IsOk() ==> r == this
      ensures IsError() ==> r == otherProducer()
    {
      if IsOk() then this else otherProducer()
    }

    /** `UnwrapOr(Func<TError, TOk>)`: the fallback sees the error. */
    function UnwrapOrElse(errorMapper: E -> T): (r: T)
      ensures IsOk() ==> r == value
      ensures IsError() ==> r == errorMapper(error)
    {
      match this
      case Ok(v) => v
      case Err(e) => errorMapper(e)
    }

    function UnwrapOr(default: T): (r: T)
      ensures IsOk() ==> r == value
      ensures IsError() ==> r == default
    {
      match this
      case Ok(v) => v
      case Err(_) => default
    }

    /** The callback's side effect is not modelled; the receiver comes back as it was. */
    function OnError(errorAction: E -> ()): (r: Result<T, E>)
      ensures r == this
    {
      this
    }

    /** The callback's side effect is not modelled; the receiver comes back as it was. */
    function OnSuccess(okAction: T -> ()): (r: Result<T, E>)
      ensures r == this
    {
      this
    }

    function Match<U>(okMapper: T -> U, errorMapper: E -> U): (r: U)
      ensures IsOk() ==> r == okMapper(value)
      ensures IsError() ==> r == errorMapper(error)
    {
      match this
      case Ok(v) => okMapper(v)
      case Err(e) => errorMapper(e)
    }

    /** Maps each branch with its own function and keeps the branch. */
    function Transform<U, F>(okMapper: T -> U, errorMapper: E -> F): (r: Result<U, F>)
      ensures r.IsOk() <==> IsOk()
      ensures IsOk() ==> r.value == okMapper(value)
      ensures IsError() ==> r.error == errorMapper(error)
    {
      match this
      case Ok(v) => Ok(okMapper(v))
      case Err(e) => Err(errorMapper(e))
    }

    /** `Result.Option()`: an ok value becomes a Some, an error a None. */
    function ToOption(): (r: Option<T>)
      ensures r.IsSome() <==> IsOk()
      ensures IsOk() ==> r.value == value
    {
      match this
      case Ok(v) => Some(v)
      case Err(_) => None
    }
  }
}
