/** `Nullables`: defaults for null references and guarded consumer calls. A nullable
    reference is an `Option`; a consumer is modelled by the list of arguments it was
    called with and by what each call throws, a supplier by the number of times it
    was asked. */
module Nullables {
  import opened Wrappers
  import opened JavaLang

  /** `getOrDefault(item, defaultValueSupplier)`: the value returned and how many
      times the supplier ran. */
  function GetOrDefaultFrom<T>(item: Option<T>, supplier: () -> T): (r: (T, nat))
    ensures item.Some? ==> r == (item.value, 0)
    ensures item.None? ==> r == (supplier(), 1)
  {
    match item
    case Some(x) => (x, 0)
    case None => (supplier(), 1)
  }

  /** `getOrDefault(item, defaultValue)`: the supplier overload with a constant
      supplier. */
  function GetOrDefault<T>(item: Option<T>, default: T): (r: T)
  {
    GetOrDefaultFrom(item, () => default).0
  }

  /** The value overload agrees with the value of an `Option`'s default: null gives
      the default, anything else is returned as it is. */
  lemma GetOrDefaultIsGetOr<T>(item: Option<T>, default: T)
    ensures GetOrDefault(item, default) == item.GetOr(default)
    ensures item.None? ==> GetOrDefault(item, default) == default
    ensures item.Some? ==> GetOrDefault(item, default) == item.value
  {
  }

  /** `getOrDefault(String)`: null becomes the empty string. */
  function GetOrEmpty(str: Option<string>): (r: string)
    ensures str.None? ==> r == ""
    ensures str.Some? ==> r == str.value
  {
    GetOrDefault(str, "")
  }

  /** `ifNonNull(item, consumer)`: what it returns or throws, and the consumer's calls.
      `fails` says what a consumer call throws, if anything; nothing catches it. */
  function IfNonNull<T>(item: Option<T>, fails: T -> Option<Throwable>): (r: (Result<bool, Throwable>, seq<T>))
    ensures item.None? ==> r == (Success(false), [])
    ensures item.Some? ==> r.1 == [item.value]
    ensures r.0 == Success(true) <==> item.Some? && fails(item.value).None?
    ensures r.0.Failure? <==> item.Some? && fails(item.value).Some?
    ensures r.0.Failure? ==> r.0.error == fails(item.value).value
  {
    if item.None? then (Success(false), [])
    else
      match fails(item.value)
      case None => (Success(true), [item.value])
      case Some(e) => (Failure(e), [item.value])
  }

  /** `ifNonNull(item, transformer, consumer)`: what it returns or throws, the
      transformer's calls and the consumer's calls. The transformer may return null, or
      throw, and then the consumer is not called. */
  function IfNonNullThen<T, U>(item: Option<T>, transformer: T -> Result<Option<U>, Throwable>,
                              fails: U -> Option<Throwable>): (r: (Result<bool, Throwable>, seq<T>, seq<U>))
    ensures item.None? ==> r == (Success(false), [], [])
    ensures item.Some? ==> r.1 == [item.value]
    ensures item.Some? && transformer(item.value).Failure?
        ==> r == (Failure(transformer(item.value).error), [item.value], [])
    ensures item.Some? && transformer(item.value) == Success(None) ==> r.0 == Success(false) && r.2 == []
    ensures r.0 == Success(true)
        <==> item.Some? && transformer(item.value).Success? && transformer(item.value).value.Some?
             && fails(transformer(item.value).value.value).None?
  {
    if item.None? then (Success(false), [], [])
    else
      match transformer(item.value)
      case Failure(e) => (Failure(e), [item.value], [])
      case Success(u) =>
        var (returned, calls) := IfNonNull(u, fails);
        (returned, [item.value], calls)
  }

  /** The consumer is called at most once, and exactly when the transformer returned a
      non-null value, which is the value it is called with; the call returns true
      exactly when that consumer call returned. */
  lemma IfNonNullThenConsumesOnce<T, U>(item: Option<T>, transformer: T -> Result<Option<U>, Throwable>,
                                       fails: U -> Option<Throwable>)
    ensures var r := IfNonNullThen(item, transformer, fails);
      && |r.2| <= 1
      && (|r.2| == 1 <==> item.Some? && transformer(item.value).Success? && transformer(item.value).value.Some?)
      && (|r.2| == 1 ==> r.2 == [transformer(item.value).value.value]
                         && (r.0 == Success(true) <==> fails(r.2[0]).None?))
  {
  }
}
