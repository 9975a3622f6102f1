/** `DatumConsumer`: a consumer is known by what its `accept` does with an item
    (returns, or throws) and by the callback its `onComplete`/`onError` reach. */
module Consumers {
  import opened Wrappers
  import opened JavaLang
  import opened Callbacks

  datatype Consumer<!T> = Consumer(accept: T -> Outcome<Throwable>, callback: Callback)

  /** `transform(transformer)`: a null transformer is rejected; otherwise a lambda that
      passes the transformed item to this consumer's `accept`. The lambda defines only
      `accept`, so its callback is the interface's do-nothing default. The transformer
      is a `java.util.function.Function`, which may throw; its exception leaves
      `accept` before this consumer is reached. */
  function Transform<T, U>(c: Consumer<T>, transformer: Option<U -> Result<T, Throwable>>): (r: Result<Consumer<U>, Throwable>)
    ensures transformer.None? <==> r.Failure?
    ensures r.Failure? ==> r.error == NullPointer("transformer cannot be null")
    ensures r.Success? ==> r.value.callback == NoOp
  {
    match transformer
    case None => Failure(NullPointer("transformer cannot be null"))
    case Some(f) => Success(Consumer(x => match f(x) case Success(y) => c.accept(y) case Failure(e) => Fail(e), NoOp))
  }

  /** The transformed consumer accepts `x` exactly as the original accepts `f(x)`, or
      throws what `f` throws; completion and errors never reach the original's
      listeners. */
  lemma TransformedConsumer<T, U>(c: Consumer<T>, f: U -> Result<T, Throwable>, x: U, signal: Signal)
    ensures Transform(c, Some(f)).Success?
    ensures f(x).Success? ==> Transform(c, Some(f)).value.accept(x) == c.accept(f(x).value)
    ensures f(x).Failure? ==> Transform(c, Some(f)).value.accept(x) == Fail(f(x).error)
    ensures Deliver(Transform(c, Some(f)).value.callback, signal) == []
  {
  }

  /** `toJavaConsumer().accept(item)`: returns when `accept` returns; an `Exception` is
      wrapped in a `WrappedRuntimeException` whose message names the item (`describe`
      stands for its `toString`); an `Error` passes through. */
  function JavaAccept<T>(c: Consumer<T>, describe: T -> string, item: T): (r: Outcome<Throwable>)
    ensures r.Pass? <==> c.accept(item).Pass?
    ensures r.Fail? && IsException(c.accept(item).error) ==>
      r.error == WrappedRuntime("unable to accept item " + describe(item), c.accept(item).error)
    ensures r.Fail? && !IsException(c.accept(item).error) ==> r.error == c.accept(item).error
  {
    match c.accept(item)
    case Pass => Pass
    case Fail(e) =>
      if IsException(e) then Fail(WrappedRuntime("unable to accept item " + describe(item), e)) else Fail(e)
  }
}
