/** `DatumSupplier` and `DatumSupplierUtil`. A supplier is known by what its k-th
    `get()` call returns (a value, or a throwable) and by the callback its
    `onComplete`/`onError` reach. */
module Suppliers {
  import opened Wrappers
  import opened JavaLang
  import opened Callbacks

  /** The effect of one `get()` call. */
  datatype Pull<+T> = Got(value: T) | Threw(cause: Throwable)

  datatype Supplier<T> = Supplier(get: nat -> Pull<T>, callback: Callback)

  /** `from(iterator)`: one iterator element per call, then empty. `xs` are the
      iterator's elements, `None` standing for a `null` one: `Optional.of` rejects it
      with a `NullPointerException` after `next()` has already advanced the iterator,
      so the following call sees the following element. An iterator supplier does not
      override the callback methods. */
  function From<T>(xs: seq<Option<T>>): (s: Supplier<Option<T>>)
    ensures forall k :: 0 <= k < |xs| && xs[k].Some? ==> s.get(k) == Got(Some(xs[k].value))
    ensures forall k :: 0 <= k < |xs| && xs[k].None? ==> s.get(k) == Threw(NullValue)
    ensures forall k :: k >= |xs| ==> s.get(k) == Got(None)
    ensures s.callback == NoOp
  {
    Supplier((k: nat) => if k < |xs| then Present(xs[k]) else Got(None), NoOp)
  }

  /** `Optional.of(x)`: present for a non-null `x`, otherwise the exception
      `Objects.requireNonNull` throws. */
  function Present<T>(x: Option<T>): Pull<Option<T>>
  {
    if x.Some? then Got(x) else Threw(NullValue)
  }

  /** `of(Iterable)`: the iterable's iterator, whose elements are `xs`. */
  function OfIterable<T>(xs: seq<Option<T>>): Supplier<Option<T>>
  {
    From(xs)
  }

  /** `of(Optional)`: the value of a present optional, which is never null. */
  function OfOptional<T>(o: Option<T>): Supplier<Option<T>>
  {
    From(if o.Some? then [Some(o.value)] else [])
  }

  /** `of(T)`: a singleton iterator over the item, which may be null. */
  function OfItem<T>(item: Option<T>): Supplier<Option<T>>
  {
    From([item])
  }

  /** `of(Optional.empty())` is empty on every call; `of(item)` gives the item once and
      then is empty forever, except that `of(null)` throws on the first call instead;
      `of(Optional.of(x))` behaves as `of(x)`. */
  lemma OfFactories<T>(item: T, k: nat)
    ensures OfOptional<T>(None).get(k) == Got(None)
    ensures OfItem(Some(item)).get(k) == if k == 0 then Got(Some(item)) else Got(None)
    ensures OfItem<T>(None).get(k) == if k == 0 then Threw(NullValue) else Got(None)
    ensures OfOptional(Some(item)).get(k) == OfItem(Some(item)).get(k)
  {
  }

  /** `transform(transformer)`: a null transformer is rejected; otherwise the k-th
      call applies the transformer to the delegate's k-th result, and the callback is
      the delegate's. The transformer is a `java.util.function.Function`, which may
      itself throw. */
  function Transform<T, U>(s: Supplier<T>, transformer: Option<T -> Pull<U>>): (r: Result<Supplier<U>, Throwable>)
    ensures transformer.None? <==> r.Failure?
    ensures r.Failure? ==> r.error == NullPointer("transformer cannot be null")
    ensures r.Success? ==> r.value.callback == s.callback
  {
    match transformer
    case None => Failure(NullPointer("transformer cannot be null"))
    case Some(f) =>
      Success(Supplier((k: nat) => Then(s.get(k), f), s.callback))
  }

  /** A pull followed by a function that may throw: an exception from the first skips
      the second. */
  function Then<T, U>(p: Pull<T>, f: T -> Pull<U>): Pull<U>
  {
    match p
    case Got(x) => f(x)
    case Threw(e) => Threw(e)
  }

  /** Each transformed call makes exactly one delegate call, with the same index: a
      value is handed to the transformer, whose value or exception is the result, and
      a delegate exception passes through without calling the transformer. */
  lemma TransformPointwise<T, U>(s: Supplier<T>, f: T -> Pull<U>, k: nat)
    ensures Transform(s, Some(f)).Success?
    ensures s.get(k).Got? ==> Transform(s, Some(f)).value.get(k) == f(s.get(k).value)
    ensures s.get(k).Got? && f(s.get(k).value).Threw?
        ==> Transform(s, Some(f)).value.get(k) == Threw(f(s.get(k).value).cause)
    ensures s.get(k).Threw? ==> Transform(s, Some(f)).value.get(k) == Threw(s.get(k).cause)
  {
  }

  /** Transforming twice is transforming once by the composition, in which an
      exception from the first function skips the second. */
  lemma TransformComposes<T, U, V>(s: Supplier<T>, f: T -> Pull<U>, g: U -> Pull<V>, k: nat)
    ensures Transform(Transform(s, Some(f)).value, Some(g)).value.get(k)
         == Transform(s, Some(x => Then(f(x), g))).value.get(k)
  {
    var h := x => Then(f(x), g);
    var once := Transform(s, Some(f)).value;
    assert once.get(k) == Then(s.get(k), f);
    assert Transform(once, Some(g)).value.get(k) == Then(once.get(k), g);
    assert Transform(s, Some(h)).value.get(k) == Then(s.get(k), h);
    if s.get(k).Got? {
      assert h(s.get(k).value) == Then(f(s.get(k).value), g);
    }
  }

  /** `limit(n)`: the first `n` calls go to the delegate, every later call returns
      empty without calling it. */
  function Limit<T>(s: Supplier<Option<T>>, limit: int): (r: Supplier<Option<T>>)
    ensures forall k: nat :: k < limit ==> r.get(k) == s.get(k)
    ensures forall k: nat :: k >= limit ==> r.get(k) == Got(None)
    ensures r.callback == s.callback
  {
    Supplier((k: nat) => if k < limit then s.get(k) else Got(None), s.callback)
  }

  /** Limiting a finite iterator supplier to at least its length changes nothing; to
      fewer, it truncates it. */
  lemma LimitOfFrom<T>(xs: seq<Option<T>>, n: nat, k: nat)
    ensures Limit(From(xs), n).get(k) == From(if n < |xs| then xs[..n] else xs).get(k)
  {
  }

  /** `filter(predicate)`: a null predicate is rejected. The predicate is a
      `java.util.function.Predicate`, which may throw. */
  datatype Filtered<!T> = Filtered(delegate: Supplier<T>, test: T -> Pull<bool>)

  function Filter<T>(s: Supplier<T>, test: Option<T -> Pull<bool>>): (r: Result<Filtered<T>, Throwable>)
    ensures test.None? <==> r.Failure?
    ensures r.Failure? ==> r.error == NullPointer("predicate cannot be null")
    ensures r.Success? ==> r.value.delegate == s
  {
    match test
    case None => Failure(NullPointer("predicate cannot be null"))
    case Some(p) => Success(Filtered(s, p))
  }

  /** The callback of a filtered supplier is its delegate's. */
  function FilteredCallback<T>(f: Filtered<T>): (cb: Callback)
    ensures forall signal :: Deliver(cb, signal) == Deliver(f.delegate.callback, signal)
  {
    f.delegate.callback
  }

  /** What the filter's loop does with one delegate result: `None` when the predicate
      rejects it and the loop goes on; otherwise what `get()` returns or throws — the
      delegate's exception, the predicate's exception, or the accepted value. */
  function Examine<T>(f: Filtered<T>, p: Pull<T>): (r: Option<Pull<T>>)
    ensures p.Threw? ==> r == Some(p)
    ensures p.Got? && f.test(p.value).Threw? ==> r == Some(Threw(f.test(p.value).cause))
    ensures p.Got? && f.test(p.value).Got? ==> (r.Some? <==> f.test(p.value).value)
    ensures r.Some? && r.value.Got? ==> r.value == p
  {
    match p
    case Threw(e) => Some(p)
    case Got(x) =>
      match f.test(x)
      case Threw(e) => Some(Threw(e))
      case Got(accepted) => if accepted then Some(p) else None
  }

  /** One filtered `get()` whose first delegate call is call number `start`: the loop
      calls the delegate until a result passes the predicate, or the delegate or the
      predicate throws. The source loops for as long as results are rejected; `bound`
      is the delegate call number at which this model stops looking, and `None` says
      the loop was still running there. */
  method FilteredGet<T>(f: Filtered<T>, start: nat, bound: nat) returns (r: Option<Pull<T>>, next: nat)
    requires start <= bound
    ensures start <= next <= bound
    ensures r.Some? ==> start < next && r == Examine(f, f.delegate.get(next - 1))
    ensures r.None? ==> next == bound
    ensures forall j :: start <= j < next && (r.None? || j < next - 1) ==> Examine(f, f.delegate.get(j)).None?
  {
    var item := f.delegate.get(start);
    next := start + 1;
    if start == bound {
      return None, start;
    }
    var verdict := Examine(f, item);
    while verdict.None?
      invariant start < next <= bound
      invariant verdict == Examine(f, f.delegate.get(next - 1))
      invariant forall j :: start <= j < next - 1 ==> Examine(f, f.delegate.get(j)).None?
      decreases bound - next
    {
      if next == bound {
        return None, bound;
      }
      item := f.delegate.get(next);
      verdict := Examine(f, item);
      next := next + 1;
    }
    r := verdict;
  }

  /** `toJavaSupplier().get()`: the delegate's value, or its exception wrapped in a
      `WrappedRuntimeException` when it is an `Exception`; an `Error` passes through. */
  function JavaGet<T>(p: Pull<T>): (r: Result<T, Throwable>)
    ensures p.Got? <==> r.Success?
    ensures r.Success? ==> r.value == p.value
    ensures p.Threw? && IsException(p.cause) ==> r.error == WrappedRuntime("unable to retrieve item", p.cause)
    ensures p.Threw? && !IsException(p.cause) ==> r.error == p.cause
  {
    match p
    case Got(x) => Success(x)
    case Threw(e) => if IsException(e) then Failure(WrappedRuntime("unable to retrieve item", e)) else Failure(e)
  }
}
