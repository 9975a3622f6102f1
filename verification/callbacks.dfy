/** `DatumCallback` and `DatumCallbackUtil.merge`. A callback is known by the
    listeners its `onComplete`/`onError` reach: a user listener, a callback whose
    methods do nothing (the interface's defaults), or a merge of two callbacks. */
module Callbacks {
  import opened Wrappers
  import opened JavaLang

  datatype Signal = Complete | Error(cause: Throwable)

  datatype Callback = Listener(id: nat) | NoOp | Merged(first: Callback, second: Callback)

  /** One call that reached a user listener. */
  datatype Call = Call(listener: nat, signal: Signal)

  /** `merge(callback1, callback2)`. */
  function Merge(first: Callback, second: Callback): Callback
  {
    Merged(first, second)
  }

  /** The user listeners inside a callback, left to right, with repetitions. */
  function Listeners(cb: Callback): seq<nat>
  {
    match cb
    case Listener(id) => [id]
    case NoOp => []
    case Merged(a, b) => Listeners(a) + Listeners(b)
  }

  /** The listener calls that one `onComplete` or `onError(cause)` makes: every listener
      once, in order, with the same signal. */
  function Deliver(cb: Callback, signal: Signal): (calls: seq<Call>)
    ensures |calls| == |Listeners(cb)|
    ensures forall k :: 0 <= k < |calls| ==> calls[k] == Call(Listeners(cb)[k], signal)
  {
    match cb
    case Listener(id) => [Call(id, signal)]
    case NoOp => []
    case Merged(a, b) => Deliver(a, signal) + Deliver(b, signal)
  }

  /** Listener calls recorded, in order, as steps of an effect log: each engine and
      handshake submits its notifications this way, with its own step constructor. */
  function Submitted<F>(calls: seq<Call>, notify: Call -> F): (effects: seq<F>)
    ensures |effects| == |calls|
    ensures forall k :: 0 <= k < |calls| ==> effects[k] == notify(calls[k])
  {
    seq(|calls|, k requires 0 <= k < |calls| => notify(calls[k]))
  }

  /** What each user listener call does: `None` when it returns, `Some(e)` when it
      throws `e`. */
  type Throws = Call -> Option<Throwable>

  /** One `onComplete` or `onError(cause)` when listeners may throw: the listener calls
      made, and the exception that leaves the callback. A merged callback calls its
      second half only when the first returned. */
  function DeliverOrThrow(cb: Callback, signal: Signal, throws: Throws): (r: (seq<Call>, Option<Throwable>))
    ensures |r.0| <= |Deliver(cb, signal)| && r.0 == Deliver(cb, signal)[..|r.0|]
    ensures r.1.None? ==> r.0 == Deliver(cb, signal)
    ensures r.1.Some? ==> |r.0| >= 1 && throws(r.0[|r.0| - 1]) == r.1
    ensures forall k :: 0 <= k < |r.0| - 1 ==> throws(r.0[k]).None?
    ensures r.1.None? ==> forall k :: 0 <= k < |r.0| ==> throws(r.0[k]).None?
  {
    match cb
    case Listener(id) => ([Call(id, signal)], throws(Call(id, signal)))
    case NoOp => ([], None)
    case Merged(a, b) =>
      var first := DeliverOrThrow(a, signal, throws);
      if first.1.Some? then first
      else
        var second := DeliverOrThrow(b, signal, throws);
        (first.0 + second.0, second.1)
  }

  /** The merged callback calls the first callback's listeners and then the second's,
      passing the same cause to both; when a call of the first throws, the exception
      leaves the merged callback and the second is not called. */
  lemma MergeCallsFirstThenSecond(a: Callback, b: Callback, signal: Signal, throws: Throws)
    ensures Deliver(Merge(a, b), signal) == Deliver(a, signal) + Deliver(b, signal)
    ensures var first, second := DeliverOrThrow(a, signal, throws), DeliverOrThrow(b, signal, throws);
      && (first.1.Some? ==> DeliverOrThrow(Merge(a, b), signal, throws) == first)
      && (first.1.None? ==> DeliverOrThrow(Merge(a, b), signal, throws) == (Deliver(a, signal) + second.0, second.1))
  {
  }

  /** When no listener throws, the calls are exactly those of `Deliver` and nothing
      leaves the callback; otherwise the calls stop at the first listener that throws,
      and its exception is the one that leaves. */
  lemma {:induction false} DeliverOrThrowStopsAtFirst(cb: Callback, signal: Signal, throws: Throws)
    ensures var calls := Deliver(cb, signal);
      var r := DeliverOrThrow(cb, signal, throws);
      && ((forall k :: 0 <= k < |calls| ==> throws(calls[k]).None?) <==> r == (calls, None))
      && (forall j :: 0 <= j < |calls| && throws(calls[j]).Some?
                  && (forall k :: 0 <= k < j ==> throws(calls[k]).None?)
                  ==> r == (calls[..j + 1], throws(calls[j])))
  {
    var calls := Deliver(cb, signal);
    var r := DeliverOrThrow(cb, signal, throws);
    forall j | 0 <= j < |calls| && throws(calls[j]).Some? && (forall k :: 0 <= k < j ==> throws(calls[k]).None?)
      ensures r == (calls[..j + 1], throws(calls[j]))
    {
      assert forall k :: 0 <= k < |r.0| ==> r.0[k] == calls[k];
    }
  }

  /** The reference for a delivery when listeners may throw: the calls in order, up to
      and including the first one that throws, and that exception. */
  function StopAtFirstThrow(calls: seq<Call>, throws: Throws): (seq<Call>, Option<Throwable>)
    decreases |calls|
  {
    if |calls| == 0 then ([], None)
    else if throws(calls[0]).Some? then ([calls[0]], throws(calls[0]))
    else
      var r := StopAtFirstThrow(calls[1..], throws);
      ([calls[0]] + r.0, r.1)
  }

  /** Stopping at the first throw in `x ++ y`: within `x` if `x` throws, and otherwise
      all of `x` followed by stopping within `y`. */
  lemma {:induction false} StopAtFirstThrowAppend(x: seq<Call>, y: seq<Call>, throws: Throws)
    ensures var rx, ry := StopAtFirstThrow(x, throws), StopAtFirstThrow(y, throws);
      StopAtFirstThrow(x + y, throws) == if rx.1.Some? then rx else (x + ry.0, ry.1)
    decreases |x|
  {
    if |x| == 0 {
      var ry := StopAtFirstThrow(y, throws);
      assert x + y == y;
      assert x + ry.0 == ry.0;
      assert StopAtFirstThrow(x, throws) == ([], None);
    } else {
      assert (x + y)[0] == x[0];
      assert (x + y)[1..] == x[1..] + y;
      StopAtFirstThrowAppend(x[1..], y, throws);
      var ry := StopAtFirstThrow(y, throws);
      assert [x[0]] + (x[1..] + ry.0) == x + ry.0;
    }
  }

  /** A callback that may throw delivers exactly what stopping its plain delivery at
      the first throw gives: what happens depends only on the calls, in order. */
  lemma {:induction false} DeliverOrThrowIsStopAtFirst(cb: Callback, signal: Signal, throws: Throws)
    ensures DeliverOrThrow(cb, signal, throws) == StopAtFirstThrow(Deliver(cb, signal), throws)
  {
    match cb
    case Listener(id) =>
      var calls := [Call(id, signal)];
      assert calls[1..] == [];
      assert StopAtFirstThrow(calls[1..], throws) == ([], None);
      assert calls + [] == calls;
    case NoOp =>
    case Merged(a, b) =>
      DeliverOrThrowIsStopAtFirst(a, signal, throws);
      DeliverOrThrowIsStopAtFirst(b, signal, throws);
      StopAtFirstThrowAppend(Deliver(a, signal), Deliver(b, signal), throws);
  }

  /** The merged callback keeps no state of its own, so two callbacks that reach the
      same listeners in the same order make the same calls and throw the same
      exception. */
  lemma SameListenersSameCalls(a: Callback, b: Callback, signal: Signal, throws: Throws)
    requires Listeners(a) == Listeners(b)
    ensures Deliver(a, signal) == Deliver(b, signal)
    ensures DeliverOrThrow(a, signal, throws) == DeliverOrThrow(b, signal, throws)
  {
    assert Deliver(a, signal) == Deliver(b, signal);
    DeliverOrThrowIsStopAtFirst(a, signal, throws);
    DeliverOrThrowIsStopAtFirst(b, signal, throws);
  }

  /** Nested merges make the same calls, and throw the same exception, whatever their
      grouping. */
  lemma MergeAssociative(a: Callback, b: Callback, c: Callback, signal: Signal, throws: Throws)
    ensures Deliver(Merge(Merge(a, b), c), signal) == Deliver(Merge(a, Merge(b, c)), signal)
    ensures DeliverOrThrow(Merge(Merge(a, b), c), signal, throws)
         == DeliverOrThrow(Merge(a, Merge(b, c)), signal, throws)
  {
    var x, y, z := Deliver(a, signal), Deliver(b, signal), Deliver(c, signal);
    assert (x + y) + z == x + (y + z);
    DeliverOrThrowIsStopAtFirst(Merge(Merge(a, b), c), signal, throws);
    DeliverOrThrowIsStopAtFirst(Merge(a, Merge(b, c)), signal, throws);
  }

  /** Merging with a do-nothing callback, on either side, changes no call and no
      exception. */
  lemma MergeNoOp(a: Callback, signal: Signal, throws: Throws)
    ensures Deliver(Merge(NoOp, a), signal) == Deliver(a, signal)
    ensures Deliver(Merge(a, NoOp), signal) == Deliver(a, signal)
    ensures DeliverOrThrow(Merge(NoOp, a), signal, throws) == DeliverOrThrow(a, signal, throws)
    ensures DeliverOrThrow(Merge(a, NoOp), signal, throws) == DeliverOrThrow(a, signal, throws)
  {
    var x := Deliver(a, signal);
    assert [] + x == x && x + [] == x;
    var r := DeliverOrThrow(a, signal, throws);
    assert [] + r.0 == r.0 && r.0 + [] == r.0;
  }
}
