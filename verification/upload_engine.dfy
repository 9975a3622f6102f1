/** `DatumChannelUploadHandler`: the engine that pulls items from a supplier and writes
    them to the channel while it stays writable, skipping a bounded number of supplier
    failures per pull, and that ends the stream with one stream-end sentinel once the
    supplier is exhausted.

    The supplier is given by the results of its successive `get()` calls; past the
    listed results it keeps returning empty. The channel's writability is an oracle:
    the answers its `isWritable()` checks give during one run of `startWriting`, in
    order (writable once the list runs out). What the engine does to the channel and
    to the listeners is recorded as a list of effects. */
module UploadEngine {
  import opened Wrappers
  import opened JavaLang
  import opened Callbacks
  import opened Suppliers

  const MAX_SKIP_COUNT: nat := 5

  /** The result of supplier call number `k`. */
  function PullAt<T>(pulls: seq<Pull<Option<T>>>, k: nat): Pull<Option<T>>
  {
    if k < |pulls| then pulls[k] else Got(None)
  }

  /** `getItem(skipCount)` when `cursor` supplier calls have been made: the item or the
      exception, and the number of calls made afterwards. A failing call is retried
      while skips remain; the failure that finds none left becomes an
      `IllegalStateException` whose cause is that failure. */
  function GetItem<T>(pulls: seq<Pull<Option<T>>>, cursor: nat, skipCount: nat): (r: (Result<Option<T>, Throwable>, nat))
    ensures cursor < r.1 <= cursor + skipCount + 1
    ensures forall j :: cursor <= j < r.1 - 1 ==> PullAt(pulls, j).Threw?
    ensures r.0.Success? ==> PullAt(pulls, r.1 - 1) == Got(r.0.value)
    ensures r.0.Failure? ==>
      r.1 == cursor + skipCount + 1 && PullAt(pulls, r.1 - 1).Threw?
      && r.0.error == IllegalState("unable to continue; skips expired", PullAt(pulls, r.1 - 1).cause)
    decreases skipCount
  {
    match PullAt(pulls, cursor)
    case Got(item) => (Success(item), cursor + 1)
    case Threw(e) =>
      if skipCount > 0 then GetItem(pulls, cursor + 1, skipCount - 1)
      else (Failure(IllegalState("unable to continue; skips expired", e)), cursor + 1)
  }

  /** One pull fails exactly when six consecutive supplier calls throw; otherwise it
      returns the first result that did not throw. */
  lemma SkipBudget<T>(pulls: seq<Pull<Option<T>>>, cursor: nat)
    ensures GetItem(pulls, cursor, MAX_SKIP_COUNT).0.Failure?
        <==> forall j :: cursor <= j <= cursor + MAX_SKIP_COUNT ==> PullAt(pulls, j).Threw?
  {
    var (item, next) := GetItem(pulls, cursor, MAX_SKIP_COUNT);
    if item.Success? {
      assert !PullAt(pulls, next - 1).Threw?;
    }
  }

  /** What the engine does, in order. */
  datatype Effect<+T> =
    | Write(item: T)          // `context.write(item)`
    | WriteAndFlush(item: T)  // `context.writeAndFlush(item)`
    | WriteStreamEnd          // the stream-end sentinel, with the completion listener
    | Raise(cause: Throwable) // an exception thrown out of the handler method
    | Close                   // `context.close()`
    | Notify(call: Call)      // a listener reached by `onComplete`/`onError`

  /** The items handed to the channel. */
  function Written<T>(effects: seq<Effect<T>>): (items: seq<T>)
    ensures |items| <= |effects|
  {
    if |effects| == 0 then []
    else
      var head := if effects[0].Write? || effects[0].WriteAndFlush? then [effects[0].item] else [];
      head + Written(effects[1..])
  }

  function CountStreamEnds<T>(effects: seq<Effect<T>>): nat
  {
    if |effects| == 0 then 0
    else (if effects[0].WriteStreamEnd? then 1 else 0) + CountStreamEnds(effects[1..])
  }

  lemma EffectsAppend<T>(a: seq<Effect<T>>, b: seq<Effect<T>>)
    ensures Written(a + b) == Written(a) + Written(b)
    ensures CountStreamEnds(a + b) == CountStreamEnds(a) + CountStreamEnds(b)
  {
    WrittenAppend(a, b);
    CountAppend(a, b);
  }

  lemma {:induction false} WrittenAppend<T>(a: seq<Effect<T>>, b: seq<Effect<T>>)
    ensures Written(a + b) == Written(a) + Written(b)
    decreases |a|
  {
    if |a| == 0 {
      assert a + b == b;
    } else {
      var head := if a[0].Write? || a[0].WriteAndFlush? then [a[0].item] else [];
      assert (a + b)[0] == a[0];
      assert (a + b)[1..] == a[1..] + b;
      assert Written(a + b) == head + Written(a[1..] + b);
      WrittenAppend(a[1..], b);
      assert Written(a) == head + Written(a[1..]);
      assert head + (Written(a[1..]) + Written(b)) == (head + Written(a[1..])) + Written(b);
    }
  }

  lemma {:induction false} CountAppend<T>(a: seq<Effect<T>>, b: seq<Effect<T>>)
    ensures CountStreamEnds(a + b) == CountStreamEnds(a) + CountStreamEnds(b)
    decreases |a|
  {
    if |a| == 0 {
      assert a + b == b;
    } else {
      assert (a + b)[0] == a[0];
      assert (a + b)[1..] == a[1..] + b;
      CountAppend(a[1..], b);
    }
  }

  /** The present items among supplier calls `lo` .. `hi - 1`, in call order. */
  function Items<T>(pulls: seq<Pull<Option<T>>>, lo: nat, hi: nat): seq<T>
    decreases hi
  {
    if hi <= lo then []
    else
      var p := PullAt(pulls, hi - 1);
      Items(pulls, lo, hi - 1) + (if p.Got? && p.value.Some? then [p.value.value] else [])
  }

  lemma {:induction false} ItemsSplit<T>(pulls: seq<Pull<Option<T>>>, lo: nat, mid: nat, hi: nat)
    requires lo <= mid <= hi
    ensures Items(pulls, lo, hi) == Items(pulls, lo, mid) + Items(pulls, mid, hi)
    decreases hi
  {
    if hi > mid {
      ItemsSplit(pulls, lo, mid, hi - 1);
    }
  }

  /** Calls that all threw contribute no item. */
  lemma {:induction false} ItemsOfFailures<T>(pulls: seq<Pull<Option<T>>>, lo: nat, hi: nat)
    requires forall j :: lo <= j < hi ==> PullAt(pulls, j).Threw?
    ensures Items(pulls, lo, hi) == []
    decreases hi
  {
    if hi > lo {
      ItemsOfFailures(pulls, lo, hi - 1);
    }
  }

  /** How a run of `startWriting` ended: the channel stopped being writable, the
      supplier was exhausted, or a pull failed. */
  datatype Ending = Paused | Exhausted | Failed(cause: Throwable)

  datatype Run<+T> = Run(cursor: nat, writeCount: nat, effects: seq<Effect<T>>, ending: Ending)

  /** The writability check at the head of the oracle, and the oracle after it. */
  function IsWritable(checks: seq<bool>): bool
  {
    |checks| == 0 || checks[0]
  }

  function AfterCheck(checks: seq<bool>): seq<bool>
  {
    if |checks| == 0 then [] else checks[1..]
  }

  /** `startWriting` as a recursive definition: pull, and write while the channel is
      writable; the item pulled when it is not is still written, with a flush; an
      empty pull ends the stream. */
  function Pump<T>(pulls: seq<Pull<Option<T>>>, checks: seq<bool>, cursor: nat, count: nat): (r: Run<T>)
    ensures cursor < r.cursor
    decreases |pulls| - cursor
  {
    var (item, next) := GetItem(pulls, cursor, MAX_SKIP_COUNT);
    if item.Failure? then Run(next, count, [Raise(item.error)], Failed(item.error))
    else if item.value.None? then Run(next, count, [WriteStreamEnd], Exhausted)
    else if !IsWritable(checks) then Run(next, count + 1, [WriteAndFlush(item.value.value)], Paused)
    else
      var rest := Pump(pulls, AfterCheck(checks), next, count + 1);
      Run(rest.cursor, rest.writeCount, [Write(item.value.value)] + rest.effects, rest.ending)
  }

  /** One unfolding of `Pump`, case by case. */
  lemma PumpUnfold<T>(pulls: seq<Pull<Option<T>>>, checks: seq<bool>, cursor: nat, count: nat)
    ensures var (item, next) := GetItem(pulls, cursor, MAX_SKIP_COUNT);
      var r := Pump(pulls, checks, cursor, count);
      && (item.Failure? ==> r == Run(next, count, [Raise(item.error)], Failed(item.error)))
      && (item.Success? && item.value.None? ==> r == Run(next, count, [WriteStreamEnd], Exhausted))
      && (item.Success? && item.value.Some? && !IsWritable(checks) ==>
            r == Run(next, count + 1, [WriteAndFlush(item.value.value)], Paused))
      && (item.Success? && item.value.Some? && IsWritable(checks) ==>
            next <= |pulls|
            && var rest := Pump(pulls, AfterCheck(checks), next, count + 1);
            r == Run(rest.cursor, rest.writeCount, [Write(item.value.value)] + rest.effects, rest.ending))
  {
  }

  /** A run sends the stream-end sentinel exactly when it ends on exhaustion. */
  lemma {:induction false} PumpStreamEnds<T>(pulls: seq<Pull<Option<T>>>, checks: seq<bool>, cursor: nat, count: nat)
    ensures var r := Pump(pulls, checks, cursor, count);
      CountStreamEnds(r.effects) == if r.ending.Exhausted? then 1 else 0
    decreases |pulls| - cursor
  {
    PumpUnfold(pulls, checks, cursor, count);
    var g := GetItem(pulls, cursor, MAX_SKIP_COUNT);
    if g.0.Success? && g.0.value.Some? && IsWritable(checks) {
      var rest := Pump(pulls, AfterCheck(checks), g.1, count + 1);
      PumpStreamEnds(pulls, AfterCheck(checks), g.1, count + 1);
      EffectsAppend([Write(g.0.value.value)], rest.effects);
    }
  }

  /** A run's write count grows by exactly the number of items it writes. */
  lemma {:induction false} PumpWriteCount<T>(pulls: seq<Pull<Option<T>>>, checks: seq<bool>, cursor: nat, count: nat)
    ensures var r := Pump(pulls, checks, cursor, count);
      r.writeCount == count + |Written(r.effects)|
    decreases |pulls| - cursor
  {
    PumpUnfold(pulls, checks, cursor, count);
    var g := GetItem(pulls, cursor, MAX_SKIP_COUNT);
    if g.0.Success? && g.0.value.Some? && IsWritable(checks) {
      var rest := Pump(pulls, AfterCheck(checks), g.1, count + 1);
      PumpWriteCount(pulls, AfterCheck(checks), g.1, count + 1);
      EffectsAppend([Write(g.0.value.value)], rest.effects);
    }
  }

  /** Every present item pulled during a run is written exactly once, in supplier
      order, including the one pulled when the channel turned non-writable. */
  lemma {:induction false} PumpWritesPulledItems<T>(pulls: seq<Pull<Option<T>>>, checks: seq<bool>, cursor: nat, count: nat)
    ensures Written(Pump(pulls, checks, cursor, count).effects)
         == Items(pulls, cursor, Pump(pulls, checks, cursor, count).cursor)
    decreases |pulls| - cursor
  {
    var g := GetItem(pulls, cursor, MAX_SKIP_COUNT);
    var item, next := g.0, g.1;
    var r := Pump(pulls, checks, cursor, count);
    ItemsOfFailures(pulls, cursor, next - 1);
    ItemsSplit(pulls, cursor, next - 1, next);
    assert Items(pulls, cursor, next) == Items(pulls, next - 1, next);
    if item.Failure? || item.value.None? || !IsWritable(checks) {
      assert r.cursor == next;
    } else {
      var x := item.value.value;
      var rest := Pump(pulls, AfterCheck(checks), next, count + 1);
      assert r == Run(rest.cursor, rest.writeCount, [Write(x)] + rest.effects, rest.ending);
      PumpWritesPulledItems(pulls, AfterCheck(checks), next, count + 1);
      ItemsSplit(pulls, cursor, next, rest.cursor);
      EffectsAppend([Write(x)], rest.effects);
      assert Written([Write(x)]) == [x];
      assert Items(pulls, cursor, next) == [x];
    }
  }

  /** A run preceded by effects already recorded. */
  function After<T>(effects: seq<Effect<T>>, r: Run<T>): Run<T>
  {
    Run(r.cursor, r.writeCount, effects + r.effects, r.ending)
  }

  /** The loop of `startWriting` as the source writes it. */
  method StartWriting<T>(pulls: seq<Pull<Option<T>>>, checks: seq<bool>, cursor: nat, count: nat)
    returns (next: nat, writeCount: nat, effects: seq<Effect<T>>, ending: Ending)
    ensures Run(next, writeCount, effects, ending) == Pump(pulls, checks, cursor, count)
  {
    ghost var target := Pump(pulls, checks, cursor, count);
    var remaining := checks;
    writeCount := count;
    effects := [];
    ghost var prev := cursor;
    var pulled := GetItem(pulls, cursor, MAX_SKIP_COUNT);
    assert target == After(effects, Pump(pulls, remaining, prev, writeCount));
    while pulled.0.Success? && pulled.0.value.Some? && IsWritable(remaining)
      invariant pulled == GetItem(pulls, prev, MAX_SKIP_COUNT)
      invariant target == After(effects, Pump(pulls, remaining, prev, writeCount))
      decreases |pulls| - prev
    {
      PumpUnfold(pulls, remaining, prev, writeCount);
      var item := pulled.0.value.value;
      ghost var rest := Pump(pulls, AfterCheck(remaining), pulled.1, writeCount + 1);
      ConcatAssoc(effects, [Write(item)], rest.effects);
      effects := effects + [Write(item)];
      writeCount := writeCount + 1;
      remaining := AfterCheck(remaining);
      prev := pulled.1;
      pulled := GetItem(pulls, pulled.1, MAX_SKIP_COUNT);
    }
    PumpUnfold(pulls, remaining, prev, writeCount);
    next := pulled.1;
    if pulled.0.Failure? {
      effects := effects + [Raise(pulled.0.error)];
      ending := Failed(pulled.0.error);
    } else if pulled.0.value.Some? {
      effects := effects + [WriteAndFlush(pulled.0.value.value)];
      writeCount := writeCount + 1;
      ending := Paused;
    } else {
      effects := effects + [WriteStreamEnd];
      ending := Exhausted;
    }
  }

  lemma ConcatAssoc<X>(a: seq<X>, b: seq<X>, c: seq<X>)
    ensures a + (b + c) == (a + b) + c
  {
  }

  /** The engine between events: supplier calls made, `writeCount`, `writeComplete`,
      everything it has done so far, and whether it is still in the pipeline. */
  datatype Engine<+T> = Engine(cursor: nat, writeCount: nat, writeComplete: bool, effects: seq<Effect<T>>, attached: bool)

  /** `startWriting` from an engine state. `writeComplete` is set on exhaustion and
      cleared when the channel stops a run; a failed pull leaves it as it was. */
  function Resume<T>(pulls: seq<Pull<Option<T>>>, e: Engine<T>, checks: seq<bool>): (r: Engine<T>)
  {
    var run := Pump(pulls, checks, e.cursor, e.writeCount);
    var complete := if run.ending.Exhausted? then true else if run.ending.Paused? then false else e.writeComplete;
    Engine(run.cursor, run.writeCount, complete, e.effects + run.effects, e.attached)
  }

  /** `handlerAdded`: the first run, from a fresh engine. When that run throws, Netty
      removes the handler from the pipeline and fires a `ChannelPipelineException`
      from the pipeline's head instead of calling this handler's `exceptionCaught`:
      the engine is detached, and no later event reaches it. */
  function Added<T>(pulls: seq<Pull<Option<T>>>, checks: seq<bool>): Engine<T>
  {
    var e := Resume(pulls, Engine(0, 0, false, [], true), checks);
    e.(attached := !Pump(pulls, checks, 0, 0).ending.Failed?)
  }

  datatype Event =
    | WritabilityChanged(writable: bool, checks: seq<bool>)
    | StreamEndWritten(outcome: Outcome<Throwable>)
    | ExceptionCaught(cause: Throwable)

  function Notifications<T>(calls: seq<Call>): seq<Effect<T>>
  {
    Submitted(calls, c => Notify(c))
  }

  /** The engine's `onComplete`/`onError`: the supplier's callback first, then the
      handler's callback, with the same signal. */
  function Report<T>(supplier: Callback, callback: Callback, signal: Signal): seq<Effect<T>>
  {
    Notifications(Deliver(supplier, signal) + Deliver(callback, signal))
  }

  /** One event. A writability change restarts the loop only while the stream is not
      complete and the channel is writable; the sentinel's write listener reports
      completion or the write's failure; an exception closes the channel and reports
      it. */
  function Handle<T>(pulls: seq<Pull<Option<T>>>, supplier: Callback, callback: Callback, e: Engine<T>, ev: Event): Engine<T>
  {
    if !e.attached then e
    else match ev
    case WritabilityChanged(writable, checks) =>
      if !e.writeComplete && writable then Resume(pulls, e, checks) else e
    case StreamEndWritten(Pass) => e.(effects := e.effects + Report(supplier, callback, Complete))
    case StreamEndWritten(Fail(cause)) => e.(effects := e.effects + Report(supplier, callback, Signal.Error(cause)))
    case ExceptionCaught(cause) => e.(effects := e.effects + [Close] + Report(supplier, callback, Signal.Error(cause)))
  }

  function HandleAll<T>(pulls: seq<Pull<Option<T>>>, supplier: Callback, callback: Callback, e: Engine<T>, events: seq<Event>): Engine<T>
    decreases |events|
  {
    if |events| == 0 then e else HandleAll(pulls, supplier, callback, Handle(pulls, supplier, callback, e, events[0]), events[1..])
  }

  lemma {:induction false} NotificationsWriteNothing<T>(calls: seq<Call>)
    ensures Written<T>(Notifications(calls)) == []
    ensures CountStreamEnds<T>(Notifications(calls)) == 0
    decreases |calls|
  {
    if |calls| > 0 {
      assert Notifications<T>(calls)[1..] == Notifications(calls[1..]);
      NotificationsWriteNothing<T>(calls[1..]);
    }
  }

  /** What every reachable engine satisfies: the stream-end sentinel was sent once if
      the stream is complete and never otherwise; `writeCount` counts the items
      written; and the items written are exactly the present items pulled so far, in
      order. */
  ghost predicate Consistent<T>(pulls: seq<Pull<Option<T>>>, e: Engine<T>)
  {
    && CountStreamEnds(e.effects) == (if e.writeComplete then 1 else 0)
    && e.writeCount == |Written(e.effects)|
    && Written(e.effects) == Items(pulls, 0, e.cursor)
  }

  lemma ResumePreserves<T>(pulls: seq<Pull<Option<T>>>, e: Engine<T>, checks: seq<bool>)
    requires Consistent(pulls, e) && !e.writeComplete
    ensures Consistent(pulls, Resume(pulls, e, checks))
  {
    var run := Pump(pulls, checks, e.cursor, e.writeCount);
    EffectsAppend(e.effects, run.effects);
    PumpStreamEnds(pulls, checks, e.cursor, e.writeCount);
    PumpWriteCount(pulls, checks, e.cursor, e.writeCount);
    PumpWritesPulledItems(pulls, checks, e.cursor, e.writeCount);
    ItemsSplit(pulls, 0, e.cursor, run.cursor);
  }

  /** Reports and closing write nothing and send no sentinel. */
  lemma AppendReportPreserves<T>(pulls: seq<Pull<Option<T>>>, e: Engine<T>, prefix: seq<Effect<T>>, calls: seq<Call>)
    requires Consistent(pulls, e)
    requires Written(prefix) == [] && CountStreamEnds(prefix) == 0
    ensures Consistent(pulls, e.(effects := e.effects + prefix + Notifications(calls)))
  {
    NotificationsWriteNothing<T>(calls);
    EffectsAppend(e.effects, prefix);
    EffectsAppend(e.effects + prefix, Notifications(calls));
  }

  lemma HandlePreserves<T>(pulls: seq<Pull<Option<T>>>, supplier: Callback, callback: Callback, e: Engine<T>, ev: Event)
    requires Consistent(pulls, e)
    ensures Consistent(pulls, Handle(pulls, supplier, callback, e, ev))
  {
    if !e.attached {
      return;
    }
    match ev
    case WritabilityChanged(writable, checks) =>
      if !e.writeComplete && writable {
        ResumePreserves(pulls, e, checks);
      }
    case StreamEndWritten(outcome) =>
      var signal := if outcome.Pass? then Complete else Signal.Error(outcome.error);
      AppendReportPreserves(pulls, e, [], Deliver(supplier, signal) + Deliver(callback, signal));
      assert e.effects + [] == e.effects;
    case ExceptionCaught(cause) =>
      assert Written<T>([Close]) == [] && CountStreamEnds<T>([Close]) == 0;
      AppendReportPreserves(pulls, e, [Close], Deliver(supplier, Signal.Error(cause)) + Deliver(callback, Signal.Error(cause)));
  }

  lemma {:induction false} HandleAllPreserves<T>(pulls: seq<Pull<Option<T>>>, supplier: Callback, callback: Callback, e: Engine<T>, events: seq<Event>)
    requires Consistent(pulls, e)
    ensures Consistent(pulls, HandleAll(pulls, supplier, callback, e, events))
    decreases |events|
  {
    if |events| > 0 {
      HandlePreserves(pulls, supplier, callback, e, events[0]);
      HandleAllPreserves(pulls, supplier, callback, Handle(pulls, supplier, callback, e, events[0]), events[1..]);
    }
  }

  /** Over any sequence of events after the handler is added: at most one stream-end
      sentinel is ever sent, exactly one once the stream is complete; `writeCount` is
      the number of items written; and every present item the supplier gave is written
      exactly once, in supplier order. */
  lemma EngineInvariant<T>(pulls: seq<Pull<Option<T>>>, supplier: Callback, callback: Callback, checks: seq<bool>, events: seq<Event>)
    ensures var e := HandleAll(pulls, supplier, callback, Added(pulls, checks), events);
      && CountStreamEnds(e.effects) <= 1
      && (CountStreamEnds(e.effects) == 1 <==> e.writeComplete)
      && e.writeCount == |Written(e.effects)|
      && Written(e.effects) == Items(pulls, 0, e.cursor)
  {
    var initial: Engine<T> := Engine(0, 0, false, [], true);
    assert Items(pulls, 0, 0) == [];
    ResumePreserves(pulls, initial, checks);
    HandleAllPreserves(pulls, supplier, callback, Added(pulls, checks), events);
  }

  /** A first run that throws leaves the engine detached for good: neither the
      supplier nor the callback ever hears of the failure, nor of anything after it,
      and the channel is not closed. A first run that does not throw leaves it in
      place. */
  lemma {:induction false} FailedAddDetaches<T>(pulls: seq<Pull<Option<T>>>, supplier: Callback, callback: Callback, checks: seq<bool>, events: seq<Event>)
    ensures Added(pulls, checks).attached <==> !Pump(pulls, checks, 0, 0).ending.Failed?
    ensures !Added(pulls, checks).attached
        ==> HandleAll(pulls, supplier, callback, Added(pulls, checks), events) == Added(pulls, checks)
    decreases |events|
  {
    if |events| > 0 && !Added(pulls, checks).attached {
      assert Handle(pulls, supplier, callback, Added(pulls, checks), events[0]) == Added(pulls, checks);
      FailedAddDetaches(pulls, supplier, callback, checks, events[1..]);
    }
  }

  /** Six failing supplier calls in a row at the start detach the engine with the
      skip-budget exception as its only effect. */
  lemma FailingSupplierDetaches<T>(pulls: seq<Pull<Option<T>>>, checks: seq<bool>)
    requires forall j :: 0 <= j <= MAX_SKIP_COUNT ==> PullAt(pulls, j).Threw?
    ensures !Added(pulls, checks).attached
    ensures Added(pulls, checks).effects
         == [Raise(IllegalState("unable to continue; skips expired", PullAt(pulls, MAX_SKIP_COUNT).cause))]
  {
    SkipBudget(pulls, 0);
  }

  /** Once the stream is complete, writability events do nothing. */
  lemma CompleteIgnoresWritability<T>(pulls: seq<Pull<Option<T>>>, supplier: Callback, callback: Callback, e: Engine<T>, writable: bool, checks: seq<bool>)
    requires e.writeComplete
    ensures Handle(pulls, supplier, callback, e, WritabilityChanged(writable, checks)) == e
  {
  }

  /** A successful sentinel write reaches the supplier's listeners and then the
      callback's with completion; a failed one reaches them with the write's cause; an
      exception closes the channel first. No flag stops a later exception from being
      reported after completion. (An engine detached by a failed first run hears of
      none of these.) */
  lemma ReportOrder<T>(pulls: seq<Pull<Option<T>>>, supplier: Callback, callback: Callback, e: Engine<T>, cause: Throwable)
    requires e.attached
    ensures var done := Handle(pulls, supplier, callback, e, StreamEndWritten(Pass));
      && done.effects == e.effects + Notifications(Deliver(supplier, Complete) + Deliver(callback, Complete))
      && Handle(pulls, supplier, callback, done, ExceptionCaught(cause)).effects
         == done.effects + [Close] + Notifications(Deliver(supplier, Signal.Error(cause)) + Deliver(callback, Signal.Error(cause)))
    ensures Handle(pulls, supplier, callback, e, StreamEndWritten(Fail(cause))).effects
         == e.effects + Notifications(Deliver(supplier, Signal.Error(cause)) + Deliver(callback, Signal.Error(cause)))
  {
    var completed := Report<T>(supplier, callback, Complete);
    var failed := Report<T>(supplier, callback, Signal.Error(cause));
    var done := Handle(pulls, supplier, callback, e, StreamEndWritten(Pass));
    assert done.effects == e.effects + completed;
    assert Handle(pulls, supplier, callback, done, ExceptionCaught(cause)).effects == done.effects + [Close] + failed;
    assert Handle(pulls, supplier, callback, e, StreamEndWritten(Fail(cause))).effects == e.effects + failed;
  }
}
