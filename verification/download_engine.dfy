/** `DatumChannelDownloadHandler`: the engine that hands every inbound payload of its
    class to a consumer, counting the items accepted, and that reports completion when
    the channel is unregistered and failure when an exception reaches it. It keeps no
    terminal flag: nothing stops a completion from following an error. */
module DownloadEngine {
  import opened Wrappers
  import opened JavaLang
  import opened Callbacks
  import opened Consumers
  import opened Messages

  /** What the engine does, in order. Notifications are submitted to the channel's
      executor and run after the handler method returns, in submission order. */
  datatype Effect =
    | Accepted(item: Value)     // `consumer.accept(item)` returned
    | Forwarded(msg: Message)   // a message of another type, passed to the next stage
    | Close                     // `context.close()`
    | Notify(call: Call)        // a listener reached by `onComplete`/`onError`

  /** The engine between events: `readCount` and everything done so far. */
  datatype Engine = Engine(readCount: nat, effects: seq<Effect>)

  const INITIAL: Engine := Engine(0, [])

  datatype Event =
    | Read(msg: Message)              // `channelRead`
    | Unregistered                    // `channelUnregistered`
    | ExceptionCaught(cause: Throwable)

  function Notifications(calls: seq<Call>): seq<Effect>
  {
    Submitted(calls, c => Notify(c))
  }

  /** The engine's `onComplete`/`onError`: the consumer's callback first, then the
      handler's callback, with the same signal. */
  function Report(consumer: Callback, callback: Callback, signal: Signal): seq<Effect>
  {
    Notifications(Deliver(consumer, signal) + Deliver(callback, signal))
  }

  /** `exceptionCaught`: close, then report the cause. */
  function Caught(consumer: Consumer<Value>, callback: Callback, e: Engine, cause: Throwable): Engine
  {
    e.(effects := e.effects + [Close] + Report(consumer.callback, callback, Signal.Error(cause)))
  }

  /** One event. A message of another type is passed on; a payload of the class goes to
      `accept`, and `readCount` grows only once `accept` has returned; an exception
      thrown by `accept` reaches this handler's `exceptionCaught`. Unregistration closes
      the channel and reports completion. */
  function Handle(payloadClass: JavaClass, consumer: Consumer<Value>, callback: Callback, e: Engine, ev: Event): Engine
  {
    match ev
    case Read(msg) =>
      if !IsInstance(payloadClass, msg) then e.(effects := e.effects + [Forwarded(msg)])
      else (
        match consumer.accept(msg.value)
        case Pass => Engine(e.readCount + 1, e.effects + [Accepted(msg.value)])
        case Fail(cause) => Caught(consumer, callback, e, cause))
    case Unregistered => e.(effects := e.effects + [Close] + Report(consumer.callback, callback, Complete))
    case ExceptionCaught(cause) => Caught(consumer, callback, e, cause)
  }

  function HandleAll(payloadClass: JavaClass, consumer: Consumer<Value>, callback: Callback, e: Engine, events: seq<Event>)
    : Engine
    decreases |events|
  {
    if |events| == 0 then e
    else HandleAll(payloadClass, consumer, callback, Handle(payloadClass, consumer, callback, e, events[0]), events[1..])
  }

  // ---------------------------------------------------------------------------
  // Views of the effects

  /** The items the consumer accepted, in order. */
  function AcceptedItems(effects: seq<Effect>): seq<Value>
    decreases |effects|
  {
    if |effects| == 0 then []
    else
      var last := effects[|effects| - 1];
      AcceptedItems(effects[..|effects| - 1]) + (if last.Accepted? then [last.item] else [])
  }

  /** The messages passed on, in order. */
  function ForwardedMessages(effects: seq<Effect>): seq<Message>
    decreases |effects|
  {
    if |effects| == 0 then []
    else
      var last := effects[|effects| - 1];
      ForwardedMessages(effects[..|effects| - 1]) + (if last.Forwarded? then [last.msg] else [])
  }

  lemma {:induction false} ViewsAppend(a: seq<Effect>, b: seq<Effect>)
    ensures AcceptedItems(a + b) == AcceptedItems(a) + AcceptedItems(b)
    ensures ForwardedMessages(a + b) == ForwardedMessages(a) + ForwardedMessages(b)
    decreases |b|
  {
    if |b| == 0 {
      assert a + b == a;
    } else {
      var init := b[..|b| - 1];
      assert (a + b)[..|a + b| - 1] == a + init;
      ViewsAppend(a, init);
    }
  }

  lemma {:induction false} NotificationsAreSilent(calls: seq<Call>)
    ensures AcceptedItems([Close] + Notifications(calls)) == []
    ensures ForwardedMessages([Close] + Notifications(calls)) == []
    decreases |calls|
  {
    var effects := [Close] + Notifications(calls);
    if |calls| > 0 {
      var init := calls[..|calls| - 1];
      assert effects[..|effects| - 1] == [Close] + Notifications(init);
      NotificationsAreSilent(init);
    } else {
      assert effects[..0] == [];
    }
  }

  /** Closing and notifying adds nothing to either view. */
  lemma AppendSilent(effects: seq<Effect>, calls: seq<Call>)
    ensures AcceptedItems(effects + [Close] + Notifications(calls)) == AcceptedItems(effects)
    ensures ForwardedMessages(effects + [Close] + Notifications(calls)) == ForwardedMessages(effects)
  {
    assert effects + [Close] + Notifications(calls) == effects + ([Close] + Notifications(calls));
    ViewsAppend(effects, [Close] + Notifications(calls));
    NotificationsAreSilent(calls);
  }

  lemma AppendOne(effects: seq<Effect>, x: Effect)
    ensures AcceptedItems(effects + [x]) == AcceptedItems(effects) + (if x.Accepted? then [x.item] else [])
    ensures ForwardedMessages(effects + [x]) == ForwardedMessages(effects) + (if x.Forwarded? then [x.msg] else [])
  {
    assert (effects + [x])[..|effects|] == effects;
  }

  // ---------------------------------------------------------------------------
  // The reference

  /** What the consumer accepts from a run of events: every payload of the class, in
      arrival order, whose `accept` returns. A failed `accept` or an error does not
      stop later reads from reaching it. */
  function Expected(payloadClass: JavaClass, consumer: Consumer<Value>, events: seq<Event>): seq<Value>
    decreases |events|
  {
    if |events| == 0 then []
    else
      var ev := events[0];
      var head := if ev.Read? && IsInstance(payloadClass, ev.msg) && consumer.accept(ev.msg.value).Pass?
        then [ev.msg.value] else [];
      head + Expected(payloadClass, consumer, events[1..])
  }

  /** The messages of other types, in arrival order. */
  function Passed(payloadClass: JavaClass, events: seq<Event>): seq<Message>
    decreases |events|
  {
    if |events| == 0 then []
    else
      var ev := events[0];
      (if ev.Read? && !IsInstance(payloadClass, ev.msg) then [ev.msg] else []) + Passed(payloadClass, events[1..])
  }

  /** The references split off their first event. */
  lemma ReferenceCons(payloadClass: JavaClass, consumer: Consumer<Value>, events: seq<Event>)
    requires |events| > 0
    ensures Expected(payloadClass, consumer, events)
         == Expected(payloadClass, consumer, [events[0]]) + Expected(payloadClass, consumer, events[1..])
    ensures Passed(payloadClass, events) == Passed(payloadClass, [events[0]]) + Passed(payloadClass, events[1..])
  {
    assert [events[0]][1..] == [];
  }

  lemma HandleViews(payloadClass: JavaClass, consumer: Consumer<Value>, callback: Callback, e: Engine, ev: Event)
    ensures var after := Handle(payloadClass, consumer, callback, e, ev);
      && AcceptedItems(after.effects) == AcceptedItems(e.effects) + Expected(payloadClass, consumer, [ev])
      && ForwardedMessages(after.effects) == ForwardedMessages(e.effects) + Passed(payloadClass, [ev])
      && after.readCount == e.readCount + |Expected(payloadClass, consumer, [ev])|
  {
    assert [ev][1..] == [];
    if ev.Read? {
      ReadViews(payloadClass, consumer, callback, e, ev.msg);
    } else {
      var signal := if ev.Unregistered? then Complete else Signal.Error(ev.cause);
      assert Handle(payloadClass, consumer, callback, e, ev).effects
          == e.effects + [Close] + Notifications(Deliver(consumer.callback, signal) + Deliver(callback, signal));
      AppendSilent(e.effects, Deliver(consumer.callback, signal) + Deliver(callback, signal));
    }
  }

  lemma ReadViews(payloadClass: JavaClass, consumer: Consumer<Value>, callback: Callback, e: Engine, msg: Message)
    ensures var after := Handle(payloadClass, consumer, callback, e, Read(msg));
      var taken := IsInstance(payloadClass, msg) && consumer.accept(msg.value).Pass?;
      && AcceptedItems(after.effects) == AcceptedItems(e.effects) + (if taken then [msg.value] else [])
      && ForwardedMessages(after.effects) == ForwardedMessages(e.effects) + (if IsInstance(payloadClass, msg) then [] else [msg])
      && after.readCount == e.readCount + (if taken then 1 else 0)
  {
    if !IsInstance(payloadClass, msg) {
      AppendOne(e.effects, Forwarded(msg));
    } else if consumer.accept(msg.value).Pass? {
      AppendOne(e.effects, Accepted(msg.value));
    } else {
      var signal := Signal.Error(consumer.accept(msg.value).error);
      AppendSilent(e.effects, Deliver(consumer.callback, signal) + Deliver(callback, signal));
    }
  }

  /** Over any run of events from a fresh engine: the consumer accepts exactly the
      payloads of the class whose `accept` returns, in arrival order; `readCount` is
      their number; and every other message is passed on, in arrival order. */
  lemma {:induction false} DownloadInvariant(payloadClass: JavaClass, consumer: Consumer<Value>, callback: Callback,
                                             e: Engine, events: seq<Event>)
    ensures var after := HandleAll(payloadClass, consumer, callback, e, events);
      && AcceptedItems(after.effects) == AcceptedItems(e.effects) + Expected(payloadClass, consumer, events)
      && ForwardedMessages(after.effects) == ForwardedMessages(e.effects) + Passed(payloadClass, events)
      && after.readCount == e.readCount + |Expected(payloadClass, consumer, events)|
    decreases |events|
  {
    if |events| > 0 {
      var next := Handle(payloadClass, consumer, callback, e, events[0]);
      HandleViews(payloadClass, consumer, callback, e, events[0]);
      DownloadInvariant(payloadClass, consumer, callback, next, events[1..]);
      ReferenceCons(payloadClass, consumer, events);
      assert HandleAll(payloadClass, consumer, callback, e, events)
          == HandleAll(payloadClass, consumer, callback, next, events[1..]);
    }
  }

  /** Unregistration closes and reports completion to the consumer's listeners, then
      the callback's; an exception closes and reports the same cause in the same
      order. */
  lemma TerminalReports(payloadClass: JavaClass, consumer: Consumer<Value>, callback: Callback, e: Engine, cause: Throwable)
    ensures Handle(payloadClass, consumer, callback, e, Unregistered).effects
         == e.effects + [Close] + Notifications(Deliver(consumer.callback, Complete) + Deliver(callback, Complete))
    ensures Handle(payloadClass, consumer, callback, e, ExceptionCaught(cause)).effects
         == e.effects + [Close] + Notifications(Deliver(consumer.callback, Signal.Error(cause)) + Deliver(callback, Signal.Error(cause)))
    ensures Handle(payloadClass, consumer, callback, e, Unregistered).readCount == e.readCount
  {
  }

  /** No terminal flag: after an exception, an unregistration still reports
      completion, so the listeners hear both `onError` and `onComplete`. */
  lemma ErrorThenCompletion(payloadClass: JavaClass, consumer: Consumer<Value>, callback: Callback, cause: Throwable)
    ensures HandleAll(payloadClass, consumer, callback, INITIAL, [ExceptionCaught(cause), Unregistered]).effects
         == [Close] + Report(consumer.callback, callback, Signal.Error(cause))
            + [Close] + Report(consumer.callback, callback, Complete)
  {
    var events := [ExceptionCaught(cause), Unregistered];
    var errored := Handle(payloadClass, consumer, callback, INITIAL, ExceptionCaught(cause));
    assert errored.effects == [Close] + Report(consumer.callback, callback, Signal.Error(cause));
    assert events[1..] == [Unregistered] && events[1..][1..] == [];
    assert HandleAll(payloadClass, consumer, callback, INITIAL, events)
        == HandleAll(payloadClass, consumer, callback, errored, [Unregistered]);
  }
}
