/** The process-wide error channel: an ordered list of error entries and an
    ordered list of listeners, each of which is handed the current list after
    every change to it. Listeners are callbacks; here each is named by a
    `ListenerRef` standing for its reference identity, and what a listener is
    handed is recorded, in call order, in `delivered`. */
module ErrorChannel {
  import opened Wrappers
  import opened JsArray

  /** The identity of a listener callback (JavaScript compares them by
      reference). */
  type ListenerRef = nat

  /** `ErrorState`. */
  datatype ErrorState = ErrorState(message: string, field: Option<string>, timestamp: int, id: string)

  /** One call `listener(snapshot)`. */
  datatype Delivery = Delivery(listener: ListenerRef, snapshot: seq<ErrorState>)

  /** The channel's whole observable state. */
  datatype ChannelState = ChannelState(errors: seq<ErrorState>, listeners: seq<ListenerRef>, delivered: seq<Delivery>)

  /** The filter `removeError` applies: keeps entries with another id. */
  function IdIsNot(id: string): ErrorState -> bool {
    (e: ErrorState) => e.id != id
  }

  /** The filter the unsubscribe function applies: keeps other listeners. */
  function IsNot(listener: ListenerRef): ListenerRef -> bool {
    (l: ListenerRef) => l != listener
  }

  /** One call per listener, in registration order, each with the same snapshot. */
  function Broadcast(listeners: seq<ListenerRef>, snapshot: seq<ErrorState>): (ds: seq<Delivery>)
    ensures |ds| == |listeners|
    ensures forall i | 0 <= i < |ds| :: ds[i] == Delivery(listeners[i], snapshot)
  {
    seq(|listeners|, i requires 0 <= i < |listeners| => Delivery(listeners[i], snapshot))
  }

  /** `notifyListeners()`. */
  function Notified(s: ChannelState): ChannelState {
    s.(delivered := s.delivered + Broadcast(s.listeners, s.errors))
  }

  /** `addError`: push, then notify. */
  function AfterAdd(s: ChannelState, e: ErrorState): ChannelState {
    Notified(s.(errors := s.errors + [e]))
  }

  /** `removeError(id)`: filter, then notify. */
  function AfterRemove(s: ChannelState, id: string): ChannelState {
    Notified(s.(errors := Filter(s.errors, IdIsNot(id))))
  }

  /** `clearErrors()`: empty, then notify. */
  function AfterClear(s: ChannelState): ChannelState {
    Notified(s.(errors := []))
  }

  /** `subscribe(listener)`: push; nobody is notified. */
  function AfterSubscribe(s: ChannelState, listener: ListenerRef): ChannelState {
    s.(listeners := s.listeners + [listener])
  }

  /** The function `subscribe` returns: drop that listener, notify nobody. */
  function AfterUnsubscribe(s: ChannelState, listener: ListenerRef): ChannelState {
    s.(listeners := Filter(s.listeners, IsNot(listener)))
  }

  /** After any change to the list, every listener has been handed the new list,
      in registration order, and earlier calls are kept. */
  lemma NotifiedHandsOutSnapshot(s: ChannelState)
    ensures var n := Notified(s);
      && n.errors == s.errors && n.listeners == s.listeners
      && |n.delivered| == |s.delivered| + |s.listeners|
      && n.delivered[..|s.delivered|] == s.delivered
      && forall i | 0 <= i < |s.listeners| ::
           n.delivered[|s.delivered| + i] == Delivery(s.listeners[i], s.errors)
  {
  }

  /** `addError` appends exactly its entry and keeps the earlier ones in
      order; `clearErrors` empties the list; `subscribe` appends its listener.
      None of them changes the other list. */
  lemma ListChanges(s: ChannelState, e: ErrorState, listener: ListenerRef)
    ensures AfterAdd(s, e).errors == s.errors + [e] && AfterAdd(s, e).listeners == s.listeners
    ensures AfterClear(s).errors == [] && AfterClear(s).listeners == s.listeners
    ensures AfterSubscribe(s, listener).listeners == s.listeners + [listener]
    ensures AfterSubscribe(s, listener).errors == s.errors
  {
  }

  /** `removeError` keeps exactly the entries with another id, in order. */
  lemma RemoveKeepsOthers(s: ChannelState, id: string)
    ensures var r := AfterRemove(s, id).errors;
      && (forall i | 0 <= i < |r| :: r[i] in s.errors && r[i].id != id)
      && (forall i | 0 <= i < |s.errors| :: s.errors[i].id != id ==> s.errors[i] in r)
      && AfterRemove(s, id).listeners == s.listeners
  {
    FilterMembers(s.errors, IdIsNot(id));
  }

  /** Removing the one entry with its id cuts it out and keeps every other
      entry in its order. */
  lemma RemoveKeepsOrder(before: seq<ErrorState>, e: ErrorState, after: seq<ErrorState>,
                         listeners: seq<ListenerRef>, delivered: seq<Delivery>)
    requires forall i | 0 <= i < |before| :: before[i].id != e.id
    requires forall i | 0 <= i < |after| :: after[i].id != e.id
    ensures AfterRemove(ChannelState(before + [e] + after, listeners, delivered), e.id).errors == before + after
  {
    FilterRemovesOne(before, e, after, IdIsNot(e.id));
  }

  /** Removing an id nobody has leaves the list as it was. */
  lemma RemoveAbsentIsNoop(s: ChannelState, id: string)
    requires forall i | 0 <= i < |s.errors| :: s.errors[i].id != id
    ensures AfterRemove(s, id).errors == s.errors
  {
    FilterKeepsAll(s.errors, IdIsNot(id));
  }

  /** The expiry of a freshly added entry undoes its addition, whatever the
      list held before. */
  lemma ExpiryUndoesAdd(s: ChannelState, e: ErrorState)
    requires forall i | 0 <= i < |s.errors| :: s.errors[i].id != e.id
    ensures AfterRemove(AfterAdd(s, e), e.id).errors == s.errors
  {
    FilterAppend(s.errors, [e], IdIsNot(e.id));
    FilterKeepsAll(s.errors, IdIsNot(e.id));
  }

  /** The unsubscribe function undoes its `subscribe` when that listener was
      not yet registered. */
  lemma UnsubscribeUndoesSubscribe(s: ChannelState, listener: ListenerRef)
    requires listener !in s.listeners
    ensures AfterUnsubscribe(AfterSubscribe(s, listener), listener) == s
  {
    FilterAppend(s.listeners, [listener], IsNot(listener));
    FilterKeepsAll(s.listeners, IsNot(listener));
  }

  /** Unsubscribing a listener registered once cuts it out and keeps every
      other listener in its order, so later notifications reach them in the
      same order. */
  lemma UnsubscribeKeepsOrder(s: ChannelState, before: seq<ListenerRef>, listener: ListenerRef, after: seq<ListenerRef>)
    requires s.listeners == before + [listener] + after
    requires listener !in before && listener !in after
    ensures AfterUnsubscribe(s, listener).listeners == before + after
  {
    FilterRemovesOne(before, listener, after, IsNot(listener));
  }

  /** Unsubscribing keeps every other listener and drops that one. */
  lemma UnsubscribeKeepsOthers(s: ChannelState, listener: ListenerRef)
    ensures var ls := AfterUnsubscribe(s, listener).listeners;
      && listener !in ls
      && forall i | 0 <= i < |s.listeners| :: s.listeners[i] != listener ==> s.listeners[i] in ls
  {
    FilterMembers(s.listeners, IsNot(listener));
  }

  class ErrorHandler {
    var errors: seq<ErrorState>
    var listeners: seq<ListenerRef>
    var delivered: seq<Delivery>

    function State(): ChannelState
      reads this
    {
      ChannelState(errors, listeners, delivered)
    }

    /** The private constructor behind `getInstance`. */
    constructor ()
      ensures State() == ChannelState([], [], [])
    {
      errors, listeners, delivered := [], [], [];
    }

    /** `addError(message, field)`, with `now` for `new Date()` and `id` for
        `crypto.randomUUID()`. */
    method AddError(message: string, field: Option<string>, now: int, id: string)
      modifies this
      ensures State() == AfterAdd(old(State()), ErrorState(message, field, now, id))
    {
      errors := errors + [ErrorState(message, field, now, id)];
      NotifyListeners();
    }

    method RemoveError(id: string)
      modifies this
      ensures State() == AfterRemove(old(State()), id)
    {
      errors := Filter(errors, IdIsNot(id));
      NotifyListeners();
    }

    /** The 5-second timer that `addError` starts, when it fires. */
    method Expire(id: string)
      modifies this
      ensures State() == AfterRemove(old(State()), id)
    {
      RemoveError(id);
    }

    method GetErrors() returns (snapshot: seq<ErrorState>)
      ensures snapshot == errors
    {
      snapshot := errors;
    }

    method ClearErrors()
      modifies this
      ensures State() == AfterClear(old(State()))
    {
      errors := [];
      NotifyListeners();
    }

    method Subscribe(listener: ListenerRef)
      modifies this
      ensures State() == AfterSubscribe(old(State()), listener)
    {
      listeners := listeners + [listener];
    }

    /** The function that `subscribe(listener)` returns. */
    method Unsubscribe(listener: ListenerRef)
      modifies this
      ensures State() == AfterUnsubscribe(old(State()), listener)
    {
      listeners := Filter(listeners, IsNot(listener));
    }

    /** `notifyListeners()`: calls every listener, in registration order,
        with a copy of the current list. */
    method NotifyListeners()
      modifies this
      ensures State() == Notified(old(State()))
    {
      var i := 0;
      while i < |listeners|
        invariant 0 <= i <= |listeners|
        invariant errors == old(errors) && listeners == old(listeners)
        invariant delivered == old(delivered) + Broadcast(listeners[..i], errors)
      {
        var snapshot := GetErrors();
        delivered := delivered + [Delivery(listeners[i], snapshot)];
        i := i + 1;
      }
      assert listeners[..i] == listeners;
    }
  }

  /** The static `ErrorHandler.instance` slot. */
  class ErrorHandlerSlot {
    var instance: ErrorHandler?

    constructor ()
      ensures instance == null
    {
      instance := null;
    }

    /** `ErrorHandler.getInstance()`: builds the handler on first use and hands
        out that same handler ever after. */
    method GetInstance() returns (h: ErrorHandler)
      modifies this
      ensures instance == h
      ensures old(instance) != null ==> h == old(instance)
      ensures old(instance) == null ==> fresh(h) && h.State() == ChannelState([], [], [])
    {
      if instance == null {
        instance := new ErrorHandler();
      }
      h := instance;
    }
  }
}
