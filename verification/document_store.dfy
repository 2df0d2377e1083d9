/**
 * The observable document store: it holds the current document and a set of
 * listeners, and every change of document is delivered to each subscribed
 * listener, in the order in which they subscribed. A listener is a function
 * value in the editor; here it is known by an identifier, and calling it is
 * recorded as a notification in the store's outbox.
 */
module Store {
  import opened Types
  import opened Seqs

  type ListenerId = nat

  /** One call `listener(document)`. */
  datatype Notification = Notification(listener: ListenerId, document: Document)

  predicate Distinct(ids: seq<ListenerId>)
  {
    forall i, j :: 0 <= i < j < |ids| ==> ids[i] != ids[j]
  }

  /** The calls one emission makes: each listener in order, each given `document`. */
  function Broadcast(listeners: seq<ListenerId>, document: Document): (calls: seq<Notification>)
    ensures |calls| == |listeners|
    ensures forall i :: 0 <= i < |calls| ==> calls[i] == Notification(listeners[i], document)
  {
    seq(|listeners|, i requires 0 <= i < |listeners| => Notification(listeners[i], document))
  }

  /** A listener hears an emission exactly when it is subscribed, and only once. */
  lemma BroadcastReachesSubscribers(listeners: seq<ListenerId>, document: Document, listener: ListenerId)
    requires Distinct(listeners)
    ensures Notification(listener, document) in Broadcast(listeners, document) <==> listener in listeners
    ensures forall i, j :: 0 <= i < j < |listeners| ==>
              Broadcast(listeners, document)[i].listener != Broadcast(listeners, document)[j].listener
  {
    var calls := Broadcast(listeners, document);
    if listener in listeners {
      var i :| 0 <= i < |listeners| && listeners[i] == listener;
      assert calls[i] == Notification(listener, document);
    }
  }

  /** The listeners left once `listener` has unsubscribed, in their order. */
  function Without(listeners: seq<ListenerId>, listener: ListenerId): seq<ListenerId>
  {
    Filter(listeners, (l: ListenerId) => l != listener)
  }

  /** Unsubscribing removes exactly that listener and keeps the rest distinct. */
  lemma WithoutRemovesOnlyListener(listeners: seq<ListenerId>, listener: ListenerId)
    requires Distinct(listeners)
    ensures forall l :: l in Without(listeners, listener) <==> l in listeners && l != listener
    ensures Distinct(Without(listeners, listener))
  {
    var other := (l: ListenerId) => l != listener;
    FilterMembers(listeners, other);
    FilterKeepsDistinct(listeners, other, (l: ListenerId) => l);
  }

  /** An unsubscribed listener hears nothing more. */
  lemma UnsubscribedHearsNothing(listeners: seq<ListenerId>, listener: ListenerId, document: Document)
    requires Distinct(listeners)
    ensures forall n :: n in Broadcast(Without(listeners, listener), document) ==> n.listener != listener
  {
    WithoutRemovesOnlyListener(listeners, listener);
    var rest := Without(listeners, listener);
    forall n | n in Broadcast(rest, document) ensures n.listener != listener {
      var i :| 0 <= i < |rest| && Broadcast(rest, document)[i] == n;
      assert rest[i] in rest;
    }
  }

  class DocumentStore {
    var current: Document
    /** The subscribed listeners, in the order in which they were added to the set. */
    var listeners: seq<ListenerId>
    /** Every listener call made so far, oldest first. */
    var notified: seq<Notification>

    ghost predicate Valid()
      reads this
    {
      Distinct(listeners)
    }

    constructor(initial: Document)
      ensures Valid()
      ensures current == initial && listeners == [] && notified == []
    {
      current := initial;
      listeners := [];
      notified := [];
    }

    method GetDocument() returns (document: Document)
      ensures document == current
    {
      document := current;
    }

    /** Replaces the document, then tells every listener. */
    method SetDocument(next: Document)
      requires Valid()
      modifies this
      ensures Valid()
      ensures current == next && listeners == old(listeners)
      ensures notified == old(notified) + Broadcast(listeners, next)
    {
      current := next;
      Emit();
    }

    /** Replaces the document by `updater` applied to it, then tells every listener. */
    method Update(updater: Document -> Document)
      requires Valid()
      modifies this
      ensures Valid()
      ensures current == updater(old(current)) && listeners == old(listeners)
      ensures notified == old(notified) + Broadcast(listeners, current)
    {
      current := updater(current);
      Emit();
    }

    /**
     * Adds the listener to the set (a listener already there keeps its place)
     * and calls it once at once with the current document. The returned
     * unsubscribe function is `Unsubscribe(listener)`.
     */
    method Subscribe(listener: ListenerId)
      requires Valid()
      modifies this
      ensures Valid()
      ensures listeners == if listener in old(listeners) then old(listeners) else old(listeners) + [listener]
      ensures current == old(current)
      ensures notified == old(notified) + [Notification(listener, current)]
    {
      if listener !in listeners {
        listeners := listeners + [listener];
      }
      notified := notified + [Notification(listener, current)];
    }

    /** The unsubscribe function `subscribe` returns: deletes the listener from the set. */
    method Unsubscribe(listener: ListenerId)
      requires Valid()
      modifies this
      ensures Valid()
      ensures listeners == Without(old(listeners), listener)
      ensures listener !in listeners
      ensures current == old(current) && notified == old(notified)
    {
      WithoutRemovesOnlyListener(listeners, listener);
      listeners := Without(listeners, listener);
    }

    /** Calls each listener, in order, with the current document. */
    method Emit()
      modifies this
      ensures current == old(current) && listeners == old(listeners)
      ensures notified == old(notified) + Broadcast(listeners, current)
    {
      for i := 0 to |listeners|
        invariant current == old(current) && listeners == old(listeners)
        invariant notified == old(notified) + Broadcast(listeners[..i], current)
      {
        assert Broadcast(listeners[..i + 1], current) == Broadcast(listeners[..i], current) + [Notification(listeners[i], current)];
        notified := notified + [Notification(listeners[i], current)];
      }
      assert listeners[..|listeners|] == listeners;
    }
  }

  /** `createDocumentStore`: a store holding `document`, with no listeners. */
  method CreateDocumentStore(document: Document) returns (store: DocumentStore)
    ensures fresh(store) && store.Valid()
    ensures store.current == document && store.listeners == [] && store.notified == []
  {
    store := new DocumentStore(document);
  }

  /**
   * A listener that subscribes hears the current document at once and each
   * later document; once it has unsubscribed it hears nothing more.
   */
  method SubscriptionLifecycle(first: Document, second: Document, third: Document, listener: ListenerId)
    returns (heard: seq<Notification>)
    ensures heard == [Notification(listener, first), Notification(listener, second)]
  {
    var store := CreateDocumentStore(first);
    store.Subscribe(listener);
    store.SetDocument(second);
    store.Unsubscribe(listener);
    store.SetDocument(third);
    assert Without([listener], listener) == [] by {
      WithoutRemovesOnlyListener([listener], listener);
    }
    heard := store.notified;
  }
}
