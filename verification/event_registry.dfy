/**
  `EventHandler<Payload>`: a registry of callbacks keyed by subscription id.
  The id counter is a function-local static, so it is shared by every handler
  with the same payload type; the model passes it in and hands it back.
*/
module EventRegistry {

  datatype Registry<C> = Registry(callbacks: map<int, C>)

  /** Every registered id was handed out before the counter reached `nextId`. */
  predicate IdsBelow<C>(reg: Registry<C>, nextId: int) {
    forall id :: id in reg.callbacks ==> id < nextId
  }

  datatype Subscribed<C> = Subscribed(reg: Registry<C>, id: int, nextId: int)

  /** `Subscribe(callback)`: registers under the current counter value, returns it, and advances the counter. */
  function Subscribe<C>(reg: Registry<C>, nextId: int, callback: C): (r: Subscribed<C>)
    ensures r.id == nextId && r.nextId > r.id
    ensures r.reg.callbacks.Keys == reg.callbacks.Keys + {r.id}
    ensures r.reg.callbacks[r.id] == callback
    ensures forall id :: id in reg.callbacks && id != r.id ==> r.reg.callbacks[id] == reg.callbacks[id]
  {
    Subscribed(Registry(reg.callbacks[nextId := callback]), nextId, nextId + 1)
  }

  /** `Unsubscribe(id)` does nothing: the callback stays registered. */
  function Unsubscribe<C>(reg: Registry<C>, id: int): (r: Registry<C>)
    ensures r.callbacks.Keys == reg.callbacks.Keys
    ensures forall k :: k in reg.callbacks ==> r.callbacks[k] == reg.callbacks[k]
  {
    reg
  }

  /**
    Under the counter invariant a subscription never overwrites an existing
    callback, grows the registry by one, and keeps the invariant.
  */
  lemma SubscribeFresh<C>(reg: Registry<C>, nextId: int, callback: C)
    requires IdsBelow(reg, nextId)
    ensures var r := Subscribe(reg, nextId, callback);
      && r.id !in reg.callbacks
      && |r.reg.callbacks| == |reg.callbacks| + 1
      && IdsBelow(r.reg, r.nextId)
  {
    var r := Subscribe(reg, nextId, callback);
    assert r.id !in reg.callbacks;
    assert r.reg.callbacks.Keys == reg.callbacks.Keys + {r.id};
  }

  datatype SubscribedAll<C> = SubscribedAll(reg: Registry<C>, ids: seq<int>, nextId: int)

  /** Subscribing several callbacks in order. */
  function SubscribeAll<C>(reg: Registry<C>, nextId: int, callbacks: seq<C>): SubscribedAll<C>
    decreases |callbacks|
  {
    if |callbacks| == 0 then SubscribedAll(reg, [], nextId)
    else
      var s := Subscribe(reg, nextId, callbacks[0]);
      var rest := SubscribeAll(s.reg, s.nextId, callbacks[1..]);
      SubscribedAll(rest.reg, [s.id] + rest.ids, rest.nextId)
  }

  /**
    Repeated subscriptions hand out consecutive, strictly increasing ids, each
    naming the callback it registered, and never collide with an earlier id.
  */
  lemma {:induction false} SubscribeAllIds<C>(reg: Registry<C>, nextId: int, callbacks: seq<C>)
    requires IdsBelow(reg, nextId)
    ensures var r := SubscribeAll(reg, nextId, callbacks);
      && |r.ids| == |callbacks|
      && r.nextId == nextId + |callbacks|
      && (forall i :: 0 <= i < |r.ids| ==> r.ids[i] == nextId + i)
      && (forall i :: 0 <= i < |r.ids| ==> r.ids[i] !in reg.callbacks)
      && (forall i :: 0 <= i < |r.ids| ==> r.ids[i] in r.reg.callbacks && r.reg.callbacks[r.ids[i]] == callbacks[i])
      && (forall k :: k in reg.callbacks ==> k in r.reg.callbacks && r.reg.callbacks[k] == reg.callbacks[k])
      && |r.reg.callbacks| == |reg.callbacks| + |callbacks|
      && IdsBelow(r.reg, r.nextId)
    decreases |callbacks|
  {
    if |callbacks| > 0 {
      var s := Subscribe(reg, nextId, callbacks[0]);
      SubscribeFresh(reg, nextId, callbacks[0]);
      SubscribeAllIds(s.reg, s.nextId, callbacks[1..]);
      var rest := SubscribeAll(s.reg, s.nextId, callbacks[1..]);
      var r := SubscribeAll(reg, nextId, callbacks);
      assert r.ids == [s.id] + rest.ids;
      forall i | 0 <= i < |r.ids|
        ensures r.ids[i] in r.reg.callbacks && r.reg.callbacks[r.ids[i]] == callbacks[i]
      {
        if i == 0 {
          assert s.id in s.reg.callbacks;
        } else {
          assert r.ids[i] == rest.ids[i - 1];
        }
      }
    }
  }

  /** One invocation of a callback. */
  datatype Invocation<P> = Invocation(id: int, payload: P)

  /** `order` lists every registered id exactly once: an iteration order of the hash map. */
  predicate IsIterationOrder<C>(reg: Registry<C>, order: seq<int>) {
    && (forall i, j :: 0 <= i < j < |order| ==> order[i] != order[j])
    && (forall i :: 0 <= i < |order| ==> order[i] in reg.callbacks)
    && (forall id :: id in reg.callbacks ==> id in order)
  }

  /**
    `OnEvent(data)`: every registered callback is invoked exactly once with the
    same payload. The map is unordered; the order it happens to iterate in is
    the parameter `order`.
  */
  method OnEvent<C, P>(reg: Registry<C>, order: seq<int>, data: P) returns (calls: seq<Invocation<P>>)
    requires IsIterationOrder(reg, order)
    ensures |calls| == |reg.callbacks|
    ensures forall i :: 0 <= i < |calls| ==> calls[i].id in reg.callbacks && calls[i].payload == data
    ensures forall i, j :: 0 <= i < j < |calls| ==> calls[i].id != calls[j].id
    ensures forall id :: id in reg.callbacks ==> exists i :: 0 <= i < |calls| && calls[i].id == id
  {
    calls := [];
    var n := 0;
    while n < |order|
      invariant 0 <= n <= |order|
      invariant |calls| == n
      invariant forall i :: 0 <= i < n ==> calls[i] == Invocation(order[i], data)
    {
      calls := calls + [Invocation(order[n], data)];
      n := n + 1;
    }
    assert |order| == |reg.callbacks| by {
      var ids := set i | 0 <= i < |order| :: order[i];
      forall id | id in reg.callbacks
        ensures id in ids
      {
        var i :| 0 <= i < |order| && order[i] == id;
      }
      assert ids == reg.callbacks.Keys;
      DistinctCard(order);
    }
    forall id | id in reg.callbacks
      ensures exists i :: 0 <= i < |calls| && calls[i].id == id
    {
      var i :| 0 <= i < |order| && order[i] == id;
      assert calls[i].id == id;
    }
  }

  /** A duplicate-free sequence has as many elements as the set of its elements. */
  lemma {:induction false} DistinctCard(xs: seq<int>)
    requires forall i, j :: 0 <= i < j < |xs| ==> xs[i] != xs[j]
    ensures |set i | 0 <= i < |xs| :: xs[i]| == |xs|
    decreases |xs|
  {
    if |xs| > 0 {
      var front := xs[..|xs| - 1];
      DistinctCard(front);
      var s := set i | 0 <= i < |xs| :: xs[i];
      var s' := set i | 0 <= i < |front| :: front[i];
      assert s == s' + {xs[|xs| - 1]};
      assert xs[|xs| - 1] !in s';
    }
  }
}
