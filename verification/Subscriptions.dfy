/** The message handlers of gps/core/SystemStatusOsObserver.cpp. */
module Subscriptions {
  import opened Sequences
  import opened Wrappers
  import opened SetMaps
  import opened SubscriptionModel

  /** A data item as received; `accepted` is the answer of SystemStatus::eventDataItemNotify. */
  datatype DataItem = DataItem(id: Item, value: int, accepted: bool)

  type Cache = map<Item, int>

  /** One call of a client's notify. */
  datatype Delivery = Delivery(client: Client, items: Cache)

  // ----- Notification on values ----------------------------------------------------------------

  function Cached(cache: Cache, items: set<Item>): Cache {
    map i | i in items && i in cache :: cache[i]
  }

  lemma CachedKeys(cache: Cache, items: set<Item>)
    ensures Cached(cache, items).Keys == items * cache.Keys
    ensures Cached(cache, items) == map[] <==> items * cache.Keys == {}
  {
    var found := Cached(cache, items);
    assert found.Keys == {} <==> found == map[];
  }

  /** The call that brings `c` what is cached of `items`, if there is any. */
  function Response(cache: Cache, items: set<Item>, c: Client): seq<Delivery> {
    var found := Cached(cache, items);
    if found == map[] then [] else [Delivery(c, found)]
  }

  /** `sent` is one call to `c`, with what is cached of the items and nothing else; none if nothing is. */
  ghost predicate Brings(sent: seq<Delivery>, cache: Cache, items: set<Item>, c: Client) {
    if items * cache.Keys == {} then sent == []
    else
      && |sent| == 1 && sent[0].client == c && sent[0].items.Keys == items * cache.Keys
      && forall i :: i in sent[0].items ==> sent[0].items[i] == cache[i]
  }

  lemma SameCache(a: Cache, b: Cache)
    requires a.Keys == b.Keys && forall i :: i in a ==> a[i] == b[i]
    ensures a == b
  {
    forall i
      ensures i in a <==> i in b
      ensures i in a ==> a[i] == b[i]
    {
      assert i in a.Keys <==> i in b.Keys;
    }
  }

  lemma BringsResponse(sent: seq<Delivery>, cache: Cache, items: set<Item>, c: Client)
    ensures Brings(sent, cache, items, c) <==> sent == Response(cache, items, c)
  {
    CachedKeys(cache, items);
    if Brings(sent, cache, items, c) && sent != [] {
      var got, found := sent[0].items, Cached(cache, items);
      SameCache(got, found);
      assert sent == [sent[0]];
    }
  }

  lemma Appended(before: seq<Delivery>, after: seq<Delivery>, cache: Cache, items: set<Item>, c: Client)
    requires before <= after && Brings(after[|before|..], cache, items, c)
    ensures after == before + Response(cache, items, c)
  {
    BringsResponse(after[|before|..], cache, items, c);
  }

  function Recorded(cache: Cache, d: DataItem): Cache {
    if d.accepted then cache[d.id := d.value] else cache
  }

  function AllRecorded(cache: Cache, ds: seq<DataItem>): Cache {
    if ds == [] then cache else Recorded(AllRecorded(cache, ds[..|ds| - 1]), ds[|ds| - 1])
  }

  /** The items whose cached contents change at some point while `ds` are recorded in turn. */
  function ChangedIds(cache: Cache, ds: seq<DataItem>): set<Item> {
    if ds == [] then {}
    else
      var before := ds[..|ds| - 1];
      ChangedIds(cache, before) + if AllRecorded(cache, ds) != AllRecorded(cache, before) then {ds[|ds| - 1].id} else {}
  }

  /** The changed items that client `c` has subscribed to, with their cached values. */
  function Due(x: Index, cache: Cache, changed: set<Item>, c: Client): Cache {
    Cached(cache, Values(x.byClient, c) * changed)
  }

  /** The clients the item side of the index names for the changed items. */
  function Reached(x: Index, changed: set<Item>): set<Client> {
    set i, c | i in changed && i in x.byItem && c in x.byItem[i] :: c
  }

  /** `out` calls each of `clients` that is due something, once, with exactly that, and nobody else. */
  ghost predicate Notifies(out: seq<Delivery>, x: Index, cache: Cache, changed: set<Item>, clients: set<Client>) {
    && (forall a, b :: 0 <= a < b < |out| ==> out[a].client != out[b].client)
    && forall d :: d in out <==> d.client in clients && d.items == Due(x, cache, changed, d.client) != map[]
  }

  lemma {:induction false} ChangedAreCached(cache: Cache, ds: seq<DataItem>)
    ensures cache.Keys <= AllRecorded(cache, ds).Keys && ChangedIds(cache, ds) <= AllRecorded(cache, ds).Keys
  {
    if ds != [] {
      ChangedAreCached(cache, ds[..|ds| - 1]);
    }
  }

  /** The item at `k` is accepted, and brings a value for `i` that those before it have not left in the cache. */
  ghost predicate IsNews(cache: Cache, ds: seq<DataItem>, k: int, i: Item) {
    && 0 <= k < |ds| && ds[k].id == i && ds[k].accepted
    && var before := AllRecorded(cache, ds[..k]);
       i in before ==> before[i] != ds[k].value
  }

  lemma {:induction false} ChangedIff(cache: Cache, ds: seq<DataItem>, i: Item)
    ensures i in ChangedIds(cache, ds) <==> exists k :: IsNews(cache, ds, k, i)
  {
    if ds != [] {
      var n := |ds| - 1;
      var front, before := ds[..n], AllRecorded(cache, ds[..n]);
      ChangedIff(cache, front, i);
      assert forall k :: 0 <= k < n ==> front[..k] == ds[..k];
      assert forall k :: 0 <= k < n ==> (IsNews(cache, front, k, i) <==> IsNews(cache, ds, k, i));
      LastIsNewsIff(before, ds[n]);
      assert AllRecorded(cache, ds) == Recorded(before, ds[n]);
      assert ds[n].id == i ==> (IsNews(cache, ds, n, i) <==> AllRecorded(cache, ds) != before);
    }
  }

  lemma LastIsNewsIff(before: Cache, d: DataItem)
    ensures Recorded(before, d) != before <==> d.accepted && (d.id in before ==> before[d.id] != d.value)
  {
    if d.accepted {
      assert Recorded(before, d)[d.id] == d.value;
    }
  }

  /** The last accepted item for `i`. */
  ghost predicate IsLatest(ds: seq<DataItem>, k: int, i: Item) {
    && 0 <= k < |ds| && ds[k].id == i && ds[k].accepted
    && forall j :: k < j < |ds| ==> !(ds[j].id == i && ds[j].accepted)
  }

  lemma LatestOfFront(ds: seq<DataItem>, i: Item)
    requires ds != []
    ensures
      var n := |ds| - 1;
      forall k :: IsLatest(ds, k, i) <==>
        if ds[n].id == i && ds[n].accepted then k == n else IsLatest(ds[..n], k, i)
  {
  }

  /** The cache has the value of the last accepted item for `i`, or what it had if there is none. */
  lemma {:induction false} LatestIsCached(cache: Cache, ds: seq<DataItem>, i: Item)
    ensures
      var after := AllRecorded(cache, ds);
      && (forall k :: IsLatest(ds, k, i) ==> i in after && after[i] == ds[k].value)
      && ((forall k :: 0 <= k < |ds| ==> !(ds[k].id == i && ds[k].accepted)) ==>
          (i in after <==> i in cache) && (i in cache ==> after[i] == cache[i]))
  {
    if ds != [] {
      var front, last := ds[..|ds| - 1], ds[|ds| - 1];
      LatestIsCached(cache, front, i);
      LatestOfFront(ds, i);
    }
  }

  /** With inverse maps a notification calls exactly the clients that are due something. */
  lemma NotifiesEveryone(out: seq<Delivery>, x: Index, cache: Cache, changed: set<Item>, c: Client)
    requires Inverse(x) && changed <= cache.Keys && Notifies(out, x, cache, changed, Reached(x, changed))
    ensures Delivery(c, Due(x, cache, changed, c)) in out <==> Values(x.byClient, c) * changed != {}
    ensures forall d :: d in out && d.client == c ==> d.items == Due(x, cache, changed, c)
  {
    var mine := Values(x.byClient, c) * changed;
    if mine != {} {
      var i := SomeElement(mine);
      assert Holds(x.byClient, c, i) && Holds(x.byItem, i, c);
      assert i in Due(x, cache, changed, c);
    } else {
      assert Due(x, cache, changed, c) == map[];
    }
  }

  /** In every run in which updates are a client's first message, a notification brings a client exactly the changed
      items that its messages ask for, in one call, and no call when there is none. */
  lemma NotifiedAsWanted(ms: seq<Message>, out: seq<Delivery>, cache: Cache, changed: set<Item>, c: Client)
    requires OnlyFirstUpdates(ms) && changed <= cache.Keys
    requires Notifies(out, Run(ms), cache, changed, Reached(Run(ms), changed))
    ensures (exists d :: d in out && d.client == c) <==> exists i :: i in changed && Wanted(ms, c, i)
    ensures forall d :: d in out && d.client == c ==>
      && (forall i :: i in d.items <==> i in changed && Wanted(ms, c, i))
      && (forall i :: i in d.items ==> d.items[i] == cache[i])
  {
    var x := Run(ms);
    var mine := Values(x.byClient, c) * changed;
    IndexInEveryRun(ms);
    NotifiesEveryone(out, x, cache, changed, c);
    forall i
      ensures i in mine <==> i in changed && Wanted(ms, c, i)
    {
      ClientsGetWhatTheyAsk(ms, c, i);
    }
    if mine != {} {
      var i := SomeElement(mine);
      assert i in changed && Wanted(ms, c, i);
      assert Delivery(c, Due(x, cache, changed, c)) in out;
    }
    if d :| d in out && d.client == c {
      assert d == Delivery(c, Due(x, cache, changed, c));
    }
  }

  /** From messages and data items to calls: in every run in which updates are a client's first message, `c` is called
      if and only if one of the data items is news of an item that its messages ask for; once, with all such items and
      no others, each with the last value that was accepted. */
  lemma NewsReachesWhoWants(ms: seq<Message>, ds: seq<DataItem>, out: seq<Delivery>, cache: Cache, c: Client)
    requires OnlyFirstUpdates(ms)
    requires
      var changed := ChangedIds(cache, ds);
      Notifies(out, Run(ms), AllRecorded(cache, ds), changed, Reached(Run(ms), changed))
    ensures (exists d :: d in out && d.client == c) <==> exists i, k :: Wanted(ms, c, i) && IsNews(cache, ds, k, i)
    ensures forall a, b :: 0 <= a < b < |out| ==> out[a].client != out[b].client
    ensures forall d :: d in out && d.client == c ==>
      && (forall i :: i in d.items <==> Wanted(ms, c, i) && exists k :: IsNews(cache, ds, k, i))
      && (forall i, k :: i in d.items && IsLatest(ds, k, i) ==> d.items[i] == ds[k].value)
  {
    ChangedAreCached(cache, ds);
    NotifiedAsWanted(ms, out, AllRecorded(cache, ds), ChangedIds(cache, ds), c);
    forall i
      ensures i in ChangedIds(cache, ds) <==> exists k :: IsNews(cache, ds, k, i)
      ensures forall k :: IsLatest(ds, k, i) ==> i in AllRecorded(cache, ds) && AllRecorded(cache, ds)[i] == ds[k].value
    {
      ChangedIff(cache, ds, i);
      LatestIsCached(cache, ds, i);
    }
  }

  /** No notification can leave a client out if and only if every wanted item names the client. */
  lemma CompleteIff(x: Index)
    ensures (forall changed: set<Item>, c: Client :: Values(x.byClient, c) * changed != {} ==> c in Reached(x, changed))
      <==> (forall c, i :: Holds(x.byClient, c, i) ==> Holds(x.byItem, i, c))
  {
    if forall changed: set<Item>, c: Client :: Values(x.byClient, c) * changed != {} ==> c in Reached(x, changed) {
      forall c, i | Holds(x.byClient, c, i)
        ensures Holds(x.byItem, i, c)
      {
        assert i in Values(x.byClient, c) * {i};
        assert c in Reached(x, {i});
      }
    }
    if forall c, i :: Holds(x.byClient, c, i) ==> Holds(x.byItem, i, c) {
      forall changed: set<Item>, c: Client | Values(x.byClient, c) * changed != {}
        ensures c in Reached(x, changed)
      {
        var i := SomeElement(Values(x.byClient, c) * changed);
        assert Holds(x.byClient, c, i) && Holds(x.byItem, i, c);
      }
    }
  }

  /** After an update every change reaches its clients if and only if the client asks for no item it already
      had. */
  lemma UpdateReachesIff(x: Index, items: set<Item>, c: Client)
    requires items != {} && NoEmptySets(x) && Inverse(x)
    ensures
      var y := Update(x, items, c);
      (forall changed: set<Item>, d: Client :: Values(y.byClient, d) * changed != {} ==> d in Reached(y, changed))
      <==> items * Values(x.byClient, c) == {}
  {
    var y := Update(x, items, c);
    UpdateServes(x, items, c);
    CompleteIff(y);
    var again := items * Values(x.byClient, c);
    if again != {} {
      var i := SomeElement(again);
      assert Holds(x.byClient, c, i);
      assert Holds(y.byClient, c, i) && !Holds(y.byItem, i, c);
    } else {
      forall d, i | Holds(y.byClient, d, i)
        ensures Holds(y.byItem, i, d)
      {
        if d == c {
          assert i in items && i !in again;
        } else {
          assert Holds(x.byClient, d, i) && Holds(x.byItem, i, d);
        }
      }
    }
  }

  /** A client that subscribes and then updates to the same item is not reached by its changes. */
  lemma UpdateForgets(c: Client)
    ensures
      var x := Run([SubscribeMsg({1}, c, false), UpdateMsg({1}, c)]);
      Holds(x.byClient, c, 1) && c !in Reached(x, {1})
  {
    UpdateBreaksInverse(c);
  }

  // ----- The class -----------------------------------------------------------------------------

  class SystemStatusOsObserver {
    const clientToDataItems: LocUnorderedSetMap<Client, Item>
    const dataItemToClients: LocUnorderedSetMap<Item, Client>
    var dataItemCache: Cache
    var framework: Option<set<Item>>
    var delivered: seq<Delivery>

    predicate Valid() {
      clientToDataItems != dataItemToClients
    }

    function Value(): Index
      reads this, clientToDataItems, dataItemToClients
    {
      Index(clientToDataItems.entries, dataItemToClients.entries, framework)
    }

    constructor ()
      ensures Valid() && Value() == Run([]) && delivered == [] && dataItemCache == map[]
      ensures fresh(clientToDataItems) && fresh(dataItemToClients)
    {
      clientToDataItems := new LocUnorderedSetMap();
      dataItemToClients := new LocUnorderedSetMap();
      dataItemCache, framework, delivered := map[], None, [];
    }

    /** The loop of sendCachedDataItems, which looks each id up. */
    method FindCached(items: set<Item>) returns (found: Cache)
      ensures found.Keys == items * dataItemCache.Keys
      ensures forall i :: i in found ==> found[i] == dataItemCache[i]
    {
      found := map[];
      var rest := items;
      while rest != {}
        invariant rest <= items && found.Keys == (items - rest) * dataItemCache.Keys
        invariant forall i :: i in found ==> found[i] == dataItemCache[i]
        decreases |rest|
      {
        ghost var some := SomeElement(rest);
        var i :| i in rest;
        if i in dataItemCache {
          found := found[i := dataItemCache[i]];
        }
        rest := rest - {i};
      }
    }

    method SendCachedDataItems(items: set<Item>, to: Client)
      modifies `delivered
      ensures old(delivered) <= delivered && Brings(delivered[|old(delivered)|..], dataItemCache, items, to)
    {
      var found := FindCached(items);
      assert found == map[] <==> found.Keys == {};
      if found != map[] {
        delivered := delivered + [Delivery(to, found)];
      }
    }

    method FrameworkSubscribe(ids: set<Item>)
      requires framework.Some?
      modifies `framework
      ensures framework == AskFramework(old(framework), ids, {})
    {
      assert framework.value + ids - {} == framework.value + ids;
      framework := Some(framework.value + ids);
    }

    method FrameworkUnsubscribe(ids: set<Item>)
      requires framework.Some?
      modifies `framework
      ensures framework == AskFramework(old(framework), {}, ids)
    {
      assert framework.value + {} - ids == framework.value - ids;
      framework := Some(framework.value - ids);
    }

    method SetSubscriptionObj()
      requires Valid()
      modifies `framework
      ensures Value() == Step(old(Value()), Message.SetSubscriptionObj)
    {
      framework := Some({});
      assert {} + dataItemToClients.entries.Keys - {} == dataItemToClients.entries.Keys;
      if dataItemToClients.entries != map[] {
        FrameworkSubscribe(dataItemToClients.entries.Keys);
      } else {
        assert dataItemToClients.entries.Keys == {};
      }
    }

    method Subscribe(items: set<Item>, client: Client, toRequestData: bool)
      requires Valid()
      modifies `framework, `delivered, clientToDataItems, dataItemToClients
      ensures Value() == Step(old(Value()), SubscribeMsg(items, client, toRequestData))
      ensures delivered == old(delivered) + Response(dataItemCache, items, client)
    {
      if items == {} {
        return;
      }
      var toSubscribe := dataItemToClients.Add(items, {client});
      var isNew := clientToDataItems.AddOne(client, items);
      ghost var sofar := delivered;
      SendCachedDataItems(items, client);
      Appended(sofar, delivered, dataItemCache, items, client);
      if framework.Some? && !toRequestData && toSubscribe != {} {
        FrameworkSubscribe(toSubscribe);
      }
    }

    method UpdateSubscription(items: set<Item>, client: Client)
      requires Valid()
      modifies `framework, `delivered, clientToDataItems, dataItemToClients
      ensures Value() == Step(old(Value()), UpdateMsg(items, client))
      ensures
        delivered ==
        old(delivered) + Response(dataItemCache, items - Values(old(Value()).byClient, client), client)
    {
      if items == {} {
        return;
      }
      var gone, fresh_ := clientToDataItems.Update(client, items);
      var toUnsubscribe, goneClients := dataItemToClients.TrimOrRemove(gone, {client});
      var toSubscribe := dataItemToClients.Add(fresh_, {client});
      ghost var sofar := delivered;
      SendCachedDataItems(fresh_, client);
      Appended(sofar, delivered, dataItemCache, fresh_, client);
      if framework.Some? {
        if toSubscribe != {} {
          FrameworkSubscribe(toSubscribe);
        }
        if toUnsubscribe != {} {
          FrameworkUnsubscribe(toUnsubscribe);
        }
        assert framework.value == old(framework).value + toSubscribe - toUnsubscribe;
      }
    }

    method Unsubscribe(items: set<Item>, client: Client)
      requires Valid()
      modifies `framework, clientToDataItems, dataItemToClients
      ensures Value() == Step(old(Value()), UnsubscribeMsg(items, client))
    {
      if items == {} {
        return;
      }
      var clientToRemove, unused := clientToDataItems.TrimOrRemove({client}, items);
      var toUnsubscribe, goneClients := dataItemToClients.TrimOrRemove(unused, {client});
      if framework.Some? && toUnsubscribe != {} {
        FrameworkUnsubscribe(toUnsubscribe);
      }
    }

    method UnsubscribeAll(client: Client)
      requires Valid()
      modifies `framework, clientToDataItems, dataItemToClients
      ensures Value() == Step(old(Value()), UnsubscribeAllMsg(client))
    {
      var items := clientToDataItems.GetValSet(client);
      if items != {} {
        var removed := clientToDataItems.Remove(client);
        var toUnsubscribe, goneClients := dataItemToClients.TrimOrRemove(items, {client});
        if toUnsubscribe != {} && framework.Some? {
          FrameworkUnsubscribe(toUnsubscribe);
        }
      }
    }

    /** An accepted item is cached, nothing else is touched, and the answer says whether the cache changed. */
    method UpdateCache(d: DataItem) returns (updated: bool)
      modifies `dataItemCache
      ensures updated <==> dataItemCache != old(dataItemCache)
      ensures d.accepted ==> d.id in dataItemCache && dataItemCache[d.id] == d.value
      ensures !d.accepted ==> dataItemCache == old(dataItemCache)
      ensures dataItemCache - {d.id} == old(dataItemCache) - {d.id}
    {
      updated := false;
      if d.accepted {
        if d.id !in dataItemCache {
          dataItemCache := dataItemCache[d.id := d.value];
          updated := true;
        } else if dataItemCache[d.id] != d.value {
          assert dataItemCache[d.id := d.value][d.id] != dataItemCache[d.id];
          dataItemCache := dataItemCache[d.id := d.value];
          updated := true;
        }
      }
    }

    /** The clients subscribed to any of `ids`, by the item side of the index. */
    method ClientsOf(ids: set<Item>) returns (clients: set<Client>)
      ensures clients == Reached(Value(), ids)
    {
      clients := {};
      var rest := ids;
      while rest != {}
        invariant rest <= ids && clients == Reached(Value(), ids - rest)
        decreases |rest|
      {
        ghost var some := SomeElement(rest);
        var i :| i in rest;
        if i in dataItemToClients.entries {
          clients := clients + dataItemToClients.entries[i];
        }
        ReachedStep(Value(), ids - rest, i);
        assert ids - (rest - {i}) == (ids - rest) + {i};
        rest := rest - {i};
      }
      assert ids - {} == ids;
    }

    method Notify(ds: seq<DataItem>)
      requires Valid()
      modifies this
      ensures Value() == old(Value()) && dataItemCache == AllRecorded(old(dataItemCache), ds)
      ensures old(delivered) <= delivered
      ensures
        var changed := ChangedIds(old(dataItemCache), ds);
        && changed <= dataItemCache.Keys
        && Notifies(delivered[|old(delivered)|..], Value(), dataItemCache, changed, Reached(Value(), changed))
    {
      ghost var cache0 := dataItemCache;
      var toBeSent: set<Item> := {};
      for k := 0 to |ds|
        invariant framework == old(framework) && delivered == old(delivered)
        invariant dataItemCache == AllRecorded(cache0, ds[..k]) && toBeSent == ChangedIds(cache0, ds[..k])
      {
        assert ds[..k + 1][..k] == ds[..k];
        var updated := UpdateCache(ds[k]);
        OnlyOneRecorded(AllRecorded(cache0, ds[..k]), ds[k], dataItemCache);
        if updated {
          toBeSent := toBeSent + {ds[k].id};
        }
      }
      assert ds[..|ds|] == ds;
      ChangedAreCached(cache0, ds);
      var clients := ClientsOf(toBeSent);
      NotifyClients(clients, toBeSent);
    }

    /** Sends one client those of its items that are to be sent. */
    method NotifyClient(client: Client, toBeSent: set<Item>)
      modifies `delivered
      ensures delivered == old(delivered) + Response(dataItemCache, Values(Value().byClient, client) * toBeSent, client)
    {
      var mine := clientToDataItems.GetValSet(client) * toBeSent;
      SendCachedDataItems(mine, client);
      Appended(old(delivered), delivered, dataItemCache, mine, client);
    }

    method NotifyClients(clients: set<Client>, toBeSent: set<Item>)
      modifies `delivered
      ensures old(delivered) <= delivered
      ensures Notifies(delivered[|old(delivered)|..], Value(), dataItemCache, toBeSent, clients)
    {
      var rest := clients;
      ghost var start, out: seq<Delivery> := delivered, [];
      while rest != {}
        invariant rest <= clients && delivered == start + out
        invariant Notifies(out, Value(), dataItemCache, toBeSent, clients - rest)
        decreases |rest|
      {
        ghost var some := SomeElement(rest);
        var client :| client in rest;
        NotifyClient(client, toBeSent);
        ghost var more := Response(dataItemCache, Values(Value().byClient, client) * toBeSent, client);
        NotifiesOneMore(out, Value(), dataItemCache, toBeSent, clients - rest, client);
        Regroup(start, out, more);
        out := out + more;
        assert clients - (rest - {client}) == (clients - rest) + {client};
        rest := rest - {client};
      }
      assert clients - {} == clients;
    }
  }

  lemma OnlyOneRecorded(before: Cache, d: DataItem, after: Cache)
    requires d.accepted ==> d.id in after && after[d.id] == d.value
    requires !d.accepted ==> after == before
    requires after - {d.id} == before - {d.id}
    ensures after == Recorded(before, d)
  {
    forall i | i != d.id
      ensures i in after <==> i in before
      ensures i in after ==> after[i] == before[i]
    {
      assert i in after <==> i in after - {d.id};
      assert i in before <==> i in before - {d.id};
      assert i in after ==> after[i] == (after - {d.id})[i] == (before - {d.id})[i];
    }
  }

  lemma ReachedStep(x: Index, ids: set<Item>, i: Item)
    ensures Reached(x, ids + {i}) == Reached(x, ids) + if i in x.byItem then x.byItem[i] else {}
  {
    var more := if i in x.byItem then x.byItem[i] else {};
    forall c
      ensures c in Reached(x, ids + {i}) <==> c in Reached(x, ids) + more
    {
      if c in Reached(x, ids + {i}) {
        var j :| j in ids + {i} && j in x.byItem && c in x.byItem[j];
        assert j in ids ==> c in Reached(x, ids);
      }
      if c in Reached(x, ids) {
        var j :| j in ids && j in x.byItem && c in x.byItem[j];
        assert j in ids + {i};
      }
      if c in more {
        assert i in ids + {i};
      }
    }
  }

  lemma NotifiesOneMore(out: seq<Delivery>, x: Index, cache: Cache, changed: set<Item>, done: set<Client>, c: Client)
    requires c !in done && Notifies(out, x, cache, changed, done)
    ensures Notifies(out + Response(cache, Values(x.byClient, c) * changed, c), x, cache, changed, done + {c})
  {
    assert forall a :: 0 <= a < |out| ==> out[a] in out;
  }
}
