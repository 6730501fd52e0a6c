/** The subscription index of gps/core/SystemStatusOsObserver.cpp on values: who wants which data
    items, seen from both sides, and what the framework has been asked for. */
module SubscriptionModel {
  import opened Wrappers
  import opened SetMaps

  type Client = int
  type Item = int

  /** `framework` is the set of items subscribed there; None while no subscription object is installed. */
  datatype Index = Index(byClient: map<Client, set<Item>>, byItem: map<Item, set<Client>>, framework: Option<set<Item>>)

  function AskFramework(f: Option<set<Item>>, subscribe: set<Item>, unsubscribe: set<Item>): Option<set<Item>> {
    match f
    case None => None
    case Some(ids) => Some(ids + subscribe - unsubscribe)
  }

  /** setSubscriptionObj: a new framework object is asked for every item that has clients. */
  function Install(x: Index): Index {
    x.(framework := Some(x.byItem.Keys))
  }

  /** With `request` the framework is asked for the data and not subscribed to. */
  function Subscribe(x: Index, items: set<Item>, c: Client, request: bool): Index {
    Index(Added(x.byClient, {c}, items),
          Added(x.byItem, items, {c}),
          if request then x.framework else AskFramework(x.framework, NewKeys(x.byItem, items, {c}), {}))
  }

  function Update(x: Index, items: set<Item>, c: Client): Index {
    var gone := Values(x.byClient, c) * items;
    var fresh_ := items - Values(x.byClient, c);
    var trimmed := Trimmed(x.byItem, gone, {c});
    Index(Updated(x.byClient, c, items),
          Added(trimmed, fresh_, {c}),
          AskFramework(x.framework, NewKeys(trimmed, fresh_, {c}), GoneKeys(x.byItem, gone, {c})))
  }

  function Unsubscribe(x: Index, items: set<Item>, c: Client): Index {
    var unused := GoneValues(x.byClient, {c}, items);
    Index(Trimmed(x.byClient, {c}, items),
          Trimmed(x.byItem, unused, {c}),
          AskFramework(x.framework, {}, GoneKeys(x.byItem, unused, {c})))
  }

  function UnsubscribeAll(x: Index, c: Client): Index {
    var items := Values(x.byClient, c);
    if items == {} then x
    else Index(x.byClient - {c},
               Trimmed(x.byItem, items, {c}),
               AskFramework(x.framework, {}, GoneKeys(x.byItem, items, {c})))
  }

  // ----- What the index means ------------------------------------------------------------------

  /** Both sides of the index say the same. */
  ghost predicate Inverse(x: Index) {
    forall c, i :: Holds(x.byClient, c, i) <==> Holds(x.byItem, i, c)
  }

  ghost predicate NoEmptySets(x: Index) {
    NoEmptySet(x.byClient) && NoEmptySet(x.byItem)
  }

  /** The framework has been asked for exactly the items that have clients. */
  ghost predicate Mirrored(x: Index) {
    x.framework.Some? ==> x.framework.value == x.byItem.Keys
  }

  /** With inverse maps, those items are the ones some client wants. */
  lemma MirrorIsUnion(x: Index, i: Item)
    requires Inverse(x) && NoEmptySets(x) && Mirrored(x) && x.framework.Some?
    ensures i in x.framework.value <==> exists c :: Holds(x.byClient, c, i)
  {
    if i in x.byItem {
      var c := SomeElement(x.byItem[i]);
      assert Holds(x.byItem, i, c) && Holds(x.byClient, c, i);
    }
    if c :| Holds(x.byClient, c, i) {
      assert Holds(x.byItem, i, c);
    }
  }

  /** Mirroring survives exactly if no new item is asked for with a mere data request. */
  lemma SubscribeKeeps(x: Index, items: set<Item>, c: Client, request: bool)
    requires items != {} && NoEmptySets(x)
    ensures
      var y := Subscribe(x, items, c, request);
      && NoEmptySets(y)
      && (Inverse(x) ==> Inverse(y))
      && (Mirrored(x) ==> (Mirrored(y) <==> x.framework == None || !request || items <= x.byItem.Keys))
      && forall d, i :: Holds(y.byClient, d, i) <==> Holds(x.byClient, d, i) || (d == c && i in items)
  {
    AddedHolds(x.byClient, {c}, items);
    AddedHolds(x.byItem, items, {c});
  }

  lemma UnsubscribeKeeps(x: Index, items: set<Item>, c: Client)
    requires NoEmptySets(x)
    ensures
      var y := Unsubscribe(x, items, c);
      && NoEmptySets(y)
      && (Inverse(x) ==> Inverse(y))
      && (Mirrored(x) ==> Mirrored(y))
      && forall d, i :: Holds(y.byClient, d, i) <==> Holds(x.byClient, d, i) && !(d == c && i in items)
  {
    var unused := GoneValues(x.byClient, {c}, items);
    assert forall i :: i in unused <==> Holds(x.byClient, c, i) && i in items;
    TrimmedHolds(x.byClient, {c}, items);
    TrimmedHolds(x.byItem, unused, {c});
  }

  lemma UnsubscribeAllKeeps(x: Index, c: Client)
    requires NoEmptySets(x)
    ensures
      var y := UnsubscribeAll(x, c);
      && NoEmptySets(y)
      && (Inverse(x) ==> Inverse(y))
      && (Mirrored(x) ==> Mirrored(y))
      && forall d, i :: Holds(y.byClient, d, i) <==> Holds(x.byClient, d, i) && d != c
  {
    var items := Values(x.byClient, c);
    assert forall i :: i in items <==> Holds(x.byClient, c, i);
    TrimmedHolds(x.byItem, items, {c});
  }

  lemma UpdateKeeps(x: Index, items: set<Item>, c: Client)
    requires items != {} && NoEmptySets(x)
    ensures NoEmptySets(Update(x, items, c)) && (Mirrored(x) ==> Mirrored(Update(x, items, c)))
  {
    var gone, fresh_ := Values(x.byClient, c) * items, items - Values(x.byClient, c);
    TrimmedHolds(x.byItem, gone, {c});
    AddedHolds(Trimmed(x.byItem, gone, {c}), fresh_, {c});
    assert GoneKeys(x.byItem, gone, {c}) !! fresh_;
  }

  /** After an update the client is served the items that are in exactly one of its old and new sets. */
  lemma UpdateServes(x: Index, items: set<Item>, c: Client)
    requires items != {} && Inverse(x)
    ensures
      var y := Update(x, items, c);
      && (forall d, i :: Holds(y.byClient, d, i) <==> if d == c then i in items else Holds(x.byClient, d, i))
      && (forall d, i :: d != c ==> (Holds(y.byItem, i, d) <==> Holds(x.byItem, i, d)))
      && forall i :: Holds(y.byItem, i, c) <==> (i in items) != Holds(x.byClient, c, i)
  {
    var gone, fresh_ := Values(x.byClient, c) * items, items - Values(x.byClient, c);
    assert forall i :: i in Values(x.byClient, c) <==> Holds(x.byClient, c, i);
    TrimmedHolds(x.byItem, gone, {c});
    AddedHolds(Trimmed(x.byItem, gone, {c}), fresh_, {c});
  }

  /** An update keeps the maps inverse exactly for a client that had no items. */
  lemma UpdateKeepsInverseIff(x: Index, items: set<Item>, c: Client)
    requires items != {} && NoEmptySets(x) && Inverse(x)
    ensures Inverse(Update(x, items, c)) <==> c !in x.byClient
  {
    UpdateServes(x, items, c);
    var y := Update(x, items, c);
    if c in x.byClient {
      var i := SomeElement(x.byClient[c]);
      assert Holds(x.byClient, c, i);
      assert Holds(y.byClient, c, i) <==> i in items;
      assert Holds(y.byItem, i, c) <==> i !in items;
    } else {
      forall d, i
        ensures Holds(y.byClient, d, i) <==> Holds(y.byItem, i, d)
      {
        assert !Holds(x.byClient, c, i);
      }
    }
  }

  /** After an update the framework's ids are the items some client wants if and only if every item the
      client had is also wanted by another. */
  lemma UpdateKeepsUnionIff(x: Index, items: set<Item>, c: Client)
    requires items != {} && NoEmptySets(x) && Inverse(x) && Mirrored(x) && x.framework.Some?
    ensures
      var y := Update(x, items, c);
      (forall i :: i in y.framework.value <==> exists d :: Holds(y.byClient, d, i))
      <==> forall i :: Holds(x.byClient, c, i) ==> exists d :: d != c && Holds(x.byClient, d, i)
  {
    var y := Update(x, items, c);
    UpdateKeeps(x, items, c);
    UpdateServes(x, items, c);
    forall i
      ensures (i in y.framework.value <==> exists d :: Holds(y.byClient, d, i))
        <==> (Holds(x.byClient, c, i) ==> exists d :: d != c && Holds(x.byClient, d, i))
    {
      WantedAfterUpdate(x, items, c, i);
    }
  }

  lemma WantedAfterUpdate(x: Index, items: set<Item>, c: Client, i: Item)
    requires items != {} && NoEmptySets(x) && Inverse(x)
    ensures
      var y, others := Update(x, items, c), exists d :: d != c && Holds(x.byClient, d, i);
      && (i in y.byItem <==> others || (i in items) != Holds(x.byClient, c, i))
      && ((exists d :: Holds(y.byClient, d, i)) <==> others || i in items)
  {
    var y := Update(x, items, c);
    UpdateKeeps(x, items, c);
    UpdateServes(x, items, c);
    if i in y.byItem {
      var d := SomeElement(y.byItem[i]);
      assert Holds(y.byItem, i, d);
      assert d != c ==> Holds(x.byClient, d, i);
    }
    if d :| d != c && Holds(x.byClient, d, i) {
      assert Holds(y.byItem, i, d) && Holds(y.byClient, d, i);
    }
    assert Holds(y.byItem, i, c) <==> (i in items) != Holds(x.byClient, c, i);
    assert Holds(y.byClient, c, i) <==> i in items;
  }

  // ----- Runs ----------------------------------------------------------------------------------

  datatype Message =
    | SetSubscriptionObj
    | SubscribeMsg(items: set<Item>, client: Client, request: bool)
    | UpdateMsg(items: set<Item>, client: Client)
    | UnsubscribeMsg(items: set<Item>, client: Client)
    | UnsubscribeAllMsg(client: Client)

  /** Messages with an empty list are not sent to begin with. */
  function Step(x: Index, m: Message): Index {
    match m
    case SetSubscriptionObj => Install(x)
    case SubscribeMsg(items, c, request) => if items == {} then x else Subscribe(x, items, c, request)
    case UpdateMsg(items, c) => if items == {} then x else Update(x, items, c)
    case UnsubscribeMsg(items, c) => if items == {} then x else Unsubscribe(x, items, c)
    case UnsubscribeAllMsg(c) => UnsubscribeAll(x, c)
  }

  function Run(ms: seq<Message>): Index {
    if ms == [] then Index(map[], map[], None) else Step(Run(ms[..|ms| - 1]), ms[|ms| - 1])
  }

  /** What a client wants after a run, from the messages alone. */
  ghost predicate Wanted(ms: seq<Message>, c: Client, i: Item) {
    if ms == [] then false
    else
      var before := Wanted(ms[..|ms| - 1], c, i);
      match ms[|ms| - 1]
      case SetSubscriptionObj => before
      case SubscribeMsg(items, d, _) => before || (d == c && i in items)
      case UpdateMsg(items, d) => if d == c && items != {} then i in items else before
      case UnsubscribeMsg(items, d) => before && !(d == c && i in items)
      case UnsubscribeAllMsg(d) => before && d != c
  }

  ghost predicate OnlySubscribes(ms: seq<Message>) {
    forall i :: 0 <= i < |ms| && ms[i].SubscribeMsg? ==> !ms[i].request
  }

  /** Updates come only from clients that want nothing at the time. */
  ghost predicate OnlyFirstUpdates(ms: seq<Message>) {
    forall i :: 0 <= i < |ms| && ms[i].UpdateMsg? ==> ms[i].client !in Run(ms[..i]).byClient
  }

  lemma StepKeeps(x: Index, m: Message)
    requires NoEmptySets(x)
    ensures NoEmptySets(Step(x, m))
    ensures Mirrored(x) && (m.SubscribeMsg? ==> !m.request) ==> Mirrored(Step(x, m))
    ensures Inverse(x) && (m.UpdateMsg? ==> m.client !in x.byClient) ==> Inverse(Step(x, m))
  {
    match m
    case SetSubscriptionObj =>
    case SubscribeMsg(items, c, request) =>
      if items != {} {
        SubscribeKeeps(x, items, c, request);
      }
    case UpdateMsg(items, c) =>
      if items != {} {
        UpdateKeeps(x, items, c);
        if Inverse(x) {
          UpdateKeepsInverseIff(x, items, c);
        }
      }
    case UnsubscribeMsg(items, c) => UnsubscribeKeeps(x, items, c);
    case UnsubscribeAllMsg(c) => UnsubscribeAllKeeps(x, c);
  }

  /** No set is ever empty; the framework mirrors the items as long as nothing is merely requested;
      the maps are inverse as long as nobody updates a subscription it already has. */
  lemma {:induction false} IndexInEveryRun(ms: seq<Message>)
    ensures NoEmptySets(Run(ms))
    ensures OnlySubscribes(ms) ==> Mirrored(Run(ms))
    ensures OnlyFirstUpdates(ms) ==> Inverse(Run(ms))
  {
    if ms == [] {
      assert forall c, i :: !Holds(Run(ms).byClient, c, i) && !Holds(Run(ms).byItem, i, c);
    } else {
      var n := |ms| - 1;
      IndexInEveryRun(ms[..n]);
      assert OnlySubscribes(ms) ==> OnlySubscribes(ms[..n]);
      if OnlyFirstUpdates(ms) {
        forall i | 0 <= i < n && ms[..n][i].UpdateMsg?
          ensures ms[..n][i].client !in Run(ms[..n][..i]).byClient
        {
          assert ms[..n][..i] == ms[..i] && ms[..n][i] == ms[i];
        }
        assert ms[n].UpdateMsg? ==> ms[n].client !in Run(ms[..n]).byClient;
      }
      StepKeeps(Run(ms[..n]), ms[n]);
    }
  }

  /** The client side is right in every run: a client's items are those its messages ask for. */
  lemma {:induction false} ClientsGetWhatTheyAsk(ms: seq<Message>, c: Client, i: Item)
    ensures Holds(Run(ms).byClient, c, i) <==> Wanted(ms, c, i)
  {
    if ms != [] {
      var n := |ms| - 1;
      var x := Run(ms[..n]);
      ClientsGetWhatTheyAsk(ms[..n], c, i);
      IndexInEveryRun(ms[..n]);
      match ms[n]
      case SetSubscriptionObj =>
      case SubscribeMsg(items, d, request) =>
        if items != {} {
          SubscribeKeeps(x, items, d, request);
        }
      case UpdateMsg(items, d) =>
      case UnsubscribeMsg(items, d) => UnsubscribeKeeps(x, items, d);
      case UnsubscribeAllMsg(d) => UnsubscribeAllKeeps(x, d);
    }
  }

  /** In every such run the framework, once installed, is subscribed to the items that clients want. */
  lemma UnionInEveryRun(ms: seq<Message>, i: Item)
    requires OnlySubscribes(ms) && OnlyFirstUpdates(ms) && Run(ms).framework.Some?
    ensures i in Run(ms).framework.value <==> exists c :: Wanted(ms, c, i)
  {
    IndexInEveryRun(ms);
    MirrorIsUnion(Run(ms), i);
    if c :| Holds(Run(ms).byClient, c, i) {
      ClientsGetWhatTheyAsk(ms, c, i);
    }
    if c :| Wanted(ms, c, i) {
      ClientsGetWhatTheyAsk(ms, c, i);
    }
  }

  lemma FirstSubscription(f: Option<set<Item>>, c: Client)
    ensures
      var x := Subscribe(Index(map[], map[], f), {1}, c, false);
      x.byClient == map[c := {1}] && x.byItem == map[1 := {c}] && x.framework == AskFramework(f, {1}, {})
  {
    var x := Subscribe(Index(map[], map[], f), {1}, c, false);
    assert x.byClient.Keys == {c} && x.byClient[c] == {1};
    assert x.byItem.Keys == {1} && x.byItem[1] == {c};
    assert NewKeys<Item, Client>(map[], {1}, {c}) == {1};
  }

  lemma UpdateOfSame(f: Option<set<Item>>, c: Client)
    ensures
      Update(Index(map[c := {1}], map[1 := {c}], f), {1}, c) == Index(map[c := {1}], map[], AskFramework(f, {}, {1}))
  {
    var x := Index(map[c := {1}], map[1 := {c}], f);
    assert Values(x.byClient, c) * {1} == {1} && {1} - Values(x.byClient, c) == {};
    assert Trimmed(x.byItem, {1}, {c}) == map[];
    assert Added<Item, Client>(map[], {}, {c}) == map[];
    assert GoneKeys(x.byItem, {1}, {c}) == {1};
    assert NewKeys<Item, Client>(map[], {}, {c}) == {};
    assert Updated(x.byClient, c, {1}) == map[c := {1}];
  }

  lemma RunOfTwo(m: Message, n: Message)
    ensures Run([m, n]) == Step(Step(Run([]), m), n)
  {
    assert [m, n][..1] == [m] && [m][..0] == [];
  }

  /** A client that subscribes to an item and then updates to the same item is lost on the item side. */
  lemma UpdateBreaksInverse(c: Client)
    ensures
      var x := Run([SubscribeMsg({1}, c, false), UpdateMsg({1}, c)]);
      !Inverse(x) && Holds(x.byClient, c, 1) && 1 !in x.byItem
  {
    RunOfTwo(SubscribeMsg({1}, c, false), UpdateMsg({1}, c));
    FirstSubscription(None, c);
    UpdateOfSame(None, c);
    assert Holds(map[c := {1}], c, 1);
  }

  /** With a framework installed, such a client's item is subscribed by nobody. */
  lemma UpdateBreaksUnion(c: Client)
    ensures
      var x := Run([SetSubscriptionObj, SubscribeMsg({1}, c, false), UpdateMsg({1}, c)]);
      x.framework == Some({}) && Holds(x.byClient, c, 1)
  {
    assert Run([]).byItem.Keys == {} && Install(Run([])) == Index(map[], map[], Some({}));
    var before := [SetSubscriptionObj, SubscribeMsg({1}, c, false)];
    var ms := before + [UpdateMsg({1}, c)];
    assert ms == [SetSubscriptionObj, SubscribeMsg({1}, c, false), UpdateMsg({1}, c)] && ms[..2] == before;
    RunOfTwo(SetSubscriptionObj, SubscribeMsg({1}, c, false));
    FirstSubscription(Some({}), c);
    UpdateOfSame(Some({} + {1} - {}), c);
    assert {1} + {} - {1} == {};
  }
}
