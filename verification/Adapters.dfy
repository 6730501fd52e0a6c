/** The compact array of adapters of gps/core/LocApiBase.cpp. Adapters are identified by number. */
module Adapters {
  import opened Wrappers

  /** LocOpenMsg, which opens the engine with the current event mask, and LocCloseMsg. */
  datatype Message = OpenFor(adapter: Option<nat>) | Close

  // ----- The array as a list -------------------------------------------------------------------

  predicate Distinct(ids: seq<nat>) {
    forall i, j :: 0 <= i < j < |ids| ==> ids[i] != ids[j]
  }

  /** `slots` holds `ids` without a gap, and nothing else. */
  predicate Holds(slots: seq<Option<nat>>, ids: seq<nat>) {
    && |ids| <= |slots|
    && (forall i :: 0 <= i < |ids| ==> slots[i] == Some(ids[i]))
    && (forall i :: |ids| <= i < |slots| ==> slots[i] == None)
  }

  function Added(ids: seq<nat>, size: nat, x: nat): seq<nat> {
    if x in ids || |ids| == size then ids else ids + [x]
  }

  function IndexOf(ids: seq<nat>, x: nat): (i: nat)
    requires x in ids
    ensures i < |ids| && ids[i] == x && x !in ids[..i]
  {
    if ids[0] == x then 0 else 1 + IndexOf(ids[1..], x)
  }

  /** The last adapter takes the place of the one that leaves. */
  function Removed(ids: seq<nat>, x: nat): seq<nat> {
    if x in ids then ids[IndexOf(ids, x) := ids[|ids| - 1]][..|ids| - 1] else ids
  }

  function AddMessages(ids: seq<nat>, size: nat, x: nat): seq<Message> {
    if x in ids || |ids| == size then [] else [OpenFor(Some(x))]
  }

  function RemoveMessages(ids: seq<nat>, x: nat): seq<Message> {
    if x !in ids then [] else if |ids| == 1 then [Close] else [OpenFor(None)]
  }

  // ----- The list as a set ---------------------------------------------------------------------

  function Elements(ids: seq<nat>): set<nat> {
    set x | x in ids
  }

  lemma {:induction false} DistinctCount(ids: seq<nat>)
    requires Distinct(ids)
    ensures |Elements(ids)| == |ids|
  {
    if ids != [] {
      DistinctCount(ids[1..]);
      assert Elements(ids) == {ids[0]} + Elements(ids[1..]);
      assert ids[0] !in Elements(ids[1..]);
    }
  }

  lemma AddedAsSet(ids: seq<nat>, size: nat, x: nat)
    requires Distinct(ids) && |ids| <= size
    ensures Distinct(Added(ids, size, x)) && |Added(ids, size, x)| <= size
    ensures Elements(Added(ids, size, x)) == if |Elements(ids)| < size then Elements(ids) + {x} else Elements(ids)
  {
    DistinctCount(ids);
  }

  lemma RemovedAsSet(ids: seq<nat>, x: nat)
    requires Distinct(ids)
    ensures Distinct(Removed(ids, x)) && |Removed(ids, x)| <= |ids|
    ensures Elements(Removed(ids, x)) == Elements(ids) - {x}
  {
    if x in ids {
      var j, out, last := IndexOf(ids, x), Removed(ids, x), |ids| - 1;
      assert forall i :: 0 <= i < |out| ==> out[i] == if i == j then ids[last] else ids[i];
      forall y | y in ids && y != x
        ensures y in out
      {
        var i :| 0 <= i < |ids| && ids[i] == y;
        assert y == if i == last then out[j] else out[i];
      }
    }
  }

  // ----- Runs ----------------------------------------------------------------------------------

  datatype Event = Add(x: nat) | Remove(x: nat)

  datatype Api = Api(ids: seq<nat>, messages: seq<Message>)

  function Step(a: Api, size: nat, e: Event): Api {
    match e
    case Add(x) => Api(Added(a.ids, size, x), a.messages + AddMessages(a.ids, size, x))
    case Remove(x) => Api(Removed(a.ids, x), a.messages + RemoveMessages(a.ids, x))
  }

  function Run(size: nat, es: seq<Event>): Api {
    if es == [] then Api([], []) else Step(Run(size, es[..|es| - 1]), size, es[|es| - 1])
  }

  /** The adapters as a bounded set. */
  function MembersAfter(s: set<nat>, size: nat, e: Event): set<nat> {
    match e
    case Add(x) => if |s| < size then s + {x} else s
    case Remove(x) => s - {x}
  }

  function Members(size: nat, es: seq<Event>): set<nat> {
    if es == [] then {} else MembersAfter(Members(size, es[..|es| - 1]), size, es[|es| - 1])
  }

  /** The engine is opened for a new member, opened again when one of several leaves, and closed when the last
      one does. */
  function Command(before: set<nat>, after: set<nat>, e: Event): seq<Message> {
    if before == after then []
    else if before < after then [OpenFor(Some(e.x))]
    else if after == {} then [Close]
    else [OpenFor(None)]
  }

  function Commands(size: nat, es: seq<Event>): seq<Message> {
    if es == [] then []
    else
      var before := Members(size, es[..|es| - 1]);
      Commands(size, es[..|es| - 1]) + Command(before, Members(size, es), es[|es| - 1])
  }

  lemma StepAsSet(a: Api, size: nat, e: Event)
    requires Distinct(a.ids) && |a.ids| <= size
    ensures
      var b, s := Step(a, size, e), Elements(a.ids);
      && Distinct(b.ids) && |b.ids| <= size && Elements(b.ids) == MembersAfter(s, size, e)
      && b.messages == a.messages + Command(s, Elements(b.ids), e)
  {
    DistinctCount(a.ids);
    if e.Add? {
      AddedAsSet(a.ids, size, e.x);
      assert e.x in a.ids <==> Elements(a.ids) + {e.x} == Elements(a.ids);
    } else {
      RemovedAsSet(a.ids, e.x);
      DistinctCount(Removed(a.ids, e.x));
      assert e.x !in a.ids <==> Elements(a.ids) - {e.x} == Elements(a.ids);
    }
  }

  /** In every run the array is a duplicate-free list of the members, and the messages sent are those that
      the changes of the set call for. */
  lemma {:induction false} ArrayInEveryRun(size: nat, es: seq<Event>)
    ensures
      var a := Run(size, es);
      && Distinct(a.ids) && |a.ids| <= size && Elements(a.ids) == Members(size, es)
      && a.messages == Commands(size, es)
  {
    if es != [] {
      ArrayInEveryRun(size, es[..|es| - 1]);
      StepAsSet(Run(size, es[..|es| - 1]), size, es[|es| - 1]);
    }
  }

  /** The engine is closed exactly as often as the set becomes empty. */
  function TimesEmptied(size: nat, es: seq<Event>): nat {
    if es == [] then 0
    else
      TimesEmptied(size, es[..|es| - 1]) +
      if Members(size, es[..|es| - 1]) != {} && Members(size, es) == {} then 1 else 0
  }

  lemma {:induction false} ClosedWhenEmptied(size: nat, es: seq<Event>)
    ensures multiset(Run(size, es).messages)[Close] == TimesEmptied(size, es)
  {
    if es != [] {
      var front := es[..|es| - 1];
      ClosedWhenEmptied(size, front);
      ArrayInEveryRun(size, front);
      ArrayInEveryRun(size, es);
      assert Run(size, es).messages == Commands(size, es) && Run(size, front).messages == Commands(size, front);
    }
  }

  // ----- The class -----------------------------------------------------------------------------

  class LocApiBase {
    const locAdapters: array<Option<nat>>
    const excludedMask: set<nat>
    ghost var ids: seq<nat>
    var messages: seq<Message>

    ghost predicate Valid()
      reads this, locAdapters
    {
      Distinct(ids) && Holds(locAdapters[..], ids)
    }

    ghost function State(): Api
      reads this
    {
      Api(ids, messages)
    }

    constructor (maxAdapters: nat, excludedMask: set<nat>)
      ensures Valid() && fresh(locAdapters) && locAdapters.Length == maxAdapters && this.excludedMask == excludedMask
      ensures State() == Run(maxAdapters, [])
    {
      locAdapters := new Option<nat>[maxAdapters](_ => None);
      this.excludedMask := excludedMask;
      ids, messages := [], [];
    }

    method AddAdapter(adapter: nat)
      requires Valid()
      modifies this, locAdapters
      ensures Valid() && State() == Step(old(State()), locAdapters.Length, Add(adapter))
    {
      var i := 0;
      while i < locAdapters.Length && locAdapters[i] != Some(adapter)
        invariant 0 <= i <= |ids| && adapter !in ids[..i] && Valid() && State() == old(State())
        decreases locAdapters.Length - i
      {
        if locAdapters[i] == None {
          assert ids[..i] == ids;
          locAdapters[i] := Some(adapter);
          ids := ids + [adapter];
          messages := messages + [OpenFor(Some(adapter))];
          return;
        }
        i := i + 1;
      }
      assert i < locAdapters.Length ==> adapter == ids[i];
      assert i == locAdapters.Length ==> ids[..i] == ids;
    }

    /** The part of removeAdapter that fills the hole at `i` with the last adapter, whose index is returned. */
    method FillHole(i: nat) returns (last: nat)
      requires Valid() && i < |ids|
      modifies locAdapters, this`ids
      ensures Valid() && ids == Removed(old(ids), old(ids[i])) && last == |ids|
    {
      ghost var x := ids[i];
      assert IndexOf(ids, x) == i;
      locAdapters[i] := None;
      last := i + 1;
      while last < locAdapters.Length && locAdapters[last] != None
        invariant i < last <= |ids|
      {
        last := last + 1;
      }
      last := last - 1;
      locAdapters[i] := locAdapters[last];
      locAdapters[last] := None;
      RemovedAsSet(ids, x);
      ids := Removed(ids, x);
    }

    method RemoveAdapter(adapter: nat)
      requires Valid()
      modifies this, locAdapters
      ensures Valid() && State() == Step(old(State()), locAdapters.Length, Remove(adapter))
    {
      ghost var done := false;
      var i := 0;
      while i < locAdapters.Length && locAdapters[i] != None
        invariant 0 <= i <= locAdapters.Length && Valid()
        invariant !done ==> State() == old(State()) && i <= |ids| && adapter !in ids[..i]
        invariant done ==> State() == Step(old(State()), locAdapters.Length, Remove(adapter)) && i == |ids| + 1
        decreases locAdapters.Length - i
      {
        if locAdapters[i] == Some(adapter) {
          i := FillHole(i);
          done := true;
          if i == 0 {
            messages := messages + [Close];
          } else {
            messages := messages + [OpenFor(None)];
          }
        }
        i := i + 1;
      }
      assert !done ==> ids[..i] == ids;
    }

    /** The union of what the adapters want, less what is excluded. */
    method GetEvtMask(wanted: map<nat, set<nat>>) returns (mask: set<nat>)
      requires Valid() && forall x :: x in ids ==> x in wanted
      ensures forall bit :: bit in mask <==> bit !in excludedMask && exists x :: x in ids && bit in wanted[x]
    {
      mask := {};
      var i := 0;
      while i < locAdapters.Length && locAdapters[i] != None
        invariant 0 <= i <= |ids|
        invariant forall bit :: bit in mask <==> exists k :: 0 <= k < i && bit in wanted[ids[k]]
      {
        mask := mask + wanted[locAdapters[i].value];
        i := i + 1;
      }
      mask := mask - excludedMask;
    }
  }
}
