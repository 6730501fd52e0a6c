/** The bounded histories of gps/core/SystemStatus.cpp, for any type of item: `ignore`, `equals` and
    `collate` are whatever the type makes of them. */
module ReportHistory {
  import opened Wrappers

  const MAX_ITEM: nat := 5

  /** An item and the time it was last reported. */
  datatype Item<V> = Item(value: V, utcReported: int)

  /** How a type of items overrides the members of SystemStatusItemBase; collate(new, current) is what the
      new item becomes. */
  datatype Kind<!V> = Kind(ignore: V -> bool, equals: (V, V) -> bool, collate: (V, V) -> V)

  /** setIteminReport, and setDefaultIteminReport, which compares nothing. */
  datatype Event<V> = Set(item: Item<V>) | SetDefault(item: Item<V>)

  // ----- The vector ----------------------------------------------------------------------------

  function Pushed<V>(report: seq<Item<V>>, s: Item<V>, maxItem: nat): seq<Item<V>> {
    var longer := report + [s];
    if |longer| > maxItem then longer[1..] else longer
  }

  /** The vector after setIteminReport, and the answer whether there is anything new. */
  function AfterSet<V>(kind: Kind<V>, report: seq<Item<V>>, s: Item<V>, maxItem: nat): (seq<Item<V>>, bool) {
    if kind.ignore(s.value) then (report, false)
    else if report == [] then (Pushed(report, s, maxItem), true)
    else
      var back := report[|report| - 1];
      var collated := s.(value := kind.collate(s.value, back.value));
      if kind.equals(back.value, collated.value) then
        (report[|report| - 1 := back.(utcReported := s.utcReported)], false)
      else (Pushed(report, collated, maxItem), true)
  }

  function Step<V>(kind: Kind<V>, report: seq<Item<V>>, e: Event<V>, maxItem: nat): seq<Item<V>> {
    match e
    case Set(item) => AfterSet(kind, report, item, maxItem).0
    case SetDefault(item) => Pushed(report, item, maxItem)
  }

  function Stored<V>(kind: Kind<V>, es: seq<Event<V>>, maxItem: nat): seq<Item<V>> {
    if es == [] then [] else Step(kind, Stored(kind, es[..|es| - 1], maxItem), es[|es| - 1], maxItem)
  }

  // ----- The unbounded log ---------------------------------------------------------------------

  /** The log without a bound: an item that equals the newest only brings its time. */
  function Log<V>(kind: Kind<V>, es: seq<Event<V>>): seq<Item<V>> {
    if es == [] then []
    else
      var log := Log(kind, es[..|es| - 1]);
      match es[|es| - 1]
      case SetDefault(item) => log + [item]
      case Set(item) =>
        if kind.ignore(item.value) then log
        else if log == [] then [item]
        else
          var back := log[|log| - 1];
          var value := kind.collate(item.value, back.value);
          if kind.equals(back.value, value) then log[..|log| - 1] + [back.(utcReported := item.utcReported)]
          else log + [item.(value := value)]
  }

  function Last<V>(log: seq<Item<V>>, n: nat): seq<Item<V>> {
    if |log| <= n then log else log[|log| - n..]
  }

  lemma PushedLast<V>(log: seq<Item<V>>, s: Item<V>, maxItem: nat)
    requires maxItem > 0
    ensures Pushed(Last(log, maxItem), s, maxItem) == Last(log + [s], maxItem)
  {
  }

  lemma TouchedLast<V>(log: seq<Item<V>>, s: Item<V>, maxItem: nat)
    requires maxItem > 0 && log != []
    ensures
      var last := Last(log, maxItem);
      && last != [] && last[|last| - 1] == log[|log| - 1]
      && last[|last| - 1 := s] == Last(log[..|log| - 1] + [s], maxItem)
  {
  }

  /** After any sequence of reports the vector is the newest part of the log. */
  lemma {:induction false} StoredIsLastOfLog<V>(kind: Kind<V>, es: seq<Event<V>>, maxItem: nat)
    requires maxItem > 0
    ensures Stored(kind, es, maxItem) == Last(Log(kind, es), maxItem)
  {
    if es != [] {
      var front, e := es[..|es| - 1], es[|es| - 1];
      var log := Log(kind, front);
      StoredIsLastOfLog(kind, front, maxItem);
      if e.Set? && log != [] {
        var back := log[|log| - 1];
        TouchedLast(log, back.(utcReported := e.item.utcReported), maxItem);
        PushedLast(log, e.item.(value := kind.collate(e.item.value, back.value)), maxItem);
      } else {
        PushedLast(log, e.item, maxItem);
      }
    }
  }

  /** The vector of an item of the cache holds the five newest entries of the log, or all if there are fewer. */
  lemma FiveAreStored<V>(kind: Kind<V>, es: seq<Event<V>>)
    ensures
      var stored, log := Stored(kind, es, MAX_ITEM), Log(kind, es);
      |stored| == (if |log| < 5 then |log| else 5) && stored == log[|log| - |stored|..]
  {
    StoredIsLastOfLog(kind, es, MAX_ITEM);
  }

  /** Reading the latest entry of the vector is reading that of the log. */
  lemma LatestIsLastOfLog<V>(kind: Kind<V>, es: seq<Event<V>>, maxItem: nat)
    requires maxItem > 0
    ensures Last(Stored(kind, es, maxItem), 1) == Last(Log(kind, es), 1)
  {
    StoredIsLastOfLog(kind, es, maxItem);
  }

  /** The answer is true if and only if the log grows; it grows by one entry or not at all. */
  lemma AnswerIffLogGrows<V>(kind: Kind<V>, es: seq<Event<V>>, s: Item<V>, maxItem: nat)
    requires maxItem > 0
    ensures
      var updated := AfterSet(kind, Stored(kind, es, maxItem), s, maxItem).1;
      |Log(kind, es + [Set(s)])| == |Log(kind, es)| + if updated then 1 else 0
  {
    SameNewest(kind, es, maxItem);
    assert (es + [Set(s)])[..|es|] == es;
  }

  lemma SameNewest<V>(kind: Kind<V>, es: seq<Event<V>>, maxItem: nat)
    requires maxItem > 0
    ensures
      var stored, log := Stored(kind, es, maxItem), Log(kind, es);
      if log == [] then stored == [] else stored != [] && stored[|stored| - 1] == log[|log| - 1]
  {
    StoredIsLastOfLog(kind, es, maxItem);
  }

  // ----- What the newest entry says ------------------------------------------------------------

  /** The items that are not ignored. */
  function Kept<V>(kind: Kind<V>, es: seq<Event<V>>): seq<Item<V>> {
    if es == [] then []
    else
      var e := es[|es| - 1];
      Kept(kind, es[..|es| - 1]) + if e.Set? && kind.ignore(e.item.value) then [] else [e.item]
  }

  /** The newest entry carries the time of the newest report that was not ignored. */
  lemma {:induction false} NewestTime<V>(kind: Kind<V>, es: seq<Event<V>>, maxItem: nat)
    requires maxItem > 0
    ensures
      var stored, kept := Stored(kind, es, maxItem), Kept(kind, es);
      && (stored == [] <==> kept == [])
      && (stored != [] ==> stored[|stored| - 1].utcReported == kept[|kept| - 1].utcReported)
  {
    if es != [] {
      NewestTime(kind, es[..|es| - 1], maxItem);
    }
  }

  // ----- The log as runs of equal items --------------------------------------------------------

  /** The length of the longest prefix of items that equal `value`. */
  function Alike<V>(kind: Kind<V>, value: V, items: seq<Item<V>>): (n: nat)
    ensures n <= |items|
    ensures forall i :: 0 <= i < n ==> kind.equals(value, items[i].value)
    ensures n < |items| ==> !kind.equals(value, items[n].value)
  {
    if items == [] || !kind.equals(value, items[0].value) then 0 else 1 + Alike(kind, value, items[1..])
  }

  /** One entry for each run of items that equal its first one: that item, with the time of the last. */
  function Runs<V>(kind: Kind<V>, items: seq<Item<V>>): seq<Item<V>>
    decreases |items|
  {
    if items == [] then []
    else
      var n := Alike(kind, items[0].value, items[1..]);
      [items[0].(utcReported := items[n].utcReported)] + Runs(kind, items[n + 1..])
  }

  lemma RunOfOne<V>(kind: Kind<V>, s: Item<V>)
    ensures Runs(kind, [s]) == [s]
  {
  }

  lemma {:induction false} AlikeGrows<V>(kind: Kind<V>, value: V, items: seq<Item<V>>, s: Item<V>)
    ensures
      var n := Alike(kind, value, items);
      Alike(kind, value, items + [s]) == if n == |items| && kind.equals(value, s.value) then n + 1 else n
  {
    if items != [] {
      AlikeGrows(kind, value, items[1..], s);
      assert (items + [s])[1..] == items[1..] + [s];
    } else {
      assert items + [s] == [s];
    }
  }

  /** The runs of `items`, given the length of the first. */
  lemma FirstRun<V>(kind: Kind<V>, items: seq<Item<V>>, n: nat)
    requires items != [] && n == Alike(kind, items[0].value, items[1..])
    ensures Runs(kind, items) == [items[0].(utcReported := items[n].utcReported)] + Runs(kind, items[n + 1..])
  {
  }

  function Grown<V>(kind: Kind<V>, runs: seq<Item<V>>, s: Item<V>): seq<Item<V>>
    requires runs != []
  {
    var back := runs[|runs| - 1];
    if kind.equals(back.value, s.value) then runs[..|runs| - 1] + [back.(utcReported := s.utcReported)] else runs + [s]
  }

  lemma GrownAfter<V>(kind: Kind<V>, first: Item<V>, runs: seq<Item<V>>, s: Item<V>)
    requires runs != []
    ensures Grown(kind, [first] + runs, s) == [first] + Grown(kind, runs, s)
  {
  }

  lemma LastRunGrows<V>(kind: Kind<V>, items: seq<Item<V>>, s: Item<V>)
    requires items != [] && Alike(kind, items[0].value, items[1..]) == |items| - 1
    ensures Runs(kind, items) != [] && Runs(kind, items + [s]) == Grown(kind, Runs(kind, items), s)
  {
    var first, rest, n := items[0], items[1..], |items| - 1;
    AlikeGrows(kind, first.value, rest, s);
    assert (items + [s])[1..] == rest + [s];
    FirstRun(kind, items, n);
    assert items[n + 1..] == [];
    if kind.equals(first.value, s.value) {
      FirstRun(kind, items + [s], n + 1);
      assert (items + [s])[n + 2..] == [];
    } else {
      FirstRun(kind, items + [s], n);
      assert (items + [s])[n + 1..] == [s];
      RunOfOne(kind, s);
    }
  }

  /** One more item at the end continues the last run, or starts a new one. */
  lemma {:induction false} RunsGrow<V>(kind: Kind<V>, items: seq<Item<V>>, s: Item<V>)
    requires items != []
    ensures Runs(kind, items) != [] && Runs(kind, items + [s]) == Grown(kind, Runs(kind, items), s)
    decreases |items|
  {
    var n := Alike(kind, items[0].value, items[1..]);
    if n == |items| - 1 {
      LastRunGrows(kind, items, s);
    } else {
      var later := items[n + 1..];
      RunsGrow(kind, later, s);
      AlikeGrows(kind, items[0].value, items[1..], s);
      assert (items + [s])[1..] == items[1..] + [s] && (items + [s])[n + 1..] == later + [s];
      FirstRun(kind, items, n);
      FirstRun(kind, items + [s], n);
      GrownAfter(kind, items[0].(utcReported := items[n].utcReported), Runs(kind, later), s);
    }
  }

  function AllSet<V>(items: seq<Item<V>>): seq<Event<V>> {
    seq(|items|, i requires 0 <= i < |items| => Set(items[i]))
  }

  lemma AllSetSplits<V>(items: seq<Item<V>>)
    requires items != []
    ensures
      var es := AllSet(items);
      es != [] && es[..|es| - 1] == AllSet(items[..|items| - 1]) && es[|es| - 1] == Set(items[|items| - 1])
  {
  }

  /** For a type that does not collate, the log has one entry for each run of equal items that are not
      ignored. */
  lemma {:induction false} LogIsRuns<V(!new)>(kind: Kind<V>, items: seq<Item<V>>)
    requires forall v, w :: kind.collate(v, w) == v
    ensures Log(kind, AllSet(items)) == Runs(kind, Kept(kind, AllSet(items)))
  {
    if items != [] {
      var front, s := items[..|items| - 1], items[|items| - 1];
      LogIsRuns(kind, front);
      AllSetSplits(items);
      var log, kept := Log(kind, AllSet(front)), Kept(kind, AllSet(front));
      if kind.ignore(s.value) {
        assert Kept(kind, AllSet(items)) == kept;
      } else {
        assert Kept(kind, AllSet(items)) == kept + [s];
        if kept == [] {
          RunOfOne(kind, s);
          assert kept + [s] == [s];
        } else {
          RunsGrow(kind, kept, s);
          assert s.(value := kind.collate(s.value, log[|log| - 1].value)) == s;
        }
      }
    }
  }

  // ----- The class -----------------------------------------------------------------------------

  /** One of the vectors of SystemStatus::mCache. */
  class Cache<V> {
    const kind: Kind<V>
    const maxItem: nat
    var report: seq<Item<V>>

    constructor (kind: Kind<V>)
      ensures this.kind == kind && maxItem == MAX_ITEM && report == Stored(kind, [], MAX_ITEM)
    {
      this.kind, maxItem, report := kind, MAX_ITEM, [];
    }

    method PushBack(s: Item<V>)
      modifies this`report
      ensures report == Pushed(old(report), s, maxItem)
    {
      report := report + [s];
      if |report| > maxItem {
        report := report[1..];
      }
    }

    method SetItemInReport(item: Item<V>) returns (updated: bool)
      modifies this`report
      ensures (report, updated) == AfterSet(kind, old(report), item, maxItem)
    {
      var s := item;
      if kind.ignore(s.value) {
        return false;
      }
      if |report| > 0 {
        var back := report[|report| - 1];
        s := s.(value := kind.collate(s.value, back.value));
        if kind.equals(back.value, s.value) {
          report := report[|report| - 1 := back.(utcReported := s.utcReported)];
          return false;
        }
      }
      PushBack(s);
      updated := true;
    }

    method SetDefaultItemInReport(item: Item<V>)
      modifies this`report
      ensures report == Step(kind, old(report), SetDefault(item), maxItem)
    {
      PushBack(item);
    }

    /** The latest entry alone, if there is one. */
    method GetItemInReport() returns (reportout: seq<Item<V>>)
      ensures reportout == Last(report, 1)
    {
      reportout := [];
      if |report| >= 1 {
        reportout := reportout + [report[|report| - 1]];
      }
    }
  }
}
