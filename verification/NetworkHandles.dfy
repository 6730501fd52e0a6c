/** The table of network handles that gps/core/SystemStatus.h collates from report to report. */
module NetworkHandles {
  import opened Sequences

  const NETWORK_HANDLE_UNKNOWN: nat := 0xFFFF_FFFF_FFFF_FFFF
  const TYPE_MOBILE := 0
  const TYPE_UNKNOWN := 10

  /** NetworkInfoType */
  datatype Entry = Entry(handle: nat, networkType: int)

  const FREE := Entry(NETWORK_HANDLE_UNKNOWN, TYPE_UNKNOWN)

  /** The types as a set of bits; see typeToAllTypes. */
  function Bits(t: int): set<int> {
    if t >= TYPE_UNKNOWN || t < TYPE_MOBILE then {} else {t}
  }

  /** SystemStatusNetworkInfo */
  datatype Info = Info(allTypes: set<int>, networkType: int, connected: bool, handle: nat, table: seq<Entry>)

  /** What the framework reports. */
  datatype Report = Report(networkType: int, connected: bool, handle: nat)

  // ----- The table -----------------------------------------------------------------------------

  /** The number of entries before the first unknown handle. */
  function Count(table: seq<Entry>): (n: nat)
    ensures n <= |table| && (n < |table| ==> table[n].handle == NETWORK_HANDLE_UNKNOWN)
    ensures forall i :: 0 <= i < n ==> table[i].handle != NETWORK_HANDLE_UNKNOWN
  {
    if table == [] || table[0].handle == NETWORK_HANDLE_UNKNOWN then 0 else 1 + Count(table[1..])
  }

  function Fill(size: nat): (table: seq<Entry>)
    ensures |table| == size && forall i :: 0 <= i < size ==> table[i] == FREE
  {
    if size == 0 then [] else [FREE] + Fill(size - 1)
  }

  function Insert(table: seq<Entry>, e: Entry): (r: seq<Entry>)
    ensures |r| == |table|
  {
    if table == [] || table[0].handle == e.handle then table
    else if table[0].handle == NETWORK_HANDLE_UNKNOWN then [e] + table[1..]
    else [table[0]] + Insert(table[1..], e)
  }

  /** The last of the first `n` places that holds `e`, or |table|. */
  function LastOf(table: seq<Entry>, n: nat, e: Entry): (d: nat)
    requires n <= |table|
    ensures d == |table| || (d < n && table[d] == e)
    ensures d == |table| ==> forall i :: 0 <= i < n ==> table[i] != e
  {
    if n == 0 then |table| else if table[n - 1] == e then n - 1 else LastOf(table, n - 1, e)
  }

  /** The last entry takes the place of the one that goes. */
  function Remove(table: seq<Entry>, e: Entry): (r: seq<Entry>)
    ensures |r| == |table|
  {
    var n := Count(table);
    var d := LastOf(table, n, e);
    if d == |table| then table else table[d := table[n - 1]][n - 1 := FREE]
  }

  /** The entries of type `t` with another handle, among the first `n`. */
  function Others(table: seq<Entry>, n: nat, t: int, handle: nat): nat
    requires n <= |table|
  {
    if n == 0 then 0
    else
      Others(table, n - 1, t, handle) +
      if table[n - 1].networkType == t && table[n - 1].handle != handle then 1 else 0
  }

  // ----- What a report does --------------------------------------------------------------------

  /** The constructors: a new item's table holds the item itself, whether it is connected or not. */
  function Fresh(r: Report, size: nat): Info
    requires size > 0
  {
    Info(Bits(r.networkType), r.networkType, r.connected, r.handle,
         [Entry(r.handle, r.networkType)] + Fill(size - 1))
  }

  function Collated(item: Info, cur: Info): Info {
    var e := Entry(item.handle, item.networkType);
    if item.connected then item.(allTypes := item.allTypes + cur.allTypes, table := Insert(cur.table, e))
    else if item.allTypes == {} then item.(table := cur.table)
    else
      item.(
        table := Remove(cur.table, e),
        allTypes := if Others(cur.table, Count(cur.table), item.networkType, item.handle) == 0
                    then cur.allTypes - item.allTypes else item.allTypes)
  }

  predicate SameReport(a: Info, b: Info) {
    a.connected == b.connected && a.table == b.table
  }

  /** setIteminReport on the newest item: the first report is taken as it is. */
  function Reported(reports: seq<Report>, size: nat): Info
    requires reports != [] && size > 0
  {
    var item := Fresh(reports[|reports| - 1], size);
    if |reports| == 1 then item
    else
      var cur := Reported(reports[..|reports| - 1], size);
      var s := Collated(item, cur);
      if SameReport(cur, s) then cur else s
  }

  // ----- The table as a set --------------------------------------------------------------------

  /** The handles form a prefix without gap or duplicate. */
  predicate Compact(table: seq<Entry>) {
    && (forall i :: Count(table) <= i < |table| ==> table[i].handle == NETWORK_HANDLE_UNKNOWN)
    && (forall i, j :: 0 <= i < j < Count(table) ==> table[i].handle != table[j].handle)
  }

  function Elements(es: seq<Entry>): set<Entry> {
    set e | e in es
  }

  function Entries(table: seq<Entry>): set<Entry> {
    Elements(table[..Count(table)])
  }

  predicate HasHandle(entries: set<Entry>, handle: nat) {
    exists e :: e in entries && e.handle == handle
  }

  predicate Present(es: seq<Entry>, handle: nat) {
    exists e :: e in es && e.handle == handle
  }

  lemma CountIs(table: seq<Entry>, n: nat)
    requires n <= |table| && (n < |table| ==> table[n].handle == NETWORK_HANDLE_UNKNOWN)
    requires forall i :: 0 <= i < n ==> table[i].handle != NETWORK_HANDLE_UNKNOWN
    ensures Count(table) == n
  {
  }

  lemma {:induction false} ElementsCount(es: seq<Entry>)
    requires forall i, j :: 0 <= i < j < |es| ==> es[i].handle != es[j].handle
    ensures |Elements(es)| == |es|
  {
    if es != [] {
      var front, last := es[..|es| - 1], es[|es| - 1];
      ElementsCount(front);
      assert es == front + [last];
      assert Elements(es) == Elements(front) + {last};
      assert last !in Elements(front);
    }
  }

  lemma PresentLater(first: Entry, es: seq<Entry>, rest: seq<Entry>, handle: nat)
    requires es == [first] + rest && first.handle != handle
    ensures Present(es, handle) <==> Present(rest, handle)
  {
  }

  lemma {:induction false} InsertAt(table: seq<Entry>, e: Entry)
    ensures
      var n := Count(table);
      Insert(table, e) ==
      if e.handle == NETWORK_HANDLE_UNKNOWN || n == |table| || Present(table[..n], e.handle) then table
      else table[n := e]
  {
    if table == [] || table[0].handle == NETWORK_HANDLE_UNKNOWN {
      assert Insert(table, e) == if table == [] || table[0].handle == e.handle then table else [e] + table[1..];
    } else if table[0].handle == e.handle {
      assert table[0] in table[..Count(table)];
    } else {
      var rest, n := table[1..], Count(table[1..]);
      InsertAt(rest, e);
      assert Count(table) == n + 1;
      PresentLater(table[0], table[..n + 1], rest[..n], e.handle);
      UpdateLater(table, n, e);
    }
  }

  lemma UpdateLater(table: seq<Entry>, n: nat, e: Entry)
    requires table != [] && n <= |table[1..]|
    ensures [table[0]] + table[1..] == table
    ensures n < |table[1..]| ==> [table[0]] + table[1..][n := e] == table[n + 1 := e]
  {
  }

  lemma InsertKeepsCompact(table: seq<Entry>, e: Entry)
    requires Compact(table)
    ensures Compact(Insert(table, e))
    ensures
      Insert(table, e) == table ||
      (Count(table) < |table| && Count(Insert(table, e)) == Count(table) + 1
       && Insert(table, e) == table[Count(table) := e])
  {
    var n, out := Count(table), Insert(table, e);
    InsertAt(table, e);
    if out != table {
      CountIs(out, n + 1);
      forall i | 0 <= i < n
        ensures table[i].handle != e.handle
      {
        assert table[i] in table[..n];
      }
    }
  }

  /** A connection is inserted if its handle is known and absent and there is room. */
  lemma InsertAsSet(table: seq<Entry>, e: Entry)
    requires Compact(table)
    ensures
      Entries(Insert(table, e)) ==
      if e.handle == NETWORK_HANDLE_UNKNOWN || HasHandle(Entries(table), e.handle) || |Entries(table)| == |table|
      then Entries(table) else Entries(table) + {e}
  {
    var n, out := Count(table), Insert(table, e);
    InsertAt(table, e);
    InsertKeepsCompact(table, e);
    ElementsCount(table[..n]);
    assert Present(table[..n], e.handle) <==> HasHandle(Entries(table), e.handle);
    if n < |table| {
      assert table[n := e][..n + 1] == table[..n] + [e];
    }
  }

  lemma RemoveKeepsCompact(table: seq<Entry>, e: Entry)
    requires Compact(table)
    ensures Compact(Remove(table, e))
    ensures e in table[..Count(table)] ==> Count(Remove(table, e)) == Count(table) - 1
    ensures e !in table[..Count(table)] ==> Remove(table, e) == table
  {
    var n, out := Count(table), Remove(table, e);
    if LastOf(table, n, e) < |table| {
      CountIs(out, n - 1);
    }
  }

  /** A disconnection removes exactly its entry. */
  lemma RemoveAsSet(table: seq<Entry>, e: Entry)
    requires Compact(table)
    ensures Entries(Remove(table, e)) == Entries(table) - {e}
  {
    var n, out := Count(table), Remove(table, e);
    RemoveKeepsCompact(table, e);
    if e in table[..n] {
      var d := LastOf(table, n, e);
      assert d < n && out == table[d := table[n - 1]][n - 1 := FREE];
      forall x
        ensures x in out[..n - 1] <==> x in table[..n] && x != e
      {
        if x in table[..n] && x != e {
          var i :| 0 <= i < n && table[i] == x;
          assert x == if i == n - 1 then out[..n - 1][d] else out[..n - 1][i];
        }
        if x in out[..n - 1] {
          var i :| 0 <= i < n - 1 && out[i] == x;
          assert x == if i == d then table[..n][n - 1] else table[..n][i];
        }
      }
    }
  }

  // ----- Runs of reports -----------------------------------------------------------------------

  function Joined(known: set<Entry>, e: Entry, size: nat): set<Entry> {
    if e.handle == NETWORK_HANDLE_UNKNOWN || HasHandle(known, e.handle) || |known| == size then known else known + {e}
  }

  /** The handles as a bounded set. The first report counts as a connection; a disconnection of unknown type
      is ignored. */
  function Known(reports: seq<Report>, size: nat): set<Entry>
    requires reports != []
  {
    var r := reports[|reports| - 1];
    var e := Entry(r.handle, r.networkType);
    if |reports| == 1 then if r.handle == NETWORK_HANDLE_UNKNOWN then {} else {e}
    else
      var known := Known(reports[..|reports| - 1], size);
      if r.connected then Joined(known, e, size) else if Bits(r.networkType) == {} then known else known - {e}
  }

  lemma FreshTable(r: Report, size: nat)
    requires size > 0
    ensures
      var table := Fresh(r, size).table;
      && |table| == size && Compact(table)
      && Entries(table) == if r.handle == NETWORK_HANDLE_UNKNOWN then {} else {Entry(r.handle, r.networkType)}
  {
    var table := Fresh(r, size).table;
    CountIs(table, if r.handle == NETWORK_HANDLE_UNKNOWN then 0 else 1);
    assert table[..0] == [] && table[..1] == [Entry(r.handle, r.networkType)];
  }

  lemma CollatedTable(r: Report, size: nat, cur: Info)
    requires size > 0 && |cur.table| == size && Compact(cur.table)
    ensures
      var e, known, s := Entry(r.handle, r.networkType), Entries(cur.table), Collated(Fresh(r, size), cur);
      && |s.table| == size && Compact(s.table)
      && Entries(s.table) ==
         if r.connected then Joined(known, e, size) else if Bits(r.networkType) == {} then known else known - {e}
  {
    var e := Entry(r.handle, r.networkType);
    InsertKeepsCompact(cur.table, e);
    InsertAsSet(cur.table, e);
    RemoveKeepsCompact(cur.table, e);
    RemoveAsSet(cur.table, e);
  }

  /** In every run of reports the table is a gap-free list of the known handles, each once. */
  lemma {:induction false} TableInEveryRun(reports: seq<Report>, size: nat)
    requires reports != [] && size > 0
    ensures
      var table := Reported(reports, size).table;
      |table| == size && Compact(table) && Entries(table) == Known(reports, size)
  {
    var r, front := reports[|reports| - 1], reports[..|reports| - 1];
    if |reports| == 1 {
      FreshTable(r, size);
    } else {
      TableInEveryRun(front, size);
      CollatedTable(r, size, Reported(front, size));
    }
  }

  /** A first report is in the table if its handle is known, even when it says that the handle is gone. */
  lemma FirstReportIsKept(r: Report, size: nat)
    requires size > 0
    ensures Entry(r.handle, r.networkType) in Entries(Reported([r], size).table) <==> r.handle != NETWORK_HANDLE_UNKNOWN
  {
    TableInEveryRun([r], size);
  }

  /** Any other disconnection, after the first report, takes its entry out: the types from 0 to 9 have bits. */
  lemma TypedGoes(reports: seq<Report>, r: Report, size: nat)
    requires reports != [] && size > 0 && !r.connected && 0 <= r.networkType < 10
    ensures
      Entries(Reported(reports + [r], size).table) ==
      Entries(Reported(reports, size).table) - {Entry(r.handle, r.networkType)}
  {
    TableInEveryRun(reports, size);
    TableInEveryRun(reports + [r], size);
    assert (reports + [r])[..|reports|] == reports;
  }

  /** A handle of a type without a bit, below 0 or from TYPE_UNKNOWN, 10, on, stays in the table for good. */
  lemma {:induction false} UntypedStays(reports: seq<Report>, more: seq<Report>, size: nat, e: Entry)
    requires reports != [] && size > 0 && e in Entries(Reported(reports, size).table)
    requires e.networkType < 0 || e.networkType >= 10
    ensures e in Entries(Reported(reports + more, size).table)
  {
    TableInEveryRun(reports, size);
    TableInEveryRun(reports + more, size);
    if more == [] {
      assert reports + more == reports;
    } else {
      var front := more[..|more| - 1];
      UntypedStays(reports, front, size, e);
      TableInEveryRun(reports + front, size);
      assert (reports + more)[..|reports + more| - 1] == reports + front;
    }
  }

  // ----- The types -----------------------------------------------------------------------------

  function TypesOf(entries: set<Entry>): set<int> {
    set e | e in entries && Bits(e.networkType) != {} :: e.networkType
  }

  /** The mask of types is that of the handles in the table. */
  predicate TypesExact(info: Info) {
    info.allTypes == TypesOf(Entries(info.table))
  }

  lemma {:induction false} OthersCount(table: seq<Entry>, n: nat, t: int, handle: nat)
    requires n <= |table|
    ensures
      Others(table, n, t, handle) == 0 <==>
      forall e :: e in table[..n] && e.networkType == t ==> e.handle == handle
  {
    if n > 0 {
      OthersCount(table, n - 1, t, handle);
      assert table[..n] == table[..n - 1] + [table[n - 1]];
    }
  }

  /** After a connection the types are exact if and only if the handle went in or its type was there. */
  lemma ConnectTypesExactIff(r: Report, size: nat, cur: Info)
    requires size > 0 && |cur.table| == size && Compact(cur.table) && TypesExact(cur) && r.connected
    ensures
      var e, known := Entry(r.handle, r.networkType), Entries(cur.table);
      TypesExact(Collated(Fresh(r, size), cur)) <==>
      Joined(known, e, size) != known || Bits(r.networkType) <= cur.allTypes
  {
    var e, known := Entry(r.handle, r.networkType), Entries(cur.table);
    CollatedTable(r, size, cur);
    assert TypesOf(known + {e}) == TypesOf(known) + Bits(r.networkType);
  }

  lemma TypesWithout(known: set<Entry>, e: Entry)
    requires Bits(e.networkType) != {} && forall x :: x in known - {e} ==> x.networkType != e.networkType
    ensures TypesOf(known - {e}) == TypesOf(known) - {e.networkType}
  {
  }

  lemma TypesOnlyIff(left: set<Entry>, t: int)
    requires Bits(t) == {t} && exists x :: x in left && x.networkType == t
    ensures {t} == TypesOf(left) <==> forall y :: y in left ==> Bits(y.networkType) <= {t}
  {
  }

  predicate OthersLeft(known: set<Entry>, e: Entry) {
    exists x :: x in known && x.networkType == e.networkType && x.handle != e.handle
  }

  lemma DisconnectedTypes(r: Report, size: nat, cur: Info)
    requires size > 0 && !r.connected && Bits(r.networkType) != {}
    ensures
      var e, known := Entry(r.handle, r.networkType), Entries(cur.table);
      Collated(Fresh(r, size), cur).allTypes ==
      if OthersLeft(known, e) then {r.networkType} else cur.allTypes - {r.networkType}
  {
    OthersCount(cur.table, Count(cur.table), r.networkType, r.handle);
  }

  /** A disconnection keeps the mask of types exact: if its type has no bit, when no types were there; otherwise
      when no other handle of the type is left, or no handle of another type. */
  predicate DisconnectsExactly(r: Report, cur: Info) {
    if Bits(r.networkType) == {} then cur.allTypes == {}
    else
      var left := Entries(cur.table) - {Entry(r.handle, r.networkType)};
      || (forall e :: e in left ==> e.networkType != r.networkType)
      || (forall e :: e in left ==> Bits(e.networkType) <= {r.networkType})
  }

  /** After a disconnection the types are exact if and only if it is such a one. */
  lemma DisconnectTypesExactIff(r: Report, size: nat, cur: Info)
    requires size > 0 && |cur.table| == size && Compact(cur.table) && TypesExact(cur) && !r.connected
    ensures TypesExact(Collated(Fresh(r, size), cur)) <==> DisconnectsExactly(r, cur)
  {
    var e, known := Entry(r.handle, r.networkType), Entries(cur.table);
    CollatedTable(r, size, cur);
    if Bits(r.networkType) != {} {
      DisconnectedTypes(r, size, cur);
      if OthersLeft(known, e) {
        var x :| x in known && x.networkType == e.networkType && x.handle != e.handle;
        assert x in known - {e};
        TypesOnlyIff(known - {e}, r.networkType);
      } else {
        TypesWithout(known, e);
      }
    }
  }

  /** The item after one more report, when it is not the same as the newest. */
  lemma OneMoreReport(reports: seq<Report>, r: Report, size: nat)
    requires reports != [] && size > 0
    ensures
      var cur := Reported(reports, size);
      var s := Collated(Fresh(r, size), cur);
      Reported(reports + [r], size) == if SameReport(cur, s) then cur else s
  {
    assert (reports + [r])[..|reports|] == reports;
  }

  lemma AsManyEntries(table: seq<Entry>)
    requires Compact(table)
    ensures |Entries(table)| == Count(table)
  {
    ElementsCount(table[..Count(table)]);
  }

  lemma InsertedIff(table: seq<Entry>, e: Entry)
    requires Compact(table)
    ensures Insert(table, e) == table <==> Joined(Entries(table), e, |table|) == Entries(table)
  {
    var out := Insert(table, e);
    InsertKeepsCompact(table, e);
    AsManyEntries(table);
    AsManyEntries(out);
    assert Entries(out) == Joined(Entries(table), e, |table|) by {
      InsertAsSet(table, e);
    }
  }

  lemma RemovedIff(table: seq<Entry>, e: Entry)
    requires Compact(table)
    ensures Remove(table, e) == table <==> e !in Entries(table)
  {
    RemoveKeepsCompact(table, e);
  }

  /** A report keeps the stored mask exact: a connection when one is there already, when its handle goes in, or when
      its type is there; a disconnection as above, or when nothing is connected and nothing is removed. */
  predicate KeepsTypes(cur: Info, r: Report) {
    var e, known := Entry(r.handle, r.networkType), Entries(cur.table);
    if r.connected then
      cur.connected || Joined(known, e, |cur.table|) != known || Bits(r.networkType) <= cur.allTypes
    else
      DisconnectsExactly(r, cur) || (!cur.connected && (Bits(r.networkType) == {} || e !in known))
  }

  lemma SameReportIff(cur: Info, r: Report, size: nat)
    requires size > 0 && |cur.table| == size && Compact(cur.table)
    ensures
      var e, known := Entry(r.handle, r.networkType), Entries(cur.table);
      SameReport(cur, Collated(Fresh(r, size), cur)) <==>
      if r.connected then cur.connected && Joined(known, e, size) == known
      else !cur.connected && (Bits(r.networkType) == {} || e !in known)
  {
    InsertedIff(cur.table, Entry(r.handle, r.networkType));
    RemovedIff(cur.table, Entry(r.handle, r.networkType));
  }

  /** The item that is stored after one more report, which may be the old one, has the exact types if and only if the
      report is such a one. */
  lemma StoredTypesExactIff(reports: seq<Report>, r: Report, size: nat)
    requires reports != [] && size > 0 && TypesExact(Reported(reports, size))
    ensures TypesExact(Reported(reports + [r], size)) <==> KeepsTypes(Reported(reports, size), r)
  {
    var cur := Reported(reports, size);
    TableInEveryRun(reports, size);
    OneMoreReport(reports, r, size);
    SameReportIff(cur, r, size);
    if r.connected {
      ConnectTypesExactIff(r, size, cur);
    } else {
      DisconnectTypesExactIff(r, size, cur);
    }
  }

  /** Every report keeps the types, and the first one has a handle or no type. */
  predicate TypesKept(reports: seq<Report>, size: nat)
    requires reports != [] && size > 0
  {
    var r, front := reports[|reports| - 1], reports[..|reports| - 1];
    if front == [] then r.handle != NETWORK_HANDLE_UNKNOWN || Bits(r.networkType) == {}
    else TypesKept(front, size) && KeepsTypes(Reported(front, size), r)
  }

  lemma FirstTypes(r: Report, size: nat)
    requires size > 0 && (r.handle != NETWORK_HANDLE_UNKNOWN || Bits(r.networkType) == {})
    ensures TypesExact(Fresh(r, size))
  {
    FreshTable(r, size);
    assert TypesOf({Entry(r.handle, r.networkType)}) == Bits(r.networkType);
    assert TypesOf({}) == {};
  }

  lemma {:induction false} KeptTypesAreExact(reports: seq<Report>, size: nat)
    requires reports != [] && size > 0 && TypesKept(reports, size)
    ensures TypesExact(Reported(reports, size))
  {
    var r, front := reports[|reports| - 1], reports[..|reports| - 1];
    if front == [] {
      FirstTypes(r, size);
    } else {
      KeptTypesAreExact(front, size);
      assert front + [r] == reports;
      StoredTypesExactIff(front, r, size);
    }
  }

  /** In every such run the mask is that of the known handles. */
  lemma TypesInEveryRun(reports: seq<Report>, size: nat)
    requires reports != [] && size > 0 && TypesKept(reports, size)
    ensures Reported(reports, size).allTypes == TypesOf(Known(reports, size))
  {
    KeptTypesAreExact(reports, size);
    TableInEveryRun(reports, size);
  }

  // ----- Runs that lose the types --------------------------------------------------------------

  /** A mobile network goes, then a Wi-Fi connection finds the table full: its bit is set all the same. */
  lemma ConnectRun()
    ensures
      var info := Reported([Report(0, false, 7), Report(1, true, 8)], 1);
      info.allTypes == {0, 1} && info.table == [Entry(7, 0)] && !TypesExact(info)
  {
    var first, r := Report(0, false, 7), Report(1, true, 8);
    OneMoreReport([first], r, 1);
    assert [first] + [r] == [first, r];
    var cur := Reported([first], 1);
    assert cur.table == [Entry(7, 0)];
    assert Insert(cur.table, Entry(8, 1)) == cur.table;
    FreshTable(first, 1);
    assert 1 !in TypesOf({Entry(7, 0)});
  }

  lemma Append(table: seq<Entry>, n: nat, e: Entry)
    requires n < |table| && table[n].handle == NETWORK_HANDLE_UNKNOWN != e.handle
    requires forall i :: 0 <= i < n ==> table[i].handle != NETWORK_HANDLE_UNKNOWN && table[i].handle != e.handle
    ensures Insert(table, e) == table[n := e]
  {
    CountIs(table, n);
    InsertAt(table, e);
  }

  lemma ThreeConnected()
    ensures
      Reported([Report(0, true, 7), Report(1, true, 8), Report(0, true, 9)], 3) ==
      Info({0, 1}, 0, true, 9, [Entry(7, 0), Entry(8, 1), Entry(9, 0)])
  {
    var r1, r2, r3 := Report(0, true, 7), Report(1, true, 8), Report(0, true, 9);
    var e1, e2, e3 := Entry(7, 0), Entry(8, 1), Entry(9, 0);
    assert [r1] + [r2] == [r1, r2] && [r1, r2] + [r3] == [r1, r2, r3];
    OneMoreReport([r1], r2, 3);
    OneMoreReport([r1, r2], r3, 3);
    assert Reported([r1], 3).table == [e1, FREE, FREE];
    Append([e1, FREE, FREE], 1, e2);
    Append([e1, e2, FREE], 2, e3);
    assert [e1, FREE, FREE][1 := e2] == [e1, e2, FREE] && [e1, e2, FREE][2 := e3] == [e1, e2, e3];
  }

  lemma ThreeAreExact()
    ensures
      var cur := Info({0, 1}, 0, true, 9, [Entry(7, 0), Entry(8, 1), Entry(9, 0)]);
      Compact(cur.table) && TypesExact(cur) && Entries(cur.table) == {Entry(7, 0), Entry(8, 1), Entry(9, 0)}
  {
    var table := [Entry(7, 0), Entry(8, 1), Entry(9, 0)];
    CountIs(table, 3);
    assert table[..3] == table;
    assert Elements(table) == {Entry(7, 0), Entry(8, 1), Entry(9, 0)};
    assert TypesOf({Entry(7, 0), Entry(8, 1), Entry(9, 0)}) == {0, 1};
  }

  lemma OneMobileGoes(cur: Info)
    requires |cur.table| == 3 && Compact(cur.table) && TypesExact(cur)
    requires Entries(cur.table) == {Entry(7, 0), Entry(8, 1), Entry(9, 0)}
    ensures !TypesExact(Collated(Fresh(Report(0, false, 7), 3), cur))
  {
    DisconnectTypesExactIff(Report(0, false, 7), 3, cur);
    var left := Entries(cur.table) - {Entry(7, 0)};
    assert Entry(8, 1) in left && Entry(9, 0) in left;
  }

  /** Two mobile networks and one Wi-Fi; when the first goes, the bit of the Wi-Fi is lost. */
  lemma DisconnectRun()
    ensures
      var reports := [Report(0, true, 7), Report(1, true, 8), Report(0, true, 9)];
      TypesExact(Reported(reports, 3)) && !TypesExact(Reported(reports + [Report(0, false, 7)], 3))
  {
    var reports := [Report(0, true, 7), Report(1, true, 8), Report(0, true, 9)];
    var r := Report(0, false, 7);
    ThreeConnected();
    ThreeAreExact();
    OneMoreReport(reports, r, 3);
    OneMobileGoes(Reported(reports, 3));
  }

  /** A disconnection whose type has no bit empties the mask and leaves the table. */
  lemma UntypedDisconnectRun()
    ensures
      var info := Reported([Report(0, true, 7), Report(11, false, 9)], 2);
      info.allTypes == {} && Entry(7, 0) in Entries(info.table) && !TypesExact(info)
  {
    var first, r := Report(0, true, 7), Report(11, false, 9);
    OneMoreReport([first], r, 2);
    assert [first] + [r] == [first, r];
    FreshTable(first, 2);
    assert 0 in TypesOf({Entry(7, 0)});
  }

  lemma InsertStep(table: seq<Entry>, i: nat, e: Entry)
    requires i < |table| && Insert(table, e) == table[..i] + Insert(table[i..], e)
    ensures
      Insert(table, e) ==
      if table[i].handle == e.handle then table
      else if table[i].handle == NETWORK_HANDLE_UNKNOWN then table[i := e]
      else table[..i + 1] + Insert(table[i + 1..], e)
  {
    SplitAt(table, i);
    UpdateAt(table, i, e);
    UpdateAt(table, i, table[i]);
    Regroup(table[..i], [table[i]], Insert(table[i + 1..], e));
  }

  // ----- The class -----------------------------------------------------------------------------

  class SystemStatusNetworkInfo {
    var allTypes: set<int>
    var networkType: int
    var connected: bool
    var networkHandle: nat
    const allNetworkHandles: array<Entry>

    function Value(): Info
      reads this, allNetworkHandles
    {
      Info(allTypes, networkType, connected, networkHandle, allNetworkHandles[..])
    }

    constructor (r: Report, maxNetworkHandles: nat)
      requires maxNetworkHandles > 0
      ensures Value() == Fresh(r, maxNetworkHandles)
      ensures fresh(allNetworkHandles) && allNetworkHandles.Length == maxNetworkHandles
    {
      allTypes, networkType, connected, networkHandle := Bits(r.networkType), r.networkType, r.connected, r.handle;
      allNetworkHandles := new Entry[maxNetworkHandles](i => if i == 0 then Entry(r.handle, r.networkType) else FREE);
    }

    method Equals(peer: SystemStatusNetworkInfo) returns (rtv: bool)
      requires peer.allNetworkHandles.Length == allNetworkHandles.Length
      ensures rtv == SameReport(Value(), peer.Value())
    {
      rtv := peer.connected == connected;
      var i := 0;
      while rtv && i < allNetworkHandles.Length
        invariant 0 <= i <= allNetworkHandles.Length
        invariant rtv ==> connected == peer.connected && allNetworkHandles[..i] == peer.allNetworkHandles[..i]
        invariant !rtv ==> connected != peer.connected || allNetworkHandles[..] != peer.allNetworkHandles[..]
        decreases rtv, allNetworkHandles.Length - i
      {
        rtv := allNetworkHandles[i] == peer.allNetworkHandles[i];
        assert !rtv ==> allNetworkHandles[..][i] != peer.allNetworkHandles[..][i];
        i := i + 1;
      }
      assert i == allNetworkHandles.Length ==> allNetworkHandles[..i] == allNetworkHandles[..];
      assert i == allNetworkHandles.Length ==> peer.allNetworkHandles[..i] == peer.allNetworkHandles[..];
    }

    /** The loop of a connection. */
    method InsertHandle()
      modifies allNetworkHandles
      ensures allNetworkHandles[..] == Insert(old(allNetworkHandles[..]), Entry(networkHandle, networkType))
    {
      ghost var e, table := Entry(networkHandle, networkType), allNetworkHandles[..];
      for i := 0 to allNetworkHandles.Length
        invariant allNetworkHandles[..] == table
        invariant Insert(table, e) == table[..i] + Insert(table[i..], e)
      {
        InsertStep(table, i, e);
        if networkHandle == allNetworkHandles[i].handle {
          break;
        }
        if allNetworkHandles[i].handle == NETWORK_HANDLE_UNKNOWN {
          allNetworkHandles[i] := Entry(networkHandle, networkType);
          break;
        }
      }
    }

    /** The loop of a disconnection, which finds the entry, the number of entries, and the number of others
        of the same type. */
    method FindHandle() returns (deletedIndex: nat, lastValidIndex: nat, typeCount: nat)
      ensures lastValidIndex == Count(allNetworkHandles[..])
      ensures deletedIndex == LastOf(allNetworkHandles[..], lastValidIndex, Entry(networkHandle, networkType))
      ensures typeCount == Others(allNetworkHandles[..], lastValidIndex, networkType, networkHandle)
    {
      ghost var e, table := Entry(networkHandle, networkType), allNetworkHandles[..];
      deletedIndex, lastValidIndex, typeCount := allNetworkHandles.Length, 0, 0;
      while lastValidIndex < allNetworkHandles.Length
            && allNetworkHandles[lastValidIndex].handle != NETWORK_HANDLE_UNKNOWN
        invariant 0 <= lastValidIndex <= allNetworkHandles.Length
        invariant forall i :: 0 <= i < lastValidIndex ==> table[i].handle != NETWORK_HANDLE_UNKNOWN
        invariant deletedIndex == LastOf(table, lastValidIndex, e)
        invariant typeCount == Others(table, lastValidIndex, networkType, networkHandle)
      {
        if networkType == allNetworkHandles[lastValidIndex].networkType {
          if networkHandle == allNetworkHandles[lastValidIndex].handle {
            deletedIndex := lastValidIndex;
          } else {
            typeCount := typeCount + 1;
          }
        }
        lastValidIndex := lastValidIndex + 1;
      }
      CountIs(table, lastValidIndex);
    }

    method Collate(curInfo: SystemStatusNetworkInfo)
      requires curInfo.allNetworkHandles.Length == allNetworkHandles.Length
      requires curInfo != this && curInfo.allNetworkHandles != allNetworkHandles
      modifies this`allTypes, allNetworkHandles
      ensures Value() == Collated(old(Value()), curInfo.Value())
    {
      forall i | 0 <= i < allNetworkHandles.Length {
        allNetworkHandles[i] := curInfo.allNetworkHandles[i];
      }
      assert allNetworkHandles[..] == curInfo.allNetworkHandles[..];
      if connected {
        allTypes := allTypes + curInfo.allTypes;
        InsertHandle();
      } else if allTypes != {} {
        var deletedIndex, lastValidIndex, typeCount := FindHandle();
        if lastValidIndex > 0 {
          lastValidIndex := lastValidIndex - 1;
        }
        if deletedIndex != allNetworkHandles.Length {
          allNetworkHandles[deletedIndex] := allNetworkHandles[lastValidIndex];
          allNetworkHandles[lastValidIndex] := FREE;
        }
        if typeCount == 0 {
          allTypes := curInfo.allTypes - allTypes;
        }
      }
    }
  }
}
