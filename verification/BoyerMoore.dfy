/** The Boyer-Moore search of recovery/recovery_updater.cpp: the two shift tables, the values they
    hold, and what the search that uses them finds. */
module BoyerMoore {
  import opened Wrappers

  type Byte = x: int | 0 <= x < 256
  type Int32 = x: int | -0x8000_0000 <= x < 0x8000_0000

  const ALPHABET_LEN := 256

  // ----- What is searched for ------------------------------------------------------------------

  ghost predicate OccursAt(text: seq<Byte>, pat: seq<Byte>, w: nat) {
    w + |pat| <= |text| && text[w..w + |pat|] == pat
  }

  /** `r` is the first occurrence of `pat` at or after `from`, or None and there is no such. */
  ghost predicate IsLeftmost(text: seq<Byte>, pat: seq<Byte>, from: nat, r: Option<nat>) {
    match r
    case None => forall v :: from <= v ==> !OccursAt(text, pat, v)
    case Some(w) => from <= w && OccursAt(text, pat, w) && forall v :: from <= v < w ==> !OccursAt(text, pat, v)
  }

  /** The suffix of `pat` that starts at `q` is also a prefix of it. */
  predicate BorderAt(pat: seq<Byte>, q: nat)
    requires q <= |pat|
  {
    pat[q..] == pat[..|pat| - q]
  }

  /** Moved right by `s`, the pattern agrees with itself at position `k`. */
  predicate Agrees(pat: seq<Byte>, s: nat, k: nat) {
    s <= k < |pat| && pat[k - s] == pat[k]
  }

  ghost predicate Borderless(pat: seq<Byte>) {
    forall q :: 0 < q < |pat| ==> !BorderAt(pat, q)
  }

  ghost predicate AllEqual(pat: seq<Byte>) {
    forall k :: 0 < k < |pat| ==> pat[k] == pat[0]
  }

  ghost predicate NulFree(pat: seq<Byte>) {
    forall k :: 0 <= k < |pat| ==> pat[k] != 0
  }

  // ----- The tables ----------------------------------------------------------------------------

  /** strncmp(a, b, n) == 0: the comparison stops at a NUL byte the two share. */
  predicate StrncmpEqual(a: seq<Byte>, b: seq<Byte>, n: nat)
    requires n <= |a| && n <= |b|
  {
    n == 0 || (a[0] == b[0] && (a[0] == 0 || StrncmpEqual(a[1..], b[1..], n - 1)))
  }

  /** The longest suffix of `pat` that agrees with itself moved right by `s`, counted from length
      `i` and capped at `|pat| - 1 - s`. */
  function SuffixLen(pat: seq<Byte>, s: nat, i: nat): (n: nat)
    requires s < |pat| && i <= |pat| - 1 - s
    ensures i <= n <= |pat| - 1 - s
    ensures forall k :: |pat| - n <= k < |pat| - i ==> Agrees(pat, s, k)
    ensures n == |pat| - 1 - s || !Agrees(pat, s, |pat| - 1 - n)
    decreases |pat| - s - i
  {
    if i < |pat| - 1 - s && Agrees(pat, s, |pat| - 1 - i) then SuffixLen(pat, s, i + 1) else i
  }

  /** The distance from the last byte of `pat` back to the rightmost `c` in `pat[..n]`. */
  function Delta1(pat: seq<Byte>, c: Byte, n: nat): (d: nat)
    requires n < |pat|
    ensures |pat| - n <= d <= |pat|
    ensures d < |pat| ==> pat[|pat| - 1 - d] == c
    ensures forall k :: |pat| - 1 - d < k < n ==> pat[k] != c
  {
    if n == 0 then |pat| else if pat[n - 1] == c then |pat| - n else Delta1(pat, c, n - 1)
  }

  ghost predicate HoldsLastOccurrences(table: seq<int>, pat: seq<Byte>)
    requires |pat| > 0
  {
    |table| == ALPHABET_LEN && forall c: Byte :: table[c] == Delta1(pat, c, |pat| - 1)
  }

  /** `last_prefix` once the first loop of bm_make_delta2 has run down to `p`. */
  function LastPrefix(pat: seq<Byte>, p: nat): (s: nat)
    requires p <= |pat| && |pat| > 0
    ensures s <= |pat| && (p < |pat| ==> s > 0 || |pat| == 1)
    decreases |pat| - p
  {
    if p == |pat| then |pat| - 1
    else if StrncmpEqual(pat[p..], pat, |pat| - p) then p + 1
    else LastPrefix(pat, p + 1)
  }

  /** The second loop of bm_make_delta2 stores into entry `j` when it looks at `p`. */
  predicate Stores(pat: seq<Byte>, p: nat, j: nat)
    requires p < |pat| && j < |pat|
  {
    var n := SuffixLen(pat, |pat| - 1 - p, 0);
    j == |pat| - 1 - n && pat[p - n] != pat[j]
  }

  /** The shift the second loop has left for entry `j` after its first `n` rounds; 0 for none. */
  function StoredShift(pat: seq<Byte>, j: nat, n: nat): (s: nat)
    requires n < |pat| && j < |pat|
    ensures s <= j
  {
    if n == 0 then 0
    else if Stores(pat, n - 1, j) then |pat| - n
    else StoredShift(pat, j, n - 1)
  }

  /** Entry `j` of the good-suffix table after `n` rounds of the second loop. */
  function Entry(pat: seq<Byte>, j: nat, n: nat): nat
    requires n < |pat| && j < |pat|
  {
    var s := StoredShift(pat, j, n);
    (if s > 0 then s else LastPrefix(pat, j)) + |pat| - 1 - j
  }

  /** One round of the second loop changes the one entry it stores into, if it stores at all. */
  lemma EntryStep(pat: seq<Byte>, p: nat, j: nat)
    requires p + 1 < |pat| && j < |pat|
    ensures Entry(pat, j, p + 1) == if Stores(pat, p, j) then 2 * |pat| - 2 - p - j else Entry(pat, j, p)
  {
  }

  ghost predicate HoldsEntries(table: seq<int>, pat: seq<Byte>, n: nat)
    requires n < |pat|
  {
    |table| == |pat| && forall j :: 0 <= j < |pat| ==> table[j] == Entry(pat, j, n)
  }

  /** The first loop has filled the entries from `n` on. */
  ghost predicate HoldsPrefixes(table: seq<int>, pat: seq<Byte>, n: nat) {
    |table| == |pat| > 0 && forall j :: n <= j < |pat| ==> table[j] == LastPrefix(pat, j) + (|pat| - 1 - j)
  }

  lemma PrefixesStep(table: seq<int>, pat: seq<Byte>, p: nat) returns (next: seq<int>)
    requires p < |pat| && HoldsPrefixes(table, pat, p + 1)
    ensures HoldsPrefixes(next, pat, p) && next == table[p := LastPrefix(pat, p) + (|pat| - 1 - p)]
  {
    next := table[p := LastPrefix(pat, p) + (|pat| - 1 - p)];
  }

  lemma PrefixesAreEntries(table: seq<int>, pat: seq<Byte>)
    requires HoldsPrefixes(table, pat, 0)
    ensures HoldsEntries(table, pat, 0)
  {
  }

  lemma EntriesStep(table: seq<int>, pat: seq<Byte>, p: nat) returns (next: seq<int>)
    requires p + 1 < |pat| && HoldsEntries(table, pat, p)
    ensures HoldsEntries(next, pat, p + 1)
    ensures
      var n := SuffixLen(pat, |pat| - 1 - p, 0);
      next == if pat[p - n] != pat[|pat| - 1 - n] then table[|pat| - 1 - n := |pat| - 1 - p + n] else table
  {
    var n := SuffixLen(pat, |pat| - 1 - p, 0);
    next := if pat[p - n] != pat[|pat| - 1 - n] then table[|pat| - 1 - n := |pat| - 1 - p + n] else table;
    forall j | 0 <= j < |pat|
      ensures next[j] == Entry(pat, j, p + 1)
    {
      assert table[j] == Entry(pat, j, p);
      EntryStep(pat, p, j);
    }
  }

  function Delta2(pat: seq<Byte>, j: nat): nat
    requires j < |pat|
  {
    Entry(pat, j, |pat| - 1)
  }

  /** How far the window moves for a mismatch at `j`, by the good-suffix table. */
  function Shift(pat: seq<Byte>, j: nat): (s: nat)
    requires j < |pat|
    ensures 1 <= s <= |pat|
  {
    LastPrefixPositive(pat, j);
    Delta2(pat, j) - (|pat| - 1 - j)
  }

  lemma {:induction false} LastPrefixPositive(pat: seq<Byte>, p: nat)
    requires p < |pat|
    ensures LastPrefix(pat, p) > 0
  {
    if p > 0 || |pat| > 1 {
    } else {
      assert pat[0..] == pat;
      StrncmpSelf(pat, pat, |pat|);
    }
  }

  lemma {:induction false} StrncmpSelf(a: seq<Byte>, b: seq<Byte>, n: nat)
    requires n <= |a| && n <= |b| && a[..n] == b[..n]
    ensures StrncmpEqual(a, b, n)
  {
    if n > 0 {
      assert a[0] == a[..n][0] && b[0] == b[..n][0];
      assert a[1..][..n - 1] == a[..n][1..] && b[1..][..n - 1] == b[..n][1..];
      StrncmpSelf(a[1..], b[1..], n - 1);
    }
  }

  // ----- The search ----------------------------------------------------------------------------

  /** Where the backward comparison of `pat` with the window at `w` stops: -1 when all agrees. */
  function Mismatch(text: seq<Byte>, pat: seq<Byte>, w: nat, j: int): (m: int)
    requires -1 <= j < |pat| && w + |pat| <= |text|
    ensures -1 <= m <= j
    ensures forall k :: m < k <= j ==> text[w + k] == pat[k]
    ensures m >= 0 ==> text[w + m] != pat[m]
    decreases j + 1
  {
    if j >= 0 && text[w + j] == pat[j] then Mismatch(text, pat, w, j - 1) else j
  }

  /** How far bm_search moves the window at `w` after a mismatch at `j`. */
  function Skip(text: seq<Byte>, pat: seq<Byte>, w: nat, j: nat): (s: nat)
    requires j < |pat| && w + |pat| <= |text|
    ensures s >= 1
  {
    var d1, d2 := Delta1(pat, text[w + j], |pat| - 1), Shift(pat, j) + |pat| - 1 - j;
    (if d1 > d2 then d1 else d2) - (|pat| - 1 - j)
  }

  /** What bm_search returns once its window has reached `w`. */
  function Run(text: seq<Byte>, pat: seq<Byte>, w: nat): (r: Option<nat>)
    requires |pat| > 0
    decreases |text| - w
  {
    if w + |pat| > |text| then None
    else
      var j := Mismatch(text, pat, w, |pat| - 1);
      if j < 0 then Some(w) else Run(text, pat, w + Skip(text, pat, w, j))
  }

  lemma AgreementIsOccurrence(text: seq<Byte>, pat: seq<Byte>, w: nat)
    requires w + |pat| <= |text| && forall k :: 0 <= k < |pat| ==> text[w + k] == pat[k]
    ensures OccursAt(text, pat, w)
  {
  }

  lemma RunMoves(text: seq<Byte>, pat: seq<Byte>, w: nat, j: nat)
    requires |pat| > 0 && w + |pat| <= |text| && j == Mismatch(text, pat, w, |pat| - 1)
    ensures Run(text, pat, w) == Run(text, pat, w + Skip(text, pat, w, j))
  {
  }

  /** Whatever the pattern, a result is a true occurrence. */
  lemma {:induction false} RunFindsOccurrence(text: seq<Byte>, pat: seq<Byte>, w: nat)
    requires |pat| > 0 && Run(text, pat, w).Some?
    ensures w <= Run(text, pat, w).value && OccursAt(text, pat, Run(text, pat, w).value)
    decreases |text| - w
  {
    var j := Mismatch(text, pat, w, |pat| - 1);
    if j < 0 {
      AgreementIsOccurrence(text, pat, w);
    } else {
      RunMoves(text, pat, w, j);
      RunFindsOccurrence(text, pat, w + Skip(text, pat, w, j));
    }
  }

  // ----- Good suffix: which shifts could still produce a match ---------------------------------

  /** Moving the window by `s` agrees with the suffix matched after `j` and changes the byte at `j`. */
  ghost predicate Plausible(pat: seq<Byte>, j: nat, s: nat)
    requires j < |pat|
  {
    && s >= 1
    && (forall k :: j < k < |pat| && s <= k ==> Agrees(pat, s, k))
    && !Agrees(pat, s, j)
  }

  /** No plausible shift is shorter than the one the table holds. */
  ghost predicate NeverOvershoots(pat: seq<Byte>) {
    forall j, s :: 0 <= j < |pat| && s >= 0 && Plausible(pat, j, s) ==> Shift(pat, j) <= s
  }

  lemma {:induction false} StoredShiftIsSmallest(pat: seq<Byte>, j: nat, p: nat, n: nat)
    requires p < n < |pat| && j < |pat| && Stores(pat, p, j)
    ensures 0 < StoredShift(pat, j, n) <= |pat| - 1 - p
  {
    if !Stores(pat, n - 1, j) {
      StoredShiftIsSmallest(pat, j, p, n - 1);
    }
  }

  /** A plausible shift that keeps `j` inside the pattern is one the second loop stores. */
  lemma PlausibleIsStored(pat: seq<Byte>, j: nat, s: nat)
    requires j < |pat| && s <= j && Plausible(pat, j, s)
    ensures Stores(pat, |pat| - 1 - s, j)
  {
    assert SuffixLen(pat, s, 0) == |pat| - 1 - j;
  }

  /** The shift stored for `j` never exceeds a plausible one, if borders cannot mislead it. */
  lemma GoodSuffix(pat: seq<Byte>)
    requires Borderless(pat) || AllEqual(pat)
    ensures NeverOvershoots(pat)
  {
    forall j, s | 0 <= j < |pat| && s >= 0 && Plausible(pat, j, s)
      ensures Shift(pat, j) <= s
    {
      if s <= j {
        PlausibleIsStored(pat, j, s);
        StoredShiftIsSmallest(pat, j, |pat| - 1 - s, |pat| - 1);
      } else if s < |pat| {
        BorderAgrees(pat, s);
        assert pat[j..] == pat[..|pat| - j];
        StrncmpSelf(pat[j..], pat, |pat| - j);
      }
    }
  }

  // ----- Leftmost match ------------------------------------------------------------------------

  /** No occurrence starts strictly inside the stretch the two tables skip. */
  lemma SkipIsSafe(text: seq<Byte>, pat: seq<Byte>, w: nat, v: nat)
    requires |pat| > 0 && NeverOvershoots(pat) && w + |pat| <= |text|
    requires Mismatch(text, pat, w, |pat| - 1) >= 0
    requires w <= v && OccursAt(text, pat, v)
    ensures w + Skip(text, pat, w, Mismatch(text, pat, w, |pat| - 1)) <= v
  {
    var j := Mismatch(text, pat, w, |pat| - 1);
    assert forall k :: 0 <= k < |pat| ==> text[v + k] == text[v..v + |pat|][k] == pat[k];
    assert v != w by { assert text[w + j] != pat[j]; }
    var s := v - w;
    forall k | j <= k < |pat| && s <= k
      ensures Agrees(pat, s, k) <==> k > j
    {
      assert pat[k - s] == text[v + (k - s)] == text[w + k];
    }
    assert Plausible(pat, j, s);
  }

  lemma {:induction false} RunIsLeftmost(text: seq<Byte>, pat: seq<Byte>, w: nat)
    requires |pat| > 0 && NeverOvershoots(pat)
    ensures IsLeftmost(text, pat, w, Run(text, pat, w))
    decreases |text| - w
  {
    if w + |pat| <= |text| {
      var j := Mismatch(text, pat, w, |pat| - 1);
      if j < 0 {
        RunFindsOccurrence(text, pat, w);
      } else {
        var w' := w + Skip(text, pat, w, j);
        RunIsLeftmost(text, pat, w');
        forall v | w <= v && OccursAt(text, pat, v)
          ensures w' <= v
        {
          SkipIsSafe(text, pat, w, v);
        }
      }
    }
  }

  // ----- The patterns that are missed ----------------------------------------------------------

  lemma {:induction false} NulFreeStrncmp(a: seq<Byte>, b: seq<Byte>, n: nat)
    requires n <= |a| && n <= |b| && NulFree(a) && StrncmpEqual(a, b, n)
    ensures a[..n] == b[..n]
  {
    if n > 0 {
      NulFreeStrncmp(a[1..], b[1..], n - 1);
      assert a[..n] == [a[0]] + a[1..][..n - 1] && b[..n] == [b[0]] + b[1..][..n - 1];
    }
  }

  /** For a NUL-free pattern the strncmp test of the first loop is exactly the border test. */
  lemma BorderByStrncmp(pat: seq<Byte>, p: nat)
    requires NulFree(pat) && p <= |pat|
    ensures StrncmpEqual(pat[p..], pat, |pat| - p) <==> BorderAt(pat, p)
  {
    assert pat[p..][..|pat| - p] == pat[p..];
    if StrncmpEqual(pat[p..], pat, |pat| - p) {
      NulFreeStrncmp(pat[p..], pat, |pat| - p);
    } else if BorderAt(pat, p) {
      StrncmpSelf(pat[p..], pat, |pat| - p);
    }
  }

  /** With no border before `q`, entry `p` gets one more than the first border: one too many. */
  lemma {:induction false} LastPrefixOvershoots(pat: seq<Byte>, p: nat, q: nat)
    requires NulFree(pat) && 0 < p <= q < |pat| && BorderAt(pat, q)
    requires forall k :: p <= k < q ==> !BorderAt(pat, k)
    ensures LastPrefix(pat, p) == q + 1
    decreases q - p
  {
    if p == q {
      BorderByStrncmp(pat, p);
    } else {
      assert !BorderAt(pat, p);
      BorderByStrncmp(pat, p);
      LastPrefixOvershoots(pat, p + 1, q);
    }
  }

  lemma {:induction false} NothingStored(pat: seq<Byte>, j: nat, n: nat)
    requires j < |pat| && n < |pat| && forall p :: 0 <= p < n ==> !Stores(pat, p, j)
    ensures StoredShift(pat, j, n) == 0
  {
    if n > 0 {
      NothingStored(pat, j, n - 1);
    }
  }

  lemma BorderAgrees(pat: seq<Byte>, q: nat)
    requires q <= |pat|
    ensures BorderAt(pat, q) <==> forall k :: q <= k < |pat| ==> Agrees(pat, q, k)
  {
    forall k | q <= k < |pat|
      ensures Agrees(pat, q, k) <==> pat[q..][k - q] == pat[..|pat| - q][k - q]
    {
    }
    if forall k :: q <= k < |pat| ==> Agrees(pat, q, k) {
      forall i | 0 <= i < |pat| - q
        ensures pat[q..][i] == pat[..|pat| - q][i]
      {
        assert Agrees(pat, q, i + q);
      }
    }
  }

  lemma BorderAtOneIsConstant(pat: seq<Byte>)
    requires |pat| > 1 && BorderAt(pat, 1)
    ensures AllEqual(pat)
  {
    BorderAgrees(pat, 1);
    forall k | 0 < k < |pat|
      ensures pat[k] == pat[0]
    {
      var i := k;
      while i > 0
        invariant 0 <= i <= k && pat[i] == pat[k]
      {
        assert Agrees(pat, 1, i);
        i := i - 1;
      }
    }
  }

  /** Only a pattern that repeats one byte from index 1 on gets something stored for entry 1. */
  lemma {:induction false} StoredAtOneRepeats(pat: seq<Byte>, p: nat, k: nat)
    requires p < |pat| - 1 && 1 <= k < |pat| && Stores(pat, p, 1)
    ensures pat[0] != pat[1] == pat[k]
  {
    if k > 1 {
      StoredAtOneRepeats(pat, p, k - 1);
      assert Agrees(pat, 1, k);
    }
  }

  /** Nothing is stored for entry 1 of a pattern with a border. */
  lemma EntryOneIsNotStored(pat: seq<Byte>, q: nat)
    requires 2 <= q < |pat| && BorderAt(pat, q)
    ensures StoredShift(pat, 1, |pat| - 1) == 0
  {
    assert pat[q] == pat[0] by {
      BorderAgrees(pat, q);
      assert Agrees(pat, q, q);
    }
    forall p | 0 <= p < |pat| - 1
      ensures !Stores(pat, p, 1)
    {
      if Stores(pat, p, 1) {
        StoredAtOneRepeats(pat, p, q);
      }
    }
    NothingStored(pat, 1, |pat| - 1);
  }

  /** The first border, when the pattern has one and is not one byte repeated. */
  lemma FirstBorder(pat: seq<Byte>) returns (q: nat)
    requires !Borderless(pat) && !AllEqual(pat)
    ensures 2 <= q < |pat| && BorderAt(pat, q) && forall k :: 0 < k < q ==> !BorderAt(pat, k)
  {
    q := 1;
    while !BorderAt(pat, q)
      decreases |pat| - q
      invariant 0 < q < |pat| && forall k :: 0 < k < q ==> !BorderAt(pat, k)
    {
      q := q + 1;
    }
    if q == 1 {
      BorderAtOneIsConstant(pat);
    }
  }

  /** A text on which the search for such a pattern returns nothing although the pattern occurs. */
  lemma MissedText(pat: seq<Byte>) returns (text: seq<Byte>, q: nat)
    requires NulFree(pat) && !Borderless(pat) && !AllEqual(pat)
    ensures OccursAt(text, pat, q) && Run(text, pat, 0) == None
  {
    q := FirstBorder(pat);
    EntryOneIsNotStored(pat, q);
    LastPrefixOvershoots(pat, 1, q);
    text := [pat[0], 0] + pat[2..q] + pat;
    assert text[q..q + |pat|] == pat;
    assert Mismatch(text, pat, 0, |pat| - 1) == 1 by {
      BorderAgrees(pat, q);
      forall k | 2 <= k < |pat|
        ensures text[k] == pat[k]
      {
        assert k >= q ==> Agrees(pat, q, k);
      }
    }
    assert Skip(text, pat, 0, 1) >= Shift(pat, 1) == q + 1;
    RunMoves(text, pat, 0, 1);
  }

  /** bm_search returns the leftmost match of a NUL-free pattern in every text if and only if the
      pattern has no border or is one byte repeated; exactly then does the good-suffix table hold
      no shift longer than a plausible one. */
  lemma LeftmostIff(pat: seq<Byte>)
    requires |pat| > 0 && NulFree(pat)
    ensures (forall text :: IsLeftmost(text, pat, 0, Run(text, pat, 0))) <==> Borderless(pat) || AllEqual(pat)
    ensures NeverOvershoots(pat) <==> Borderless(pat) || AllEqual(pat)
  {
    if Borderless(pat) || AllEqual(pat) {
      GoodSuffix(pat);
      forall text
        ensures IsLeftmost(text, pat, 0, Run(text, pat, 0))
      {
        RunIsLeftmost(text, pat, 0);
      }
    } else {
      var text, q := MissedText(pat);
      assert !IsLeftmost(text, pat, 0, Run(text, pat, 0));
      if NeverOvershoots(pat) {
        RunIsLeftmost(text, pat, 0);
      }
    }
  }

  lemma SkipByTables(text: seq<Byte>, pat: seq<Byte>, w: nat, j: nat, table1: seq<int>, table2: seq<int>)
    requires j < |pat| && w + |pat| <= |text|
    requires HoldsLastOccurrences(table1, pat) && HoldsEntries(table2, pat, |pat| - 1)
    ensures Skip(text, pat, w, j) == Max(table1[text[w + j]], table2[j]) - (|pat| - 1 - j)
    ensures Skip(text, pat, w, j) <= |pat| + j
  {
    assert table1[text[w + j]] == Delta1(pat, text[w + j], |pat| - 1) && table2[j] == Delta2(pat, j);
    assert Shift(pat, j) <= |pat|;
  }

  /** Adding the larger table entry to `i` puts it at the end of the window `Run` looks at next. */
  lemma RunStep(text: seq<Byte>, pat: seq<Byte>, w: nat, j: nat, table1: seq<int>, table2: seq<int>)
    returns (w': nat)
    requires |pat| > 0 && w + |pat| <= |text| && j == Mismatch(text, pat, w, |pat| - 1)
    requires HoldsLastOccurrences(table1, pat) && HoldsEntries(table2, pat, |pat| - 1)
    ensures w < w' && Run(text, pat, w) == Run(text, pat, w')
    ensures w' + |pat| - 1 == w + j + Max(table1[text[w + j]], table2[j]) < |text| + 2 * |pat|
  {
    SkipByTables(text, pat, w, j, table1, table2);
    RunMoves(text, pat, w, j);
    w' := w + Skip(text, pat, w, j);
  }

  lemma RunMeaning(text: seq<Byte>, pat: seq<Byte>)
    requires |pat| > 0
    ensures Run(text, pat, 0).Some? ==> OccursAt(text, pat, Run(text, pat, 0).value)
    ensures Borderless(pat) || AllEqual(pat) ==> IsLeftmost(text, pat, 0, Run(text, pat, 0))
  {
    if Run(text, pat, 0).Some? {
      RunFindsOccurrence(text, pat, 0);
    }
    if Borderless(pat) || AllEqual(pat) {
      GoodSuffix(pat);
      RunIsLeftmost(text, pat, 0);
    }
  }

  // ----- The code ------------------------------------------------------------------------------

  function Max(a: int, b: int): int {
    if a > b then a else b
  }

  /** max_suffix_len */
  method MaxSuffixLen(str: seq<Byte>, p: nat) returns (i: nat)
    requires p < |str|
    ensures i == SuffixLen(str, |str| - 1 - p, 0)
  {
    i := 0;
    while str[p - i] == str[|str| - 1 - i] && i < p
      invariant i <= p
      invariant SuffixLen(str, |str| - 1 - p, 0) == SuffixLen(str, |str| - 1 - p, i)
      decreases p - i
    {
      i := i + 1;
    }
  }

  /** bm_make_delta1 */
  method MakeDelta1(delta1: array<Int32>, pat: seq<Byte>)
    requires delta1.Length == ALPHABET_LEN && 0 < |pat| < 0x8000_0000
    modifies delta1
    ensures HoldsLastOccurrences(delta1[..], pat)
  {
    for i := 0 to ALPHABET_LEN
      invariant forall c: Byte :: c < i ==> delta1[c] == |pat|
    {
      delta1[i] := |pat|;
    }
    for i := 0 to |pat| - 1
      invariant forall c: Byte :: delta1[c] == Delta1(pat, c, i)
    {
      delta1[pat[i]] := |pat| - 1 - i;
    }
  }

  /** The first loop of bm_make_delta2 */
  method FillPrefixShifts(delta2: array<Int32>, pat: seq<Byte>)
    requires delta2.Length == |pat| && 0 < 2 * |pat| < 0x8000_0000
    modifies delta2
    ensures HoldsEntries(delta2[..], pat, 0)
  {
    var last_prefix: nat := |pat| - 1;
    var p: Int32 := |pat| - 1;
    while p >= 0
      invariant -1 <= p < |pat| && last_prefix == LastPrefix(pat, p + 1)
      invariant HoldsPrefixes(delta2[..], pat, p + 1)
    {
      ghost var next := PrefixesStep(delta2[..], pat, p);
      if StrncmpEqual(pat[p..], pat, |pat| - p) {
        last_prefix := p + 1;
      }
      delta2[p] := last_prefix + (|pat| - 1 - p);
      assert delta2[..] == next;
      p := p - 1;
    }
    PrefixesAreEntries(delta2[..], pat);
  }

  /** One round of the second loop of bm_make_delta2 */
  method StoreShift(delta2: array<Int32>, pat: seq<Byte>, p: nat)
    requires delta2.Length == |pat| && 2 * |pat| < 0x8000_0000 && p + 1 < |pat|
    requires HoldsEntries(delta2[..], pat, p)
    modifies delta2
    ensures HoldsEntries(delta2[..], pat, p + 1)
  {
    var suf_len := MaxSuffixLen(pat, p);
    ghost var next := EntriesStep(delta2[..], pat, p);
    if pat[p - suf_len] != pat[|pat| - 1 - suf_len] {
      delta2[|pat| - 1 - suf_len] := |pat| - 1 - p + suf_len;
    }
    assert delta2[..] == next;
  }

  /** bm_make_delta2: the second loop overwrites what the first one left. */
  method MakeDelta2(delta2: array<Int32>, pat: seq<Byte>)
    requires delta2.Length == |pat| && 0 < 2 * |pat| < 0x8000_0000
    modifies delta2
    ensures HoldsEntries(delta2[..], pat, |pat| - 1)
  {
    FillPrefixShifts(delta2, pat);
    for p := 0 to |pat| - 1
      invariant HoldsEntries(delta2[..], pat, p)
    {
      StoreShift(delta2, pat, p);
    }
  }

  /** The inner loop of bm_search, which compares the window ending at `i` from its last byte. */
  method CompareBackwards(str: seq<Byte>, pat: seq<Byte>, end: Int32) returns (i: Int32, j: Int32)
    requires |pat| - 1 <= end < |str| < 0x8000_0000
    ensures j == Mismatch(str, pat, end + 1 - |pat|, |pat| - 1) && i - j == end + 1 - |pat|
  {
    ghost var w := end + 1 - |pat|;
    i, j := end, |pat| - 1;
    while j >= 0 && str[i] == pat[j]
      invariant -1 <= j < |pat| && i == w + j
      invariant Mismatch(str, pat, w, |pat| - 1) == Mismatch(str, pat, w, j)
      decreases j
    {
      i := i - 1;
      j := j - 1;
    }
  }

  /** The loop of bm_search: the window `i` always ends inside the text and inside the range of an int. */
  method Scan(str: seq<Byte>, pat: seq<Byte>, delta1: array<Int32>, delta2: array<Int32>) returns (r: Option<nat>)
    requires |pat| > 0 && |str| + 2 * |pat| < 0x8000_0000
    requires HoldsLastOccurrences(delta1[..], pat) && HoldsEntries(delta2[..], pat, |pat| - 1)
    ensures r == Run(str, pat, 0)
  {
    ghost var w, result := 0, Run(str, pat, 0);
    var i: Int32 := |pat| - 1;
    while i < |str|
      invariant i == w + |pat| - 1 && result == Run(str, pat, w)
      decreases |str| - i
    {
      var j;
      i, j := CompareBackwards(str, pat, i);
      if j < 0 {
        return Some(i + 1);
      }
      ghost var next := RunStep(str, pat, w, j, delta1[..], delta2[..]);
      var delta: int := Max(delta1[str[i]], delta2[j]);
      assert next + |pat| - 1 == i + delta;
      i, w := i + delta, next;
    }
    return None;
  }

  /** bm_search */
  method Search(str: seq<Byte>, pat: seq<Byte>) returns (r: Option<nat>)
    requires |pat| > 0 && |str| + 2 * |pat| < 0x8000_0000
    ensures r == Run(str, pat, 0)
    ensures r.Some? ==> OccursAt(str, pat, r.value)
    ensures Borderless(pat) || AllEqual(pat) ==> IsLeftmost(str, pat, 0, r)
  {
    var delta1 := new Int32[ALPHABET_LEN];
    var delta2 := new Int32[|pat|];
    MakeDelta1(delta1, pat);
    MakeDelta2(delta2, pat);
    r := Scan(str, pat, delta1, delta2);
    RunMeaning(str, pat);
  }

  // ----- The pattern the updater uses ----------------------------------------------------------

  const BASEBAND_VER_STR_START := "QC_IMAGE_VERSION_STRING=MPSS.JO."

  function Bytes(s: string): seq<Byte>
    requires forall i :: 0 <= i < |s| ==> s[i] < 256 as char
  {
    seq(|s|, i requires 0 <= i < |s| => s[i] as int)
  }

  /** A pattern whose first byte does not recur has no border. */
  lemma DistinctFirstByte(pat: seq<Byte>)
    requires forall k :: 0 < k < |pat| ==> pat[k] != pat[0]
    ensures Borderless(pat)
  {
    forall q | 0 < q < |pat|
      ensures !BorderAt(pat, q)
    {
      assert pat[q..][0] != pat[..|pat| - q][0];
    }
  }

  /** The updater's search is therefore exact in every image. */
  lemma BasebandSearchIsExact(image: seq<Byte>)
    ensures
      var pat := Bytes(BASEBAND_VER_STR_START);
      |pat| == 32 && IsLeftmost(image, pat, 0, Run(image, pat, 0))
  {
    var pat := Bytes(BASEBAND_VER_STR_START);
    DistinctFirstByte(pat);
    RunMeaning(image, pat);
  }
}
