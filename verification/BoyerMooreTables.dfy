/** The exact contents of the good-suffix table of recovery/recovery_updater.cpp. */
module BoyerMooreTables {
  import opened BoyerMoore

  lemma EqualHeads(a: seq<Byte>, b: seq<Byte>, m: nat)
    requires 0 < m <= |a| && m <= |b|
    ensures a[..m] == b[..m] <==> a[0] == b[0] && a[1..][..m - 1] == b[1..][..m - 1]
  {
    assert a[..m] == [a[0]] + a[1..][..m - 1] && b[..m] == [b[0]] + b[1..][..m - 1];
  }

  /** The comparison reached `n` bytes, or a NUL that both have at the same place, after `m` equal bytes. */
  predicate StopsAt(a: seq<Byte>, b: seq<Byte>, n: nat, m: nat)
    requires n <= |a| && n <= |b|
  {
    m <= n && a[..m] == b[..m] && (m == n || (m > 0 && a[m - 1] == 0))
  }

  /** strncmp finds no difference if and only if the strings are equal that far. */
  lemma {:induction false} StrncmpIff(a: seq<Byte>, b: seq<Byte>, n: nat)
    requires n <= |a| && n <= |b|
    ensures StrncmpEqual(a, b, n) <==> exists m: nat :: StopsAt(a, b, n, m)
  {
    if n == 0 {
      assert StopsAt(a, b, 0, 0);
    } else {
      StrncmpIff(a[1..], b[1..], n - 1);
      if StrncmpEqual(a, b, n) {
        EqualHeads(a, b, 1);
        if a[0] == 0 {
          assert StopsAt(a, b, n, 1);
        } else {
          var m: nat :| StopsAt(a[1..], b[1..], n - 1, m);
          EqualHeads(a, b, m + 1);
          assert StopsAt(a, b, n, m + 1);
        }
      }
      if m: nat :| StopsAt(a, b, n, m) {
        EqualHeads(a, b, m);
        assert a[0] == 0 || StopsAt(a[1..], b[1..], n - 1, m - 1);
      }
    }
  }

  /** With no border at all from `p` on, entry `p` gets one less than the pattern's length. */
  lemma {:induction false} NoBorderFrom(pat: seq<Byte>, p: nat)
    requires NulFree(pat) && 0 < p <= |pat| && forall k :: p <= k < |pat| ==> !BorderAt(pat, k)
    ensures LastPrefix(pat, p) == |pat| - 1
    decreases |pat| - p
  {
    if p < |pat| {
      BorderByStrncmp(pat, p);
      NoBorderFrom(pat, p + 1);
    }
  }

  /** What the second loop stores is plausible. */
  lemma StoredIsPlausible(pat: seq<Byte>, j: nat, p: nat)
    requires p + 1 < |pat| && j < |pat| && Stores(pat, p, j)
    ensures |pat| - 1 - p <= j && Plausible(pat, j, |pat| - 1 - p)
  {
  }

  lemma {:induction false} StoredShiftIs(pat: seq<Byte>, j: nat, n: nat)
    requires n < |pat| && j < |pat|
    ensures
      var s := StoredShift(pat, j, n);
      s > 0 ==> |pat| - n <= s && Stores(pat, |pat| - 1 - s, j)
  {
    if n > 0 && !Stores(pat, n - 1, j) {
      StoredShiftIs(pat, j, n - 1);
    }
  }

  lemma NothingSmaller(pat: seq<Byte>, j: nat, t: nat)
    requires j < |pat| && t <= j && Plausible(pat, j, t)
    ensures 0 < StoredShift(pat, j, |pat| - 1) <= t
  {
    PlausibleIsStored(pat, j, t);
    StoredShiftIsSmallest(pat, j, |pat| - 1 - t, |pat| - 1);
  }

  lemma {:induction false} NextBorder(pat: seq<Byte>, j: nat) returns (q: nat)
    requires j <= |pat|
    ensures j <= q <= |pat| && (q < |pat| ==> BorderAt(pat, q)) && forall k :: j <= k < q ==> !BorderAt(pat, k)
    decreases |pat| - j
  {
    q := j;
    if j < |pat| && !BorderAt(pat, j) {
      q := NextBorder(pat, j + 1);
    }
  }

  /** A shift inside the pattern that can still match, and none shorter can. */
  ghost predicate LeastPlausible(pat: seq<Byte>, j: nat, s: nat)
    requires j < |pat|
  {
    s <= j && Plausible(pat, j, s) && forall t :: 0 <= t < s ==> !Plausible(pat, j, t)
  }

  ghost predicate NonePlausible(pat: seq<Byte>, j: nat)
    requires j < |pat|
  {
    forall t :: 0 <= t <= j ==> !Plausible(pat, j, t)
  }

  /** The stored shift is the least plausible one. */
  lemma StoredIsLeast(pat: seq<Byte>, j: nat)
    requires j < |pat|
    ensures
      var s := StoredShift(pat, j, |pat| - 1);
      if s > 0 then LeastPlausible(pat, j, s) else NonePlausible(pat, j)
  {
    var s := StoredShift(pat, j, |pat| - 1);
    StoredShiftIs(pat, j, |pat| - 1);
    if s > 0 {
      StoredIsPlausible(pat, j, |pat| - 1 - s);
    }
    forall t | 0 <= t <= j && Plausible(pat, j, t)
      ensures 0 < s <= t
    {
      NothingSmaller(pat, j, t);
    }
  }

  lemma PrefixIs(pat: seq<Byte>, j: nat, q: nat)
    requires NulFree(pat) && j <= q <= |pat| && j < |pat|
    requires q < |pat| ==> BorderAt(pat, q)
    requires forall k :: j <= k < q ==> !BorderAt(pat, k)
    ensures LastPrefix(pat, j) == if q < |pat| then q + 1 else |pat| - 1
  {
    if j == 0 {
      assert pat[0..] == pat && pat[..|pat|] == pat;
      BorderByStrncmp(pat, 0);
    } else if q < |pat| {
      LastPrefixOvershoots(pat, j, q);
    } else {
      NoBorderFrom(pat, j);
    }
  }

  /** What the good-suffix table holds for a mismatch at `j` of a NUL-free pattern: the least plausible shift inside the
      pattern; without one, one more than the first border from `j` on; and without that, the length less one. */
  lemma ShiftIs(pat: seq<Byte>, j: nat)
    requires NulFree(pat) && j < |pat|
    ensures
      var s := Shift(pat, j);
      if !NonePlausible(pat, j) then LeastPlausible(pat, j, s)
      else if exists q :: j <= q < |pat| && BorderAt(pat, q) then
        j < s <= |pat| && BorderAt(pat, s - 1) && forall q :: j <= q < s - 1 ==> !BorderAt(pat, q)
      else s == |pat| - 1
  {
    StoredIsLeast(pat, j);
    var q := NextBorder(pat, j);
    PrefixIs(pat, j, q);
  }
}
