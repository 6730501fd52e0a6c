/** Regrouping and splitting of sequences. */
module Sequences {
  lemma Regroup<T>(a: seq<T>, b: seq<T>, c: seq<T>)
    ensures (a + b) + c == a + (b + c)
  {
  }

  lemma SplitAt<T>(s: seq<T>, i: nat)
    requires i < |s|
    ensures s[i..][0] == s[i] && s[i..][1..] == s[i + 1..]
    ensures s[..i] + [s[i]] == s[..i + 1]
  {
  }

  lemma UpdateAt<T>(s: seq<T>, i: nat, x: T)
    requires i < |s|
    ensures s[..i] + ([x] + s[i + 1..]) == s[i := x]
  {
  }
}
