// Notions of sequences that several models share.
module Sequences {
  import opened Wrappers

  lemma Associative<T>(a: seq<T>, b: seq<T>, c: seq<T>)
    ensures a + b + c == a + (b + c)
  {
  }

  // All of it, or as much as the limit allows.
  function Limited<T>(s: seq<T>, limit: Option<nat>): seq<T> {
    if limit.Some? && limit.value < |s| then s[..limit.value] else s
  }

  // `r` holds what `select` makes of the elements of `s` at positions `at`, which are
  // all those it makes something of, in order.
  ghost predicate PicksAt<S(!new), T(!new)>(select: S -> Option<T>, s: seq<S>, r: seq<T>, at: seq<nat>) {
    && |at| == |r|
    && (forall k :: 0 <= k < |at| ==> at[k] < |s| && select(s[at[k]]) == Some(r[k]))
    && (forall j, k :: 0 <= j < k < |at| ==> at[j] < at[k])
    && (forall i: nat :: i < |s| && select(s[i]).Some? ==> i in at)
  }

  // Exactly the elements that `select` makes something of, in order.
  ghost predicate Picks<S(!new), T(!new)>(select: S -> Option<T>, s: seq<S>, r: seq<T>) {
    exists at :: PicksAt(select, s, r, at)
  }

  lemma PicksSnoc<S(!new), T(!new)>(select: S -> Option<T>, s: seq<S>, x: S, r: seq<T>, at: seq<nat>)
    requires PicksAt(select, s, r, at)
    ensures select(x).None? ==> PicksAt(select, s + [x], r, at)
    ensures select(x).Some? ==> PicksAt(select, s + [x], r + [select(x).value], at + [|s|])
  {
    var all, n := s + [x], |s|;
    forall i: nat | i < |all| && select(all[i]).Some? ensures i in at + [n] && (i < n ==> i in at) {
      if i < n { assert all[i] == s[i]; } else { assert (at + [n])[|at|] == i; }
    }
  }

  // The entry of a key holds the value.
  ghost predicate Lists<K, V>(lists: map<K, seq<V>>, key: K, value: V) {
    key in lists && value in lists[key]
  }

  ghost predicate NoDuplicates<T(!new)>(s: seq<T>) {
    forall i, j :: 0 <= i < j < |s| ==> s[i] != s[j]
  }

  lemma NoDuplicatesPrepend<T(!new)>(x: T, s: seq<T>)
    requires NoDuplicates(s) && x !in s
    ensures NoDuplicates([x] + s)
  {
  }

  lemma NoDuplicatesInsert<T(!new)>(s: seq<T>, n: nat, x: T)
    requires NoDuplicates(s) && x !in s && n <= |s|
    ensures NoDuplicates(s[..n] + [x] + s[n..])
  {
    var all := s[..n] + [x] + s[n..];
    forall i, j | 0 <= i < j < |all| ensures all[i] != all[j] {
      assert i < n ==> all[i] == s[i];
      assert j < n ==> all[j] == s[j];
      assert i > n ==> all[i] == s[i - 1];
      assert j > n ==> all[j] == s[j - 1];
    }
  }

  lemma NoDuplicatesConcat<T(!new)>(a: seq<T>, b: seq<T>)
    requires NoDuplicates(a) && NoDuplicates(b)
    requires forall x :: x in a ==> x !in b
    ensures NoDuplicates(a + b)
  {
    forall i, j | 0 <= i < j < |a + b| ensures (a + b)[i] != (a + b)[j] {
      if i < |a| <= j { assert a[i] in a && b[j - |a|] in b; }
    }
  }
}
