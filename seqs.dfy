/** Small facts about sequences shared by the solver's filters and counters. */
module Seqs {

  /** No element occurs twice. */
  predicate Unique<T(==)>(s: seq<T>) {
    forall i, j :: 0 <= i < j < |s| ==> s[i] != s[j]
  }

  /** `a` is obtained from `b` by deleting elements: the order of `b` is kept. */
  predicate IsSubseq<T(==)>(a: seq<T>, b: seq<T>)
    decreases |b|
  {
    if a == [] then true
    else if b == [] then false
    else if a[|a| - 1] == b[|b| - 1] then IsSubseq(a[..|a| - 1], b[..|b| - 1])
    else IsSubseq(a, b[..|b| - 1])
  }

  /** Number of occurrences of `x` in `s`. */
  function Count<T(==)>(s: seq<T>, x: T): nat {
    if s == [] then 0 else Count(s[..|s| - 1], x) + (if s[|s| - 1] == x then 1 else 0)
  }

  lemma {:induction false} CountAbsent<T>(s: seq<T>, x: T)
    ensures x !in s ==> Count(s, x) == 0
  {
    if s != [] && x !in s {
      assert x !in s[..|s| - 1];
      CountAbsent(s[..|s| - 1], x);
    }
  }

  lemma {:induction false} CountAppend<T>(a: seq<T>, b: seq<T>, x: T)
    ensures Count(a + b, x) == Count(a, x) + Count(b, x)
  {
    if b != [] {
      assert (a + b)[..|a + b| - 1] == a + b[..|b| - 1];
      CountAppend(a, b[..|b| - 1], x);
    } else {
      assert a + b == a;
    }
  }

  /** The distinct elements of `s`, in the order of their first occurrence. */
  function FirstSeen<T(==,!new)>(s: seq<T>): (r: seq<T>)
    ensures Unique(r)
    ensures forall x :: x in r <==> x in s
  {
    if s == [] then []
    else
      var t := FirstSeen(s[..|s| - 1]);
      assert s == s[..|s| - 1] + [s[|s| - 1]];
      if s[|s| - 1] in t then t else t + [s[|s| - 1]]
  }

  /** A sequence without repeats is its own list of distinct elements. */
  lemma {:induction false} FirstSeenUnique<T(!new)>(s: seq<T>)
    requires Unique(s)
    ensures FirstSeen(s) == s
  {
    if s != [] {
      var init := s[..|s| - 1];
      assert Unique(init);
      FirstSeenUnique(init);
      assert s == init + [s[|s| - 1]];
    }
  }

  /** In a sequence without repeats every element occurs once. */
  lemma {:induction false} CountUnique<T>(s: seq<T>, x: T)
    requires Unique(s)
    ensures Count(s, x) == if x in s then 1 else 0
  {
    if s != [] {
      var init := s[..|s| - 1];
      assert Unique(init);
      CountUnique(init, x);
      assert s == init + [s[|s| - 1]];
    }
  }

  /** Position of the first occurrence of `x` in `s`. */
  function IndexOf<T(==)>(s: seq<T>, x: T): (k: nat)
    requires x in s
    ensures k < |s| && s[k] == x
    ensures forall j :: 0 <= j < k ==> s[j] != x
  {
    if s[0] == x then 0 else 1 + IndexOf(s[1..], x)
  }

  lemma {:induction false} IndexOfUnique<T>(s: seq<T>, k: nat)
    requires Unique(s) && k < |s|
    ensures IndexOf(s, s[k]) == k
  {
  }

  /** Extending a prefix of `w` by one element. */
  lemma PrefixSnoc<T>(a: seq<T>, w: seq<T>, j: nat)
    requires j < |w|
    ensures a + w[..j + 1] == (a + w[..j]) + [w[j]]
  {
    assert w[..j + 1] == w[..j] + [w[j]];
  }
}
