/** Python's `list.sort(key=lambda x: x[1], reverse=True)` on [key, count]
    pairs: a stable sort by count, largest first. Python keeps records with
    equal keys in their original order even with `reverse=True`; the model
    states stability as "every tie class keeps its order". */
module Ranking {
  import opened Seqs
  import opened Tally

  /** Counts never go up from left to right. */
  predicate NonIncreasing<K>(s: seq<Entry<K>>) {
    forall i, j :: 0 <= i < j < |s| ==> s[i].count >= s[j].count
  }

  /** The entries of `s` whose count is `n`, in their order in `s`. */
  function WithCount<K>(s: seq<Entry<K>>, n: nat): seq<Entry<K>> {
    if s == [] then [] else (if s[0].count == n then [s[0]] else []) + WithCount(s[1..], n)
  }

  /** Puts `e` in front of the first entry whose count is not larger than its own. */
  function Insert<K>(e: Entry<K>, s: seq<Entry<K>>): seq<Entry<K>> {
    if s == [] || s[0].count <= e.count then [e] + s else [s[0]] + Insert(e, s[1..])
  }

  /** The stable descending sort by count. */
  function SortByCountDesc<K(==)>(s: seq<Entry<K>>): (r: seq<Entry<K>>)
    ensures NonIncreasing(r)
    ensures multiset(r) == multiset(s)
    ensures forall n :: WithCount(r, n) == WithCount(s, n)
    ensures Total(r) == Total(s)
    ensures Unique(Keys(s)) ==> Unique(Keys(r))
  {
    if s == [] then []
    else
      var t := SortByCountDesc(s[1..]);
      SortStep(s, t);
      SortStepTies(s, t);
      InsertUniqueStep(s, t);
      Insert(s[0], t)
  }

  /** Inserting the head into the sorted tail sorts the whole, keeps its
      elements and its total. */
  lemma {:induction false} SortStep<K>(s: seq<Entry<K>>, t: seq<Entry<K>>)
    requires s != [] && NonIncreasing(t) && multiset(t) == multiset(s[1..])
    requires Total(t) == Total(s[1..])
    ensures NonIncreasing(Insert(s[0], t))
    ensures multiset(Insert(s[0], t)) == multiset(s)
    ensures Total(Insert(s[0], t)) == Total(s)
  {
    InsertProps(s[0], t);
    assert s == [s[0]] + s[1..];
  }

  /** ... and the entries of each count, in their order. */
  lemma {:induction false} SortStepTies<K>(s: seq<Entry<K>>, t: seq<Entry<K>>)
    requires s != [] && NonIncreasing(t)
    requires forall n :: WithCount(t, n) == WithCount(s[1..], n)
    ensures forall n :: WithCount(Insert(s[0], t), n) == WithCount(s, n)
  {
    InsertProps(s[0], t);
    assert s == [s[0]] + s[1..];
    forall n ensures WithCount(s, n) == (if s[0].count == n then [s[0]] else []) + WithCount(s[1..], n) {
      WithCountCons(s[0], s[1..], n);
    }
  }

  lemma InsertUniqueStep<K>(s: seq<Entry<K>>, t: seq<Entry<K>>)
    requires s != [] && multiset(t) == multiset(s[1..])
    requires Unique(Keys(s[1..])) ==> Unique(Keys(t))
    ensures Unique(Keys(s)) ==> Unique(Keys(Insert(s[0], t)))
  {
    if Unique(Keys(s)) {
      assert Keys(s) == [s[0].key] + Keys(s[1..]);
      UniqueTail(s[0].key, Keys(s[1..]));
      KeysOfPermutation(t, s[1..]);
      InsertKeepsUnique(s[0], t);
    }
  }

  lemma InsertProps<K>(e: Entry<K>, s: seq<Entry<K>>)
    requires NonIncreasing(s)
    ensures NonIncreasing(Insert(e, s))
    ensures multiset(Insert(e, s)) == multiset([e] + s)
    ensures forall n :: WithCount(Insert(e, s), n) == (if e.count == n then [e] else []) + WithCount(s, n)
    ensures Total(Insert(e, s)) == e.count + Total(s)
  {
    InsertPermutes(e, s);
    InsertSorted(e, s);
    forall n ensures WithCount(Insert(e, s), n) == (if e.count == n then [e] else []) + WithCount(s, n) {
      InsertTies(e, s, n);
    }
    InsertTotal(e, s);
  }

  lemma {:induction false} InsertPermutes<K>(e: Entry<K>, s: seq<Entry<K>>)
    ensures multiset(Insert(e, s)) == multiset([e] + s)
  {
    if s != [] && s[0].count > e.count {
      InsertPermutes(e, s[1..]);
      assert s == [s[0]] + s[1..];
      assert multiset([e] + s) == multiset([s[0]]) + multiset([e] + s[1..]);
    }
  }

  lemma NonIncreasingTail<K>(s: seq<Entry<K>>)
    requires s != [] && NonIncreasing(s)
    ensures NonIncreasing(s[1..])
    ensures forall x :: x in s[1..] ==> x.count <= s[0].count
  {
    forall i, j | 0 <= i < j < |s[1..]| ensures s[1..][i].count >= s[1..][j].count {
      assert s[1..][i] == s[i + 1] && s[1..][j] == s[j + 1];
    }
  }

  lemma {:induction false} InsertSorted<K>(e: Entry<K>, s: seq<Entry<K>>)
    requires NonIncreasing(s)
    ensures NonIncreasing(Insert(e, s))
  {
    if s == [] || s[0].count <= e.count {
      forall x | x in s ensures x.count <= e.count {
        var j :| 0 <= j < |s| && s[j] == x;
      }
      NonIncreasingCons(e, s);
    } else {
      NonIncreasingTail(s);
      InsertSorted(e, s[1..]);
      InsertBounded(e, s[1..], s[0].count);
      NonIncreasingCons(s[0], Insert(e, s[1..]));
    }
  }

  lemma {:induction false} InsertBounded<K>(e: Entry<K>, s: seq<Entry<K>>, c: nat)
    requires e.count <= c && forall x :: x in s ==> x.count <= c
    ensures forall x :: x in Insert(e, s) ==> x.count <= c
  {
    if s != [] && s[0].count > e.count {
      assert forall x :: x in s[1..] ==> x in s;
      InsertBounded(e, s[1..], c);
    }
  }

  lemma NonIncreasingCons<K>(x: Entry<K>, t: seq<Entry<K>>)
    requires NonIncreasing(t) && forall y :: y in t ==> y.count <= x.count
    ensures NonIncreasing([x] + t)
  {
    var r := [x] + t;
    forall i, j | 0 <= i < j < |r| ensures r[i].count >= r[j].count {
      assert r[j] == t[j - 1];
      if i > 0 { assert r[i] == t[i - 1]; }
    }
  }

  lemma {:induction false} InsertTies<K>(e: Entry<K>, s: seq<Entry<K>>, n: nat)
    ensures WithCount(Insert(e, s), n) == (if e.count == n then [e] else []) + WithCount(s, n)
  {
    var mine: seq<Entry<K>> := if e.count == n then [e] else [];
    if s == [] || s[0].count <= e.count {
      WithCountCons(e, s, n);
    } else {
      InsertTies(e, s[1..], n);
      var t := Insert(e, s[1..]);
      var head: seq<Entry<K>> := if s[0].count == n then [s[0]] else [];
      WithCountCons(s[0], t, n);
      WithCountCons(s[0], s[1..], n);
      assert [s[0]] + s[1..] == s;
      assert WithCount(Insert(e, s), n) == head + (mine + WithCount(s[1..], n));
      assert head == [] || mine == [];
      if head == [] {
        assert head + (mine + WithCount(s[1..], n)) == mine + WithCount(s[1..], n);
      } else {
        assert head + (mine + WithCount(s[1..], n)) == head + WithCount(s[1..], n);
      }
    }
  }

  /** `WithCount` of a sequence with one more entry in front. */
  lemma WithCountCons<K>(x: Entry<K>, s: seq<Entry<K>>, n: nat)
    ensures WithCount([x] + s, n) == (if x.count == n then [x] else []) + WithCount(s, n)
  {
    assert ([x] + s)[1..] == s;
  }

  lemma {:induction false} InsertTotal<K>(e: Entry<K>, s: seq<Entry<K>>)
    ensures Total(Insert(e, s)) == e.count + Total(s)
  {
    if s == [] || s[0].count <= e.count {
      assert ([e] + s)[1..] == s;
    } else {
      InsertTotal(e, s[1..]);
      var t := Insert(e, s[1..]);
      assert ([s[0]] + t)[1..] == t;
    }
  }

  /** A permutation has the same set of keys. */
  lemma KeysOfPermutation<K>(a: seq<Entry<K>>, b: seq<Entry<K>>)
    requires multiset(a) == multiset(b)
    ensures forall k :: k in Keys(a) <==> k in Keys(b)
  {
    forall k | k in Keys(a) ensures k in Keys(b) {
      var i :| 0 <= i < |a| && Keys(a)[i] == k;
      assert a[i] in multiset(b);
      var j :| 0 <= j < |b| && b[j] == a[i];
      assert Keys(b)[j] == k;
    }
    forall k | k in Keys(b) ensures k in Keys(a) {
      var i :| 0 <= i < |b| && Keys(b)[i] == k;
      assert b[i] in multiset(a);
      var j :| 0 <= j < |a| && a[j] == b[i];
      assert Keys(a)[j] == k;
    }
  }

  lemma {:induction false} InsertKeepsUnique<K>(e: Entry<K>, s: seq<Entry<K>>)
    requires e.key !in Keys(s) && Unique(Keys(s))
    ensures Unique(Keys(Insert(e, s)))
    ensures forall k :: k in Keys(Insert(e, s)) <==> k == e.key || k in Keys(s)
  {
    if s == [] || s[0].count <= e.count {
      assert Keys([e] + s) == [e.key] + Keys(s);
      UniqueCons(e.key, Keys(s));
    } else {
      assert Keys(s) == [s[0].key] + Keys(s[1..]);
      UniqueTail(s[0].key, Keys(s[1..]));
      InsertKeepsUnique(e, s[1..]);
      var t := Insert(e, s[1..]);
      assert Keys([s[0]] + t) == [s[0].key] + Keys(t);
      UniqueCons(s[0].key, Keys(t));
    }
  }
}
