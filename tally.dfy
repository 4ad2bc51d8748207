/** Counting dictionaries in insertion order.

    The solver counts with a Python `dict` whose iteration order is the order
    in which keys were first inserted; the model keeps such a dictionary as a
    sequence of entries with distinct keys. */
module Tally {
  import opened Seqs

  /** One key of a counting dictionary with its count. */
  datatype Entry<K> = Entry(key: K, count: nat)

  /** The keys in insertion order, as `list(d.keys())` lists them. */
  function Keys<K>(es: seq<Entry<K>>): seq<K> {
    seq(|es|, i requires 0 <= i < |es| => es[i].key)
  }

  /** Sum of all counts. */
  function Total<K>(es: seq<Entry<K>>): nat {
    if es == [] then 0 else es[0].count + Total(es[1..])
  }

  /** `d[k] = d.get(k, 0) + 1`: the count of `k` goes up by one; a key not yet
      present is inserted at the end with count 1. */
  function Bump<K(==)>(es: seq<Entry<K>>, k: K): (r: seq<Entry<K>>)
    requires Unique(Keys(es))
    ensures Unique(Keys(r))
    ensures Keys(r) == if k in Keys(es) then Keys(es) else Keys(es) + [k]
    ensures forall i :: 0 <= i < |r| ==>
              r[i].count == (if i < |es| then es[i].count else 0) + (if r[i].key == k then 1 else 0)
    ensures Total(r) == Total(es) + 1
  {
    if es == [] then
      assert Keys([Entry(k, 1)]) == [k];
      [Entry(k, 1)]
    else if es[0].key == k then
      BumpHead(es, k);
      assert Keys(es)[0] == k;
      [Entry(k, es[0].count + 1)] + es[1..]
    else
      KeysCons(es[0], es[1..]);
      assert [es[0]] + es[1..] == es;
      UniqueTail(es[0].key, Keys(es[1..]));
      var t := Bump(es[1..], k);
      BumpTail(es, k, t);
      [es[0]] + t
  }

  /** The keys of a sequence with one more entry in front. */
  lemma KeysCons<K>(e: Entry<K>, s: seq<Entry<K>>)
    ensures Keys([e] + s) == [e.key] + Keys(s)
  {
  }

  /** `Bump` when the first key is the one counted. */
  lemma BumpHead<K>(es: seq<Entry<K>>, k: K)
    requires es != [] && es[0].key == k && Unique(Keys(es))
    ensures var r := [Entry(k, es[0].count + 1)] + es[1..];
            && Keys(r) == Keys(es)
            && (forall i :: 0 <= i < |r| ==>
                  r[i].count == (if i < |es| then es[i].count else 0) + (if r[i].key == k then 1 else 0))
            && Total(r) == Total(es) + 1
  {
    var r := [Entry(k, es[0].count + 1)] + es[1..];
    KeysCons(Entry(k, es[0].count + 1), es[1..]);
    KeysCons(es[0], es[1..]);
    assert [es[0]] + es[1..] == es;
    UniqueTail(k, Keys(es[1..]));
    forall i | 0 < i < |r| ensures r[i].key != k {
      assert r[i] == es[1..][i - 1];
      assert Keys(es[1..])[i - 1] == r[i].key;
    }
    assert r[1..] == es[1..];
  }

  /** `Bump` when the first key is another one: the rest is bumped. */
  lemma {:induction false} BumpTail<K>(es: seq<Entry<K>>, k: K, t: seq<Entry<K>>)
    requires es != [] && es[0].key != k && Keys(es) == [es[0].key] + Keys(es[1..]) && Unique(Keys(es))
    requires Unique(Keys(t))
    requires Keys(t) == if k in Keys(es[1..]) then Keys(es[1..]) else Keys(es[1..]) + [k]
    requires forall i :: 0 <= i < |t| ==>
               t[i].count == (if i < |es| - 1 then es[i + 1].count else 0) + (if t[i].key == k then 1 else 0)
    requires Total(t) == Total(es[1..]) + 1
    ensures var r := [es[0]] + t;
            && Unique(Keys(r))
            && Keys(r) == (if k in Keys(es) then Keys(es) else Keys(es) + [k])
            && (forall i :: 0 <= i < |r| ==>
                  r[i].count == (if i < |es| then es[i].count else 0) + (if r[i].key == k then 1 else 0))
            && Total(r) == Total(es) + 1
  {
    var r := [es[0]] + t;
    KeysCons(es[0], t);
    UniqueTail(es[0].key, Keys(es[1..]));
    assert es[0].key !in Keys(t);
    UniqueCons(es[0].key, Keys(t));
    assert r[1..] == t;
    forall i | 0 < i < |r|
      ensures r[i].count == (if i < |es| then es[i].count else 0) + (if r[i].key == k then 1 else 0)
    {
      assert r[i] == t[i - 1];
    }
  }

  /** The dictionary that counting every element of `s` in order produces. */
  function Tally<K(==,!new)>(s: seq<K>): (r: seq<Entry<K>>)
    ensures Keys(r) == FirstSeen(s)
    ensures forall i :: 0 <= i < |r| ==> 1 <= r[i].count == Count(s, r[i].key)
    ensures Total(r) == |s|
  {
    if s == [] then []
    else
      var t := Tally(s[..|s| - 1]);
      var c := s[|s| - 1];
      TallyStep(s[..|s| - 1], c, t);
      assert s[..|s| - 1] + [c] == s;
      Bump(t, c)
  }

  /** Counting one more element is one `Bump`. */
  lemma TallySnoc<K(!new)>(s: seq<K>, c: K)
    ensures Tally(s + [c]) == Bump(Tally(s), c)
  {
    assert (s + [c])[..|s + [c]| - 1] == s;
  }

  /** Counting one more element of `s`, read as a prefix. */
  lemma TallyPrefix<K(!new)>(s: seq<K>, i: nat)
    requires i < |s|
    ensures Unique(Keys(Tally(s[..i])))
    ensures Tally(s[..i + 1]) == Bump(Tally(s[..i]), s[i])
  {
    assert s[..i + 1] == s[..i] + [s[i]];
    TallySnoc(s[..i], s[i]);
  }

  /** Counting one more element of `w` after `before`. */
  lemma TallyExtend<K(!new)>(before: seq<K>, w: seq<K>, j: nat)
    requires j < |w|
    ensures Unique(Keys(Tally(before + w[..j])))
    ensures Tally(before + w[..j + 1]) == Bump(Tally(before + w[..j]), w[j])
  {
    PrefixSnoc(before, w, j);
    TallySnoc(before + w[..j], w[j]);
  }

  lemma TallyStep<K(!new)>(s: seq<K>, c: K, t: seq<Entry<K>>)
    requires Keys(t) == FirstSeen(s)
    requires forall i :: 0 <= i < |t| ==> 1 <= t[i].count == Count(s, t[i].key)
    ensures forall i :: 0 <= i < |Bump(t, c)| ==> 1 <= Bump(t, c)[i].count == Count(s + [c], Bump(t, c)[i].key)
  {
    var r := Bump(t, c);
    assert (s + [c])[..|s|] == s;
    forall i | 0 <= i < |r| ensures 1 <= r[i].count == Count(s + [c], r[i].key) {
      assert r[i].key == Keys(r)[i];
      if i < |t| {
        assert t[i].key == Keys(t)[i] == Keys(r)[i];
      } else {
        assert c !in FirstSeen(s);
        CountAbsent(s, c);
      }
    }
  }

  lemma UniqueCons<K>(x: K, u: seq<K>)
    requires x !in u && Unique(u)
    ensures Unique([x] + u)
  {
    forall i, j | 0 <= i < j < |[x] + u| ensures ([x] + u)[i] != ([x] + u)[j] {
      if i > 0 { assert ([x] + u)[i] == u[i - 1]; }
      assert ([x] + u)[j] == u[j - 1];
    }
  }

  lemma UniqueTail<K>(x: K, u: seq<K>)
    requires Unique([x] + u)
    ensures x !in u && Unique(u)
  {
    forall j | 0 <= j < |u| ensures u[j] != x {
      var v := [x] + u;
      assert v[0] == x && v[j + 1] == u[j];
    }
    forall i, j | 0 <= i < j < |u| ensures u[i] != u[j] {
      var v := [x] + u;
      assert v[i + 1] == u[i] && v[j + 1] == u[j];
      assert 0 <= i + 1 < j + 1 < |v|;
    }
  }
}
