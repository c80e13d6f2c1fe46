/**
 * The array operations the components chain together: `filter`, `slice`,
 * the stable `sort` with a comparator, and `Object.keys`/`Object.entries`
 * of a store snapshot.
 */
module Lists {

  /** `s.filter(p)`. */
  function Filter<T(!new)>(s: seq<T>, p: T -> bool): (r: seq<T>)
    ensures |r| <= |s|
    ensures forall x :: x in r <==> x in s && p(x)
  {
    if s == [] then [] else (if p(s[0]) then [s[0]] else []) + Filter(s[1..], p)
  }

  /** Filtering a concatenation filters each part. */
  lemma {:induction false} FilterAppend<T(!new)>(a: seq<T>, b: seq<T>, p: T -> bool)
    ensures Filter(a + b, p) == Filter(a, p) + Filter(b, p)
  {
    if a == [] {
      assert a + b == b;
    } else {
      assert (a + b)[0] == a[0];
      assert (a + b)[1..] == a[1..] + b;
      FilterAppend(a[1..], b, p);
      var h := if p(a[0]) then [a[0]] else [];
      assert Filter(a + b, p) == h + Filter(a[1..] + b, p);
      assert Filter(a, p) == h + Filter(a[1..], p);
    }
  }

  /** The number of positions of `s` holding an element that satisfies `p`. */
  ghost function CountWhere<T>(s: seq<T>, p: T -> bool): nat {
    |set i | 0 <= i < |s| && p(s[i])|
  }

  /** `s.filter(p).length` counts the positions whose element satisfies `p`. */
  lemma FilterCount<T(!new)>(s: seq<T>, p: T -> bool)
    ensures |Filter(s, p)| == CountWhere(s, p)
  {
    FilterPrefixCount(s, p, |s|);
    assert s[..|s|] == s;
  }

  lemma {:induction false} FilterPrefixCount<T(!new)>(s: seq<T>, p: T -> bool, k: nat)
    requires k <= |s|
    ensures |Filter(s[..k], p)| == |set i | 0 <= i < k && p(s[i])|
  {
    if k > 0 {
      FilterPrefixCount(s, p, k - 1);
      assert s[..k] == s[..k - 1] + [s[k - 1]];
      FilterAppend(s[..k - 1], [s[k - 1]], p);
      assert Filter([s[k - 1]], p) == if p(s[k - 1]) then [s[k - 1]] else [];
      CountStep(s, p, k);
    }
  }

  /** One more position adds one to the count exactly when it satisfies `p`. */
  lemma CountStep<T>(s: seq<T>, p: T -> bool, k: nat)
    requires 0 < k <= |s|
    ensures |set i | 0 <= i < k && p(s[i])| == |set i | 0 <= i < k - 1 && p(s[i])| + (if p(s[k - 1]) then 1 else 0)
  {
    var before := set i | 0 <= i < k - 1 && p(s[i]);
    var all := set i | 0 <= i < k && p(s[i]);
    if p(s[k - 1]) {
      assert k - 1 !in before;
      assert all == before + {k - 1};
    } else {
      assert all == before;
    }
  }

  /** `a` is obtained from `b` by deleting elements, keeping the order. */
  predicate IsSubseq<T(==)>(a: seq<T>, b: seq<T>)
    decreases |b|
  {
    if b == [] then a == []
    else (a != [] && a[0] == b[0] && IsSubseq(a[1..], b[1..])) || IsSubseq(a, b[1..])
  }

  /** Filtering keeps every kept element as often as the input holds it, drops
      the others, and keeps their order. */
  lemma {:induction false} FilterKeepsExactly<T(!new)>(s: seq<T>, p: T -> bool)
    ensures forall x :: multiset(Filter(s, p))[x] == if p(x) then multiset(s)[x] else 0
    ensures IsSubseq(Filter(s, p), s)
  {
    if s != [] {
      FilterKeepsExactly(s[1..], p);
      assert s == [s[0]] + s[1..];
      var r := Filter(s, p);
      if p(s[0]) {
        assert r[0] == s[0] && r[1..] == Filter(s[1..], p);
      } else {
        assert r == Filter(s[1..], p);
      }
    }
  }

  lemma {:induction false} SubseqRefl<T>(s: seq<T>)
    ensures IsSubseq(s, s)
  {
    if s != [] {
      SubseqRefl(s[1..]);
    }
  }

  lemma {:induction false} SubseqTrans<T>(a: seq<T>, b: seq<T>, c: seq<T>)
    requires IsSubseq(a, b) && IsSubseq(b, c)
    ensures IsSubseq(a, c)
    decreases |c|
  {
    if c != [] {
      if b != [] && b[0] == c[0] && IsSubseq(b[1..], c[1..]) {
        if a != [] && a[0] == b[0] && IsSubseq(a[1..], b[1..]) {
          SubseqTrans(a[1..], b[1..], c[1..]);
        } else {
          SubseqTrans(a, b[1..], c[1..]);
        }
      } else {
        SubseqTrans(a, b, c[1..]);
      }
    }
  }

  /** A filter and the filter of its complement split the input between them. */
  lemma {:induction false} FilterSplit<T(!new)>(s: seq<T>, p: T -> bool, q: T -> bool)
    requires forall x :: q(x) <==> !p(x)
    ensures |Filter(s, p)| + |Filter(s, q)| == |s|
  {
    if s != [] {
      FilterSplit(s[1..], p, q);
    }
  }

  /** `s.slice(0, n)`. */
  function Take<T>(s: seq<T>, n: nat): (r: seq<T>)
    ensures |r| == if |s| < n then |s| else n
    ensures r == s[..|r|]
  {
    if |s| <= n then s else s[..n]
  }

  /** A comparator `le` (read: `a` may precede `b`) that is total and transitive. */
  ghost predicate TotalPreorder<T(!new)>(le: (T, T) -> bool) {
    && (forall a, b :: le(a, b) || le(b, a))
    && (forall a, b, c :: le(a, b) && le(b, c) ==> le(a, c))
  }

  predicate SortedBy<T>(s: seq<T>, le: (T, T) -> bool) {
    forall i, j :: 0 <= i < j < |s| ==> le(s[i], s[j])
  }

  /** Places `x` before the first element it may precede. */
  function Insert<T>(x: T, s: seq<T>, le: (T, T) -> bool): (r: seq<T>)
    ensures |r| == |s| + 1
    ensures multiset(r) == multiset(s) + multiset{x}
  {
    if s == [] || le(x, s[0]) then [x] + s
    else
      assert s == [s[0]] + s[1..];
      [s[0]] + Insert(x, s[1..], le)
  }

  /** `Array.prototype.sort` with a comparator: a stable insertion sort in
      which an element is placed before every later element it may precede. */
  function SortBy<T>(s: seq<T>, le: (T, T) -> bool): (r: seq<T>)
    ensures multiset(r) == multiset(s)
  {
    if s == [] then []
    else
      assert s == [s[0]] + s[1..];
      Insert(s[0], SortBy(s[1..], le), le)
  }

  lemma {:induction false} InsertSorted<T(!new)>(x: T, s: seq<T>, le: (T, T) -> bool)
    requires TotalPreorder(le)
    requires SortedBy(s, le)
    ensures SortedBy(Insert(x, s, le), le)
  {
    if s != [] && !le(x, s[0]) {
      var rest := Insert(x, s[1..], le);
      InsertSorted(x, s[1..], le);
      forall y | y in rest
        ensures le(s[0], y)
      {
        assert y in multiset(rest);
        if y != x {
          assert y in multiset(s[1..]);
          var j :| 0 <= j < |s[1..]| && s[1..][j] == y;
          assert s[j + 1] == y;
        }
      }
      var r := [s[0]] + rest;
      forall i, j | 0 <= i < j < |r|
        ensures le(r[i], r[j])
      {
        if i == 0 {
          assert r[j] == rest[j - 1];
        } else {
          assert r[i] == rest[i - 1] && r[j] == rest[j - 1];
        }
      }
    }
  }

  /** The sort is a permutation (the ensures of `SortBy`) ordered by `le`. */
  lemma {:induction false} SortBySorted<T(!new)>(s: seq<T>, le: (T, T) -> bool)
    requires TotalPreorder(le)
    ensures SortedBy(SortBy(s, le), le)
  {
    if s != [] {
      SortBySorted(s[1..], le);
      InsertSorted(s[0], SortBy(s[1..], le), le);
    }
  }

  /** A comparator that lets any element of `s` precede any other (every
      comparison a tie) leaves `s` as it is: the sort is stable. */
  lemma {:induction false} SortByAllTies<T>(s: seq<T>, le: (T, T) -> bool)
    requires forall a, b :: a in s && b in s ==> le(a, b)
    ensures SortBy(s, le) == s
  {
    if s != [] {
      assert forall a :: a in s[1..] ==> a in s;
      SortByAllTies(s[1..], le);
      if |s| > 1 {
        assert s[1] in s;
      }
      assert [s[0]] + s[1..] == s;
    }
  }

  lemma {:induction false} InsertCongruent<T>(x: T, s: seq<T>, le1: (T, T) -> bool, le2: (T, T) -> bool)
    requires forall b :: b in s ==> le1(x, b) == le2(x, b)
    ensures Insert(x, s, le1) == Insert(x, s, le2)
  {
    if s != [] {
      assert s[0] in s;
      assert forall b :: b in s[1..] ==> b in s;
      InsertCongruent(x, s[1..], le1, le2);
    }
  }

  /** Two comparators that agree on the elements of `s` sort it alike. */
  lemma {:induction false} SortByCongruent<T>(s: seq<T>, le1: (T, T) -> bool, le2: (T, T) -> bool)
    requires forall a, b :: a in s && b in s ==> le1(a, b) == le2(a, b)
    ensures SortBy(s, le1) == SortBy(s, le2)
  {
    if s != [] {
      assert forall a :: a in s[1..] ==> a in s;
      SortByCongruent(s[1..], le1, le2);
      var t := SortBy(s[1..], le1);
      forall b | b in t
        ensures le1(s[0], b) == le2(s[0], b)
      {
        assert b in multiset(s[1..]);
        assert b in s[1..];
      }
      InsertCongruent(s[0], t, le1, le2);
    }
  }

  /** `entries` lists every key of `m` once, each with its value: what
      `Object.keys`/`Object.entries` of a snapshot of `m` deliver. */
  ghost predicate Enumerates<K, V>(entries: seq<(K, V)>, m: map<K, V>) {
    && (forall i, j :: 0 <= i < j < |entries| ==> entries[i].0 != entries[j].0)
    && (forall i :: 0 <= i < |entries| ==> entries[i].0 in m && m[entries[i].0] == entries[i].1)
    && (forall k :: k in m ==> exists i :: 0 <= i < |entries| && entries[i].0 == k)
  }

  /** `Object.keys(data).filter(k => keep(data[k])).map(k => tag(k, data[k]))`
      over the snapshot entries of `data`. */
  function SelectTagged<K, V, R>(entries: seq<(K, V)>, keep: V -> bool, tag: (K, V) -> R): (r: seq<R>)
    ensures |r| <= |entries|
  {
    if entries == [] then []
    else (if keep(entries[0].1) then [tag(entries[0].0, entries[0].1)] else []) + SelectTagged(entries[1..], keep, tag)
  }

  /** The listing holds the tag of every kept entry and nothing else. */
  lemma {:induction false} SelectTaggedMembers<K, V, R>(entries: seq<(K, V)>, keep: V -> bool, tag: (K, V) -> R)
    ensures forall x :: x in SelectTagged(entries, keep, tag) ==>
      exists i :: 0 <= i < |entries| && keep(entries[i].1) && x == tag(entries[i].0, entries[i].1)
    ensures forall i :: 0 <= i < |entries| && keep(entries[i].1) ==> tag(entries[i].0, entries[i].1) in SelectTagged(entries, keep, tag)
  {
    if entries != [] {
      SelectTaggedMembers(entries[1..], keep, tag);
      assert forall i :: 1 <= i < |entries| ==> entries[i] == entries[1..][i - 1];
      var r := SelectTagged(entries, keep, tag);
      forall x | x in r
        ensures exists i :: 0 <= i < |entries| && keep(entries[i].1) && x == tag(entries[i].0, entries[i].1)
      {
        if !(keep(entries[0].1) && x == tag(entries[0].0, entries[0].1)) {
          assert x in SelectTagged(entries[1..], keep, tag);
          var j :| 0 <= j < |entries[1..]| && keep(entries[1..][j].1) && x == tag(entries[1..][j].0, entries[1..][j].1);
          assert entries[j + 1] == entries[1..][j];
        }
      }
    }
  }

  /** The listing of a concatenation is the concatenation of the listings,
      and a single entry lists as its tag exactly when it is kept: together,
      the kept entries appear in snapshot order, once each. */
  lemma {:induction false} SelectTaggedAppend<K, V, R>(a: seq<(K, V)>, b: seq<(K, V)>, keep: V -> bool, tag: (K, V) -> R)
    ensures SelectTagged(a + b, keep, tag) == SelectTagged(a, keep, tag) + SelectTagged(b, keep, tag)
    ensures |a| == 1 ==> SelectTagged(a, keep, tag) == if keep(a[0].1) then [tag(a[0].0, a[0].1)] else []
  {
    if a == [] {
      assert a + b == b;
    } else {
      assert (a + b)[0] == a[0];
      assert (a + b)[1..] == a[1..] + b;
      SelectTaggedAppend(a[1..], b, keep, tag);
      var h := if keep(a[0].1) then [tag(a[0].0, a[0].1)] else [];
      assert SelectTagged(a + b, keep, tag) == h + SelectTagged(a[1..] + b, keep, tag);
      assert SelectTagged(a, keep, tag) == h + SelectTagged(a[1..], keep, tag);
    }
  }

  /** The listing has one element per kept entry. */
  lemma SelectTaggedCount<K, V, R>(entries: seq<(K, V)>, keep: V -> bool, tag: (K, V) -> R)
    ensures |SelectTagged(entries, keep, tag)| == CountWhere(Values(entries), keep)
  {
    SelectTaggedPrefixCount(entries, keep, tag, |entries|);
    assert entries[..|entries|] == entries;
    var vs := Values(entries);
    assert (set i | 0 <= i < |entries| && keep(entries[i].1)) == (set i | 0 <= i < |vs| && keep(vs[i]));
  }

  lemma {:induction false} SelectTaggedPrefixCount<K, V, R>(entries: seq<(K, V)>, keep: V -> bool, tag: (K, V) -> R, k: nat)
    requires k <= |entries|
    ensures |SelectTagged(entries[..k], keep, tag)| == |set i | 0 <= i < k && keep(entries[i].1)|
  {
    if k > 0 {
      SelectTaggedPrefixCount(entries, keep, tag, k - 1);
      assert entries[..k] == entries[..k - 1] + [entries[k - 1]];
      SelectTaggedAppend(entries[..k - 1], [entries[k - 1]], keep, tag);
      SelectTaggedAppend([entries[k - 1]], [], keep, tag);
      assert |SelectTagged([entries[k - 1]], keep, tag)| == if keep(entries[k - 1].1) then 1 else 0;
      assert |SelectTagged(entries[..k], keep, tag)| ==
        |SelectTagged(entries[..k - 1], keep, tag)| + |SelectTagged([entries[k - 1]], keep, tag)|;
      KeptCountStep(entries, keep, k);
    }
  }

  /** One more entry adds one to the count exactly when it is kept. */
  lemma KeptCountStep<K, V>(entries: seq<(K, V)>, keep: V -> bool, k: nat)
    requires 0 < k <= |entries|
    ensures |set i | 0 <= i < k && keep(entries[i].1)| ==
      |set i | 0 <= i < k - 1 && keep(entries[i].1)| + (if keep(entries[k - 1].1) then 1 else 0)
  {
    var before := set i | 0 <= i < k - 1 && keep(entries[i].1);
    var all := set i | 0 <= i < k && keep(entries[i].1);
    if keep(entries[k - 1].1) {
      assert k - 1 !in before;
      assert all == before + {k - 1};
    } else {
      assert all == before;
    }
  }

  /** The listing starts with the first kept entry's tag. */
  lemma {:induction false} SelectTaggedFirst<K, V, R>(entries: seq<(K, V)>, keep: V -> bool, tag: (K, V) -> R, i: int)
    requires 0 <= i < |entries| && keep(entries[i].1)
    requires forall j :: 0 <= j < i ==> !keep(entries[j].1)
    ensures |SelectTagged(entries, keep, tag)| > 0
    ensures SelectTagged(entries, keep, tag)[0] == tag(entries[i].0, entries[i].1)
  {
    if i > 0 {
      assert forall j :: 0 <= j < i - 1 ==> entries[1..][j] == entries[j + 1];
      SelectTaggedFirst(entries[1..], keep, tag, i - 1);
    }
  }

  /** `Object.values` of a snapshot. */
  function Values<K, V>(entries: seq<(K, V)>): (r: seq<V>)
    ensures |r| == |entries|
    ensures forall i :: 0 <= i < |r| ==> r[i] == entries[i].1
  {
    if entries == [] then [] else [entries[0].1] + Values(entries[1..])
  }
}
