/** Python's ordering of `str` values (code point by code point, a proper prefix
    first) and the ascending sort of keyed items that `sorted(d.items())` and
    `DataFrame.groupby` perform when keys are distinct. */
module StrOrder {

  /** `a < b` on Python strings. */
  predicate Less(a: string, b: string) {
    if |a| == 0 then |b| > 0
    else if |b| == 0 then false
    else a[0] < b[0] || (a[0] == b[0] && Less(a[1..], b[1..]))
  }

  /** No string sorts before itself. */
  lemma {:induction false} LessIrreflexive(a: string)
    ensures !Less(a, a)
  {
    if |a| > 0 {
      LessIrreflexive(a[1..]);
    }
  }

  lemma {:induction false} LessTransitive(a: string, b: string, c: string)
    requires Less(a, b) && Less(b, c)
    ensures Less(a, c)
  {
    if |a| > 0 && |b| > 0 && |c| > 0 && a[0] == b[0] == c[0] {
      LessTransitive(a[1..], b[1..], c[1..]);
    }
  }

  /** Distinct strings are always ordered one way or the other. */
  lemma {:induction false} LessTotal(a: string, b: string)
    requires a != b
    ensures Less(a, b) || Less(b, a)
  {
    if |a| > 0 && |b| > 0 && a[0] == b[0] {
      assert a == [a[0]] + a[1..] && b == [b[0]] + b[1..];
      LessTotal(a[1..], b[1..]);
    }
  }

  function KeysOf<V>(items: seq<(string, V)>): (ks: seq<string>)
    ensures |ks| == |items|
    ensures forall i :: 0 <= i < |items| ==> ks[i] == items[i].0
  {
    seq(|items|, i requires 0 <= i < |items| => items[i].0)
  }

  lemma KeysOfCons<V>(x: (string, V), items: seq<(string, V)>)
    ensures KeysOf([x] + items) == [x.0] + KeysOf(items)
  {
  }

  /** Reordering items keeps the set of keys. */
  lemma KeysOfPermutation<V>(a: seq<(string, V)>, b: seq<(string, V)>)
    requires multiset(a) == multiset(b)
    ensures forall k :: k in KeysOf(a) ==> k in KeysOf(b)
  {
    forall k | k in KeysOf(a)
      ensures k in KeysOf(b)
    {
      var i :| 0 <= i < |a| && KeysOf(a)[i] == k;
      assert a[i] in multiset(b);
      var j :| 0 <= j < |b| && b[j] == a[i];
      assert KeysOf(b)[j] == k;
    }
  }

  predicate DistinctKeys<V>(items: seq<(string, V)>) {
    forall i, j :: 0 <= i < j < |items| ==> items[i].0 != items[j].0
  }

  /** Keys strictly ascending. */
  predicate SortedByKey<V>(items: seq<(string, V)>) {
    forall i, j :: 0 <= i < j < |items| ==> Less(items[i].0, items[j].0)
  }

  /** Every key of `items` is above `k`. */
  predicate Above<V>(k: string, items: seq<(string, V)>) {
    forall i :: 0 <= i < |items| ==> Less(k, items[i].0)
  }

  lemma SortedTail<V>(items: seq<(string, V)>)
    requires SortedByKey(items) && |items| > 0
    ensures SortedByKey(items[1..]) && Above(items[0].0, items[1..])
  {
  }

  lemma SortedCons<V>(y: (string, V), items: seq<(string, V)>)
    requires SortedByKey(items) && Above(y.0, items)
    ensures SortedByKey([y] + items)
  {
  }

  lemma AboveFirst<V>(k: string, items: seq<(string, V)>)
    requires SortedByKey(items) && |items| > 0 && Less(k, items[0].0)
    ensures Above(k, items)
  {
    forall j | 0 < j < |items|
      ensures Less(k, items[j].0)
    {
      LessTransitive(k, items[0].0, items[j].0);
    }
  }

  lemma AboveOfPermutation<V>(r: seq<(string, V)>, items: seq<(string, V)>, x: (string, V), k: string)
    requires multiset(r) == multiset(items) + multiset{x}
    requires Above(k, items) && Less(k, x.0)
    ensures Above(k, r)
  {
    forall j | 0 <= j < |r|
      ensures Less(k, r[j].0)
    {
      assert r[j] in multiset(r);
      if r[j] != x {
        assert r[j] in multiset(items);
      }
    }
  }

  lemma LastSplit<T>(s: seq<T>)
    requires |s| > 0
    ensures multiset(s) == multiset(s[..|s| - 1]) + multiset{s[|s| - 1]}
  {
    assert s == s[..|s| - 1] + [s[|s| - 1]];
  }

  /** Insert `x` in front of the first item with a greater key. */
  function InsertByKey<V>(x: (string, V), items: seq<(string, V)>): (r: seq<(string, V)>)
    requires SortedByKey(items)
    requires forall i :: 0 <= i < |items| ==> items[i].0 != x.0
    ensures SortedByKey(r)
    ensures multiset(r) == multiset(items) + multiset{x}
  {
    if |items| == 0 then [x]
    else if Less(x.0, items[0].0) then
      AboveFirst(x.0, items);
      SortedCons(x, items);
      [x] + items
    else
      LessTotal(x.0, items[0].0);
      SortedTail(items);
      var rest := InsertByKey(x, items[1..]);
      AboveOfPermutation(rest, items[1..], x, items[0].0);
      SortedCons(items[0], rest);
      assert items == [items[0]] + items[1..];
      [items[0]] + rest
  }

  /** `sorted(items)` for items with distinct keys: the same items, keys ascending. */
  function SortByKey<V>(items: seq<(string, V)>): (r: seq<(string, V)>)
    requires DistinctKeys(items)
    ensures SortedByKey(r)
    ensures multiset(r) == multiset(items)
  {
    if |items| == 0 then []
    else
      var init := items[..|items| - 1];
      var last := items[|items| - 1];
      var sortedInit := SortByKey(init);
      forall i | 0 <= i < |sortedInit|
        ensures sortedInit[i].0 != last.0
      {
        assert sortedInit[i] in multiset(init);
        var k :| 0 <= k < |init| && init[k] == sortedInit[i];
      }
      LastSplit(items);
      InsertByKey(last, sortedInit)
  }
}
