/** Python's `sorted(..., reverse=True)`: descending and stable. */
module Sorting {

  /** Sort keys compare like tuples of two numbers. */
  type Key = (real, real)

  predicate Less(a: Key, b: Key) { a.0 < b.0 || (a.0 == b.0 && a.1 < b.1) }

  /** Behind every element that is not smaller. */
  function Insert<T>(s: seq<T>, x: T, key: T -> Key): seq<T> {
    if s == [] || !Less(key(s[|s| - 1]), key(x)) then s + [x]
    else Insert(s[..|s| - 1], x, key) + [s[|s| - 1]]
  }

  function SortDesc<T>(s: seq<T>, key: T -> Key): seq<T> {
    if s == [] then [] else Insert(SortDesc(s[..|s| - 1], key), s[|s| - 1], key)
  }

  ghost predicate Descending<T>(s: seq<T>, key: T -> Key) {
    forall i, j :: 0 <= i < j < |s| ==> !Less(key(s[i]), key(s[j]))
  }

  /** The elements with one given key, in order. */
  function Ties<T>(s: seq<T>, key: T -> Key, value: Key): seq<T> {
    if s == [] then []
    else Ties(s[..|s| - 1], key, value) + if key(s[|s| - 1]) == value then [s[|s| - 1]] else []
  }

  lemma {:induction false} InsertAdds<T>(s: seq<T>, x: T, key: T -> Key)
    ensures multiset(Insert(s, x, key)) == multiset(s) + multiset{x}
    ensures |Insert(s, x, key)| == |s| + 1
    ensures forall i :: 0 <= i <= |s| ==> Insert(s, x, key)[i] == x || Insert(s, x, key)[i] in s
  {
    if s != [] && Less(key(s[|s| - 1]), key(x)) {
      InsertAdds(s[..|s| - 1], x, key);
      assert s == s[..|s| - 1] + [s[|s| - 1]];
    }
  }

  lemma {:induction false} InsertSorts<T>(s: seq<T>, x: T, key: T -> Key)
    requires Descending(s, key)
    ensures Descending(Insert(s, x, key), key)
  {
    if s != [] {
      var n := |s| - 1;
      var bottom := key(s[n]);
      assert forall i :: 0 <= i < n ==> !Less(key(s[i]), bottom);
      if Less(bottom, key(x)) {
        InsertSorts(s[..n], x, key);
        InsertAdds(s[..n], x, key);
        var t := Insert(s[..n], x, key);
        forall i | 0 <= i < |t| ensures !Less(key(t[i]), bottom) {
          assert t[i] == x || t[i] in s[..n];
        }
      }
    }
  }

  lemma {:induction false} InsertKeepsTies<T>(s: seq<T>, x: T, key: T -> Key, value: Key)
    requires Descending(s, key)
    ensures Ties(Insert(s, x, key), key, value) == Ties(s, key, value) + if key(x) == value then [x] else []
  {
    var r := Insert(s, x, key);
    if s == [] || !Less(key(s[|s| - 1]), key(x)) {
      assert r[..|r| - 1] == s;
    } else {
      var n := |s| - 1;
      InsertKeepsTies(s[..n], x, key, value);
      assert r[..|r| - 1] == Insert(s[..n], x, key);
    }
  }

  /** The result is a descending permutation in which equal keys keep their order. */
  lemma {:induction false} SortDescSorts<T>(s: seq<T>, key: T -> Key)
    ensures Descending(SortDesc(s, key), key)
    ensures multiset(SortDesc(s, key)) == multiset(s)
    ensures |SortDesc(s, key)| == |s|
    ensures forall value :: Ties(SortDesc(s, key), key, value) == Ties(s, key, value)
  {
    if s != [] {
      var n := |s| - 1;
      SortDescSorts(s[..n], key);
      InsertSorts(SortDesc(s[..n], key), s[n], key);
      InsertAdds(SortDesc(s[..n], key), s[n], key);
      assert s == s[..n] + [s[n]];
      forall value ensures Ties(SortDesc(s, key), key, value) == Ties(s, key, value) {
        InsertKeepsTies(SortDesc(s[..n], key), s[n], key, value);
      }
    }
  }

  lemma {:induction false} TiesConcat<T>(xs: seq<T>, ys: seq<T>, key: T -> Key, value: Key)
    ensures Ties(xs + ys, key, value) == Ties(xs, key, value) + Ties(ys, key, value)
  {
    if ys == [] {
      assert xs + ys == xs;
    } else {
      TiesConcat(xs, ys[..|ys| - 1], key, value);
      assert (xs + ys)[..|xs + ys| - 1] == xs + ys[..|ys| - 1];
    }
  }

  /** An element stands among its ties behind as many as precede it. */
  lemma TieIsPlaced<T>(s: seq<T>, key: T -> Key, p: nat)
    requires p < |s|
    ensures var before, all := Ties(s[..p], key, key(s[p])), Ties(s, key, key(s[p]));
            |before| < |all| && all[|before|] == s[p]
  {
    var value := key(s[p]);
    TiesConcat(s[..p], [s[p]], key, value);
    TiesConcat(s[..p] + [s[p]], s[p + 1..], key, value);
    assert s[..p] + [s[p]] + s[p + 1..] == s;
    assert Ties([s[p]], key, value) == [s[p]] by {
      assert [s[p]][..0] == [];
    }
  }

  lemma EarlierTiesAreFewer<T>(s: seq<T>, key: T -> Key, p: nat, q: nat)
    requires p < q <= |s|
    ensures |Ties(s[..p], key, key(s[p]))| < |Ties(s[..q], key, key(s[p]))|
  {
    TieIsPlaced(s[..q], key, p);
    assert s[..q][..p] == s[..p];
  }

  lemma {:induction false} TieComesFrom<T>(s: seq<T>, key: T -> Key, value: Key, k: nat) returns (i: nat)
    requires k < |Ties(s, key, value)|
    ensures i < |s| && s[i] == Ties(s, key, value)[k] && key(s[i]) == value && |Ties(s[..i], key, value)| == k
  {
    var n := |s| - 1;
    if k < |Ties(s[..n], key, value)| {
      i := TieComesFrom(s[..n], key, value, k);
      assert s[..n][..i] == s[..i];
    } else {
      i := n;
    }
  }

  /** Sorting is stable: two elements with equal keys come out in an order they went in. */
  lemma TiesStayInOrder<T>(s: seq<T>, key: T -> Key, p: nat, q: nat) returns (i: nat, j: nat)
    requires p < q < |SortDesc(s, key)| && key(SortDesc(s, key)[p]) == key(SortDesc(s, key)[q])
    ensures i < j < |s| && s[i] == SortDesc(s, key)[p] && s[j] == SortDesc(s, key)[q]
  {
    SortDescSorts(s, key);
    var r := SortDesc(s, key);
    var value := key(r[p]);
    TieIsPlaced(r, key, p);
    TieIsPlaced(r, key, q);
    EarlierTiesAreFewer(r, key, p, q);
    i := TieComesFrom(s, key, value, |Ties(r[..p], key, value)|);
    j := TieComesFrom(s, key, value, |Ties(r[..q], key, value)|);
    if j < i { EarlierTiesAreFewer(s, key, j, i); }
  }

  ghost predicate AllDifferent<T(!new)>(s: seq<T>) {
    forall i, j :: 0 <= i < j < |s| ==> s[i] != s[j]
  }

  /** The whole order of a sorted list of different elements: the larger key first, and of two equal keys the
      one that came in first. */
  lemma SortOrderIff<T(!new)>(s: seq<T>, key: T -> Key, i: nat, j: nat, p: nat, q: nat)
    requires AllDifferent(s) && i < |s| && j < |s| && i != j
    requires p < |SortDesc(s, key)| && q < |SortDesc(s, key)|
    requires SortDesc(s, key)[p] == s[i] && SortDesc(s, key)[q] == s[j]
    ensures p < q <==> Less(key(s[j]), key(s[i])) || (key(s[i]) == key(s[j]) && i < j)
  {
    SortDescSorts(s, key);
    assert s[i] != s[j];
    if key(s[i]) == key(s[j]) {
      if p < q { var i', j' := TiesStayInOrder(s, key, p, q); assert i' == i && j' == j; }
      if q < p { var j', i' := TiesStayInOrder(s, key, q, p); assert i' == i && j' == j; }
    }
  }

  /** When nothing distinguishes the elements the order stays. */
  lemma {:induction false} SortDescKeepsEquals<T>(s: seq<T>, key: T -> Key)
    requires forall i, j :: 0 <= i < |s| && 0 <= j < |s| ==> !Less(key(s[i]), key(s[j]))
    ensures SortDesc(s, key) == s
  {
    if s != [] {
      var n := |s| - 1;
      SortDescKeepsEquals(s[..n], key);
      if n > 0 { assert !Less(key(s[n - 1]), key(s[n])); }
    }
  }

  function Each<T, U>(s: seq<T>, f: T -> U): seq<U> {
    seq(|s|, i requires 0 <= i < |s| => f(s[i]))
  }

  lemma {:induction false} EachInsert<T, U>(s: seq<T>, x: T, key: T -> Key, f: T -> U)
    ensures multiset(Each(Insert(s, x, key), f)) == multiset(Each(s, f)) + multiset{f(x)}
  {
    var r := Insert(s, x, key);
    if s == [] || !Less(key(s[|s| - 1]), key(x)) {
      assert Each(r, f) == Each(s, f) + [f(x)];
    } else {
      var n := |s| - 1;
      EachInsert(s[..n], x, key, f);
      assert Each(r, f) == Each(Insert(s[..n], x, key), f) + [f(s[n])];
      assert Each(s, f) == Each(s[..n], f) + [f(s[n])];
    }
  }

  /** Sorting first or mapping first, the same values come out. */
  lemma {:induction false} EachSort<T, U>(s: seq<T>, key: T -> Key, f: T -> U)
    ensures multiset(Each(SortDesc(s, key), f)) == multiset(Each(s, f))
  {
    if s != [] {
      var n := |s| - 1;
      EachSort(s[..n], key, f);
      EachInsert(SortDesc(s[..n], key), s[n], key, f);
      assert Each(s, f) == Each(s[..n], f) + [f(s[n])];
    }
  }
}
