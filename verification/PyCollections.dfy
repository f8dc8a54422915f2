/** Python's dictionaries, which remember insertion order, and its stable descending sort. */
module PyCollections {

  predicate NoDup<T(==)>(s: seq<T>) { forall i, j :: 0 <= i < j < |s| ==> s[i] != s[j] }

  lemma NoDupSnoc<T>(s: seq<T>, x: T)
    requires NoDup(s) && x !in s
    ensures NoDup(s + [x])
  {
  }

  lemma NoDupSuffix<T>(s: seq<T>, d: nat)
    requires NoDup(s) && d <= |s|
    ensures NoDup(s[d..])
  {
  }

  function Without<T(==,!new)>(s: seq<T>, x: T): (r: seq<T>)
    ensures forall y :: y in r <==> y in s && y != x
    ensures NoDup(s) ==> NoDup(r)
  {
    if s == [] then []
    else
      var n := |s| - 1;
      var front := Without(s[..n], x);
      assert s == s[..n] + [s[n]];
      assert NoDup(s) ==> s[n] !in s[..n];
      assert forall i :: 0 <= i < |front| ==> front[i] in front;
      if s[n] == x then front else front + [s[n]]
  }

  lemma {:induction false} WithoutAbsent<T(!new)>(s: seq<T>, x: T)
    requires x !in s
    ensures Without(s, x) == s
  {
    if s != [] {
      WithoutAbsent(s[..|s| - 1], x);
    }
  }

  /** A dictionary: its keys in insertion order, and its entries. */
  datatype Dict<K(==,!new), V> = Dict(order: seq<K>, data: map<K, V>) {

    ghost predicate Valid() { NoDup(order) && forall k :: k in order <==> k in data }

    function Set(k: K, v: V): (d: Dict<K, V>)
      ensures Valid() ==> d.Valid()
    {
      if k in data then Dict(order, data[k := v]) else Dict(order + [k], data[k := v])
    }

    function Values(): (vs: seq<V>)
      requires Valid()
      ensures |vs| == |order| && forall i :: 0 <= i < |vs| ==> vs[i] == data[order[i]]
    {
      seq(|order|, i requires 0 <= i < |order| => data[order[i]])
    }
  }

  function EmptyDict<K(!new), V>(): (d: Dict<K, V>) ensures d.Valid() { Dict([], map[]) }

  // ----- sorting -----------------------------------------------------------------------

  predicate SortedDesc<T>(key: T -> real, s: seq<T>) {
    forall i, j :: 0 <= i < j < |s| ==> key(s[i]) >= key(s[j])
  }

  /** Puts `x` behind every element whose key is not smaller. */
  function Insert<T>(key: T -> real, s: seq<T>, x: T): seq<T> {
    if s == [] || key(s[|s| - 1]) >= key(x) then s + [x]
    else Insert(key, s[..|s| - 1], x) + [s[|s| - 1]]
  }

  /** `sorted(s, key=key, reverse=True)`: descending, equal keys in their given order. */
  function SortDesc<T>(key: T -> real, s: seq<T>): seq<T> {
    if s == [] then [] else Insert(key, SortDesc(key, s[..|s| - 1]), s[|s| - 1])
  }

  lemma MemberOfInsert<T>(inner: seq<T>, s: seq<T>, x: T, y: T)
    requires multiset(inner) == multiset(s) + multiset{x} && y in inner
    ensures y == x || y in s
  {
    assert y in multiset(inner);
  }

  lemma {:induction false} InsertKeepsMembers<T>(key: T -> real, s: seq<T>, x: T)
    ensures multiset(Insert(key, s, x)) == multiset(s) + multiset{x}
  {
    if s != [] && key(s[|s| - 1]) < key(x) {
      InsertKeepsMembers(key, s[..|s| - 1], x);
      assert s == s[..|s| - 1] + [s[|s| - 1]];
    }
  }

  lemma {:induction false} InsertKeepsOrder<T>(key: T -> real, s: seq<T>, x: T)
    requires SortedDesc(key, s)
    ensures SortedDesc(key, Insert(key, s, x))
  {
    if s != [] && key(s[|s| - 1]) < key(x) {
      var front, last := s[..|s| - 1], s[|s| - 1];
      InsertKeepsOrder(key, front, x);
      InsertKeepsMembers(key, front, x);
      var inner := Insert(key, front, x);
      forall i | 0 <= i < |inner| ensures key(inner[i]) >= key(last) {
        MemberOfInsert(inner, front, x, inner[i]);
      }
    }
  }

  lemma SameMultisetSameLength<T>(a: seq<T>, b: seq<T>)
    requires multiset(a) == multiset(b)
    ensures |a| == |b|
  {
    assert |multiset(a)| == |multiset(b)|;
  }

  lemma {:induction false} SortProperties<T>(key: T -> real, s: seq<T>)
    ensures SortedDesc(key, SortDesc(key, s))
    ensures multiset(SortDesc(key, s)) == multiset(s)
    ensures |SortDesc(key, s)| == |s|
  {
    if s != [] {
      var n := |s| - 1;
      SortProperties(key, s[..n]);
      InsertKeepsOrder(key, SortDesc(key, s[..n]), s[n]);
      InsertKeepsMembers(key, SortDesc(key, s[..n]), s[n]);
      assert s == s[..n] + [s[n]];
    }
    SameMultisetSameLength(SortDesc(key, s), s);
  }

  lemma LastIsSmallest<T>(key: T -> real, s: seq<T>, x: T)
    requires SortedDesc(key, s) && x in multiset(s)
    ensures s != [] && key(x) >= key(s[|s| - 1])
  {
    var i :| 0 <= i < |s| && s[i] == x;
  }

  lemma DropLast<T>(s: seq<T>)
    requires s != []
    ensures multiset(s[..|s| - 1]) == multiset(s) - multiset{s[|s| - 1]}
    ensures s[|s| - 1] in multiset(s)
  {
    assert s == s[..|s| - 1] + [s[|s| - 1]];
  }

  /** The key tells the elements of `s` apart. */
  predicate Injective<T(==)>(key: T -> real, s: seq<T>) {
    forall i, j :: 0 <= i < j < |s| && key(s[i]) == key(s[j]) ==> s[i] == s[j]
  }

  lemma SameLast<T>(key: T -> real, a: seq<T>, b: seq<T>)
    requires SortedDesc(key, a) && SortedDesc(key, b) && multiset(a) == multiset(b) && Injective(key, a)
    requires a != []
    ensures b != [] && a[|a| - 1] == b[|b| - 1] && multiset(a[..|a| - 1]) == multiset(b[..|b| - 1])
  {
    assert |multiset(a)| == |a| && |multiset(b)| == |b|;
    DropLast(a);
    DropLast(b);
    var x, y := a[|a| - 1], b[|b| - 1];
    LastIsSmallest(key, b, x);
    LastIsSmallest(key, a, y);
    assert y in multiset(a);
    var j :| 0 <= j < |a| && a[j] == y;
  }

  /** Two descending arrangements of the same elements are equal when the key tells elements apart. */
  lemma {:induction false} SortedUnique<T>(key: T -> real, a: seq<T>, b: seq<T>)
    requires SortedDesc(key, a) && SortedDesc(key, b) && multiset(a) == multiset(b) && Injective(key, a)
    ensures a == b
    decreases |a|
  {
    if a == [] {
      assert |multiset(b)| == 0;
    } else {
      SameLast(key, a, b);
      SortedUnique(key, a[..|a| - 1], b[..|b| - 1]);
      assert a == a[..|a| - 1] + [a[|a| - 1]] && b == b[..|b| - 1] + [b[|b| - 1]];
    }
  }

  lemma {:induction false} Multiplicity<T>(s: seq<T>, x: T)
    ensures NoDup(s) ==> multiset(s)[x] <= 1
    ensures forall i, j :: 0 <= i < j < |s| && s[i] == s[j] == x ==> multiset(s)[x] >= 2
  {
    if s != [] {
      var n := |s| - 1;
      assert s == s[..n] + [s[n]];
      Multiplicity(s[..n], x);
      forall i, j | 0 <= i < j < |s| && s[i] == s[j] == x ensures multiset(s)[x] >= 2 {
        if j == n { assert s[..n][i] in multiset(s[..n]); }
        else { assert s[..n][i] == s[..n][j]; }
      }
      if NoDup(s) && s[n] == x { assert x !in s[..n]; }
    }
  }

  lemma NoDupIsMultiset<T>(a: seq<T>, b: seq<T>)
    requires NoDup(a) && multiset(a) == multiset(b)
    ensures NoDup(b)
  {
    forall i, j | 0 <= i < j < |b| ensures b[i] != b[j] {
      Multiplicity(a, b[i]);
      Multiplicity(b, b[i]);
    }
  }
}
