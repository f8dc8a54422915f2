/** Keys in order of last use, and keeping the newest ones. */
module RecentlyUsed {
  import opened PyCollections

  /** Using a key puts it behind all others. */
  function Touch<T(==,!new)>(order: seq<T>, k: T): seq<T> { Without(order, k) + [k] }

  /** The last `max` keys. */
  function Newest<T>(max: nat, order: seq<T>): seq<T> {
    if |order| <= max then order else order[|order| - max..]
  }

  lemma TouchPresent<T(!new)>(order: seq<T>, k: T)
    requires NoDup(order) && k in order
    ensures NoDup(Touch(order, k)) && |Touch(order, k)| == |order|
    ensures forall x :: x in Touch(order, k) <==> x in order
  {
    WithoutPresent(order, k);
    assert forall i :: 0 <= i < |Without(order, k)| ==> Without(order, k)[i] in Without(order, k);
  }

  lemma {:induction false} WithoutPresent<T(!new)>(order: seq<T>, k: T)
    requires NoDup(order) && k in order
    ensures |Without(order, k)| == |order| - 1
  {
    var n := |order| - 1;
    assert order == order[..n] + [order[n]];
    if order[n] == k { WithoutAbsent(order[..n], k); } else { WithoutPresent(order[..n], k); }
  }

  /** All keys ever used, the one used last at the end. */
  function Recency<T(==,!new)>(history: seq<T>): (r: seq<T>)
    ensures NoDup(r)
    ensures forall k :: k in r <==> k in history
  {
    if history == [] then []
    else
      var n := |history| - 1;
      assert history == history[..n] + [history[n]];
      var before := Recency(history[..n]);
      assert forall i :: 0 <= i < |Without(before, history[n])| ==>
        Without(before, history[n])[i] in Without(before, history[n]);
      Touch(before, history[n])
  }

  lemma {:induction false} WithoutConcat<T(!new)>(a: seq<T>, b: seq<T>, k: T)
    ensures Without(a + b, k) == Without(a, k) + Without(b, k)
  {
    if b == [] {
      assert a + b == a;
    } else {
      WithoutConcat(a, b[..|b| - 1], k);
      assert (a + b)[..|a + b| - 1] == a + b[..|b| - 1];
    }
  }

  lemma NewestOfEnd<T>(max: nat, a: seq<T>, b: seq<T>)
    requires |b| >= max
    ensures Newest(max, a + b) == Newest(max, b)
  {
    assert (a + b)[|a| + |b| - max..] == b[|b| - max..];
  }

  /** Forgetting all but the newest keys first makes no difference to which are newest afterwards. */
  lemma TouchNewest<T(!new)>(max: nat, order: seq<T>, k: T)
    requires NoDup(order)
    ensures Newest(max, Touch(Newest(max, order), k)) == Newest(max, Touch(order, k))
  {
    if |order| > max {
      var a, b := order[..|order| - max], Newest(max, order);
      assert order == a + b;
      WithoutConcat(a, b, k);
      if k in b { WithoutPresent(b, k); } else { WithoutAbsent(b, k); }
      assert Touch(order, k) == Without(a, k) + Touch(b, k);
      NewestOfEnd(max, Without(a, k), Touch(b, k));
    }
  }

  lemma RecencySnoc<T(!new)>(history: seq<T>, k: T)
    ensures Recency(history + [k]) == Touch(Recency(history), k)
  {
    assert (history + [k])[..|history|] == history;
  }

  /** The position of the last use of `k`. */
  function LastUse<T(==,!new)>(history: seq<T>, k: T): (i: nat)
    requires k in history
    ensures i < |history| && history[i] == k && k !in history[i + 1..]
  {
    var n := |history| - 1;
    if history[n] == k then n
    else
      assert history == history[..n] + [history[n]];
      var i := LastUse(history[..n], k);
      assert history[i + 1..] == history[..n][i + 1..] + [history[n]];
      i
  }

  predicate UsedInOrder<T(==,!new)>(history: seq<T>, order: seq<T>) {
    && (forall i :: 0 <= i < |order| ==> order[i] in history)
    && forall i, j :: 0 <= i < j < |order| ==> LastUse(history, order[i]) < LastUse(history, order[j])
  }

  lemma {:induction false} WithoutIsCut<T(!new)>(order: seq<T>, k: T) returns (p: nat)
    requires NoDup(order) && k in order
    ensures p < |order| && order[p] == k && Without(order, k) == order[..p] + order[p + 1..]
  {
    var n := |order| - 1;
    assert order == order[..n] + [order[n]];
    if order[n] == k {
      WithoutAbsent(order[..n], k);
      p := n;
    } else {
      p := WithoutIsCut(order[..n], k);
      assert order[..n][..p] == order[..p] && order[p + 1..] == order[..n][p + 1..] + [order[n]];
    }
  }

  lemma CutKeepsOrder<T(!new)>(history: seq<T>, order: seq<T>, p: nat)
    requires UsedInOrder(history, order) && p < |order|
    ensures UsedInOrder(history, order[..p] + order[p + 1..])
  {
    var cut := order[..p] + order[p + 1..];
    forall i | 0 <= i < |cut| ensures cut[i] == order[if i < p then i else i + 1] {}
  }

  lemma WithoutKeepsOrder<T(!new)>(history: seq<T>, order: seq<T>, k: T)
    requires UsedInOrder(history, order) && NoDup(order)
    ensures UsedInOrder(history, Without(order, k))
  {
    if k in order {
      var p := WithoutIsCut(order, k);
      CutKeepsOrder(history, order, p);
    } else {
      WithoutAbsent(order, k);
    }
  }

  lemma LastUseAfter<T(!new)>(history: seq<T>, k: T, x: T)
    requires x in history && x != k
    ensures LastUse(history + [k], x) == LastUse(history, x)
  {
    assert (history + [k])[..|history|] == history;
  }

  lemma UseMovesToEnd<T(!new)>(history: seq<T>, order: seq<T>, k: T)
    requires UsedInOrder(history, order) && k !in order
    ensures UsedInOrder(history + [k], order + [k])
  {
    var after := history + [k];
    assert after[|history|] == k;
    assert LastUse(after, k) == |history|;
    forall i | 0 <= i < |order| ensures order[i] in after && LastUse(after, order[i]) == LastUse(history, order[i]) {
      assert order[i] in order;
      LastUseAfter(history, k, order[i]);
    }
  }

  /** The order of the keys is the order of their last use. */
  lemma {:induction false} RecencyIsByLastUse<T(!new)>(history: seq<T>)
    ensures UsedInOrder(history, Recency(history))
  {
    if history != [] {
      var n := |history| - 1;
      var before, k := Recency(history[..n]), history[n];
      RecencyIsByLastUse(history[..n]);
      WithoutKeepsOrder(history[..n], before, k);
      UseMovesToEnd(history[..n], Without(before, k), k);
      assert history == history[..n] + [k];
    }
  }
}
