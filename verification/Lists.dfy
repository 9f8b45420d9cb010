/** Lists of numbers: without repetition, without one element, and their sums. */
module Lists {

  predicate Distinct(list: seq<nat>) {
    forall j, k :: 0 <= j < k < |list| ==> list[j] != list[k]
  }

  lemma LastApart(list: seq<nat>)
    requires list != []
    ensures list == list[..|list| - 1] + [list[|list| - 1]]
    ensures Distinct(list) ==> Distinct(list[..|list| - 1]) && list[|list| - 1] !in list[..|list| - 1]
  {
  }

  function Without(list: seq<nat>, i: nat): (r: seq<nat>)
    ensures forall x: nat :: x in r <==> x in list && x != i
  {
    if list == [] then []
    else
      LastApart(list);
      var r := Without(list[..|list| - 1], i);
      if list[|list| - 1] == i then r else r + [list[|list| - 1]]
  }

  lemma WithoutPush(list: seq<nat>, x: nat, i: nat)
    ensures Without(list + [x], i) == Without(list, i) + (if x == i then [] else [x])
  {
    assert (list + [x])[..|list|] == list;
  }

  lemma {:induction false} WithoutDistinct(list: seq<nat>, i: nat)
    requires Distinct(list)
    ensures Distinct(Without(list, i))
  {
    if list != [] {
      LastApart(list);
      WithoutDistinct(list[..|list| - 1], i);
    }
  }

  lemma {:induction false} WithoutMiddle(a: seq<nat>, i: nat, b: seq<nat>)
    requires i !in a && i !in b
    ensures Without(a + [i] + b, i) == a + b
  {
    if b == [] {
      WithoutNone(a, i);
      assert (a + [i] + b)[..|a|] == a && a + b == a;
    } else {
      var last := |b| - 1;
      assert (a + [i] + b)[..|a| + |b|] == a + [i] + b[..last];
      WithoutMiddle(a, i, b[..last]);
      assert a + b == a + b[..last] + [b[last]];
    }
  }

  lemma {:induction false} WithoutNone(a: seq<nat>, i: nat)
    requires i !in a
    ensures Without(a, i) == a
  {
    if a != [] {
      WithoutNone(a[..|a| - 1], i);
    }
  }

  function Sum(xs: seq<nat>): (r: nat) {
    if xs == [] then 0 else xs[0] + Sum(xs[1..])
  }

  lemma {:induction false} SumUpdate(xs: seq<nat>, i: nat, v: nat)
    requires i < |xs|
    ensures Sum(xs[i := v]) + xs[i] == Sum(xs) + v
  {
    if i == 0 {
      assert xs[0 := v][1..] == xs[1..];
    } else {
      assert xs[i := v][1..] == xs[1..][i - 1 := v];
      SumUpdate(xs[1..], i - 1, v);
    }
  }

  lemma {:induction false} SumAppend(xs: seq<nat>, v: nat)
    ensures Sum(xs + [v]) == Sum(xs) + v
  {
    if xs != [] {
      assert (xs + [v])[1..] == xs[1..] + [v];
      SumAppend(xs[1..], v);
    }
  }

  lemma {:induction false} SumIsAtLeast(xs: seq<nat>, i: nat)
    requires i < |xs|
    ensures xs[i] <= Sum(xs)
  {
    if i > 0 {
      SumIsAtLeast(xs[1..], i - 1);
    }
  }

  lemma {:induction false} SumDrops(a: seq<nat>, b: seq<nat>)
    requires |a| == |b| && forall i :: 0 <= i < |a| ==> b[i] <= a[i]
    ensures Sum(b) <= Sum(a)
    ensures b != a ==> Sum(b) < Sum(a)
  {
    if a != [] {
      SumDrops(a[1..], b[1..]);
      assert b != a ==> b[0] != a[0] || b[1..] != a[1..];
    }
  }
}
