/** Ownership of physical address ranges, and the detaching of owners (aperture.c). */
module Aperture {
  import opened Lists
  import opened Powers

  /** An aperture: the device it was acquired for, whether it is still attached to it (a
      pointer that is not NULL), and whether its memory still exists. */
  datatype Range = Range(home: nat, attached: bool, alive: bool, base: nat, size: nat)

  /** The addresses are 64 bits wide, and so are sums of them. */
  predicate Overlap(base1: nat, size1: nat, base2: nat, size2: nat) {
    base1 < (base2 + size2) % TWO_64 && (base1 + size1) % TWO_64 > base2
  }

  ghost predicate Shared(base1: nat, size1: nat, base2: nat, size2: nat) {
    exists a: nat :: Inside(a, base1, size1) && Inside(a, base2, size2)
  }

  predicate Inside(a: nat, base: nat, size: nat) {
    base <= a < base + size
  }

  /** A range of addresses that exist. */
  predicate Physical(base: nat, size: nat) {
    0 < size && base + size <= TWO_64
  }

  /** One whose end does not wrap. */
  predicate Proper(base: nat, size: nat) {
    0 < size && base + size < TWO_64
  }

  /** What the test finds, for all ranges of addresses: those that share one, unless either
      ends at 2^64. */
  lemma OverlapFinds(base1: nat, size1: nat, base2: nat, size2: nat)
    requires Physical(base1, size1) && Physical(base2, size2)
    ensures Overlap(base1, size1, base2, size2)
       <==> Shared(base1, size1, base2, size2) && Proper(base1, size1) && Proper(base2, size2)
  {
    if Overlap(base1, size1, base2, size2) {
      var a := if base1 < base2 then base2 else base1;
      assert Inside(a, base1, size1) && Inside(a, base2, size2);
    }
  }

  ghost predicate ExactFor(base1: nat, size1: nat, base2: nat, size2: nat) {
    Overlap(base1, size1, base2, size2) <==> Shared(base1, size1, base2, size2)
  }

  /** The test is right about a range, against itself and all ranges that end below 2^64, if
      and only if the range ends below 2^64. */
  lemma OverlapIsExactIff(base: nat, size: nat)
    requires Physical(base, size)
    ensures (forall base2: nat, size2: nat :: Proper(base2, size2) || (base2 == base && size2 == size)
               ==> ExactFor(base, size, base2, size2))
       <==> base + size < TWO_64
  {
    assert Inside(base, base, size);
    OverlapFinds(base, size, base, size);
    if base + size < TWO_64 {
      forall base2: nat, size2: nat | Proper(base2, size2)
        ensures ExactFor(base, size, base2, size2)
      {
        OverlapFinds(base, size, base2, size2);
      }
    } else {
      assert !ExactFor(base, size, base, size);
    }
  }

  // ------------------------------------------------------------------- lists

  predicate InRange(aps: seq<Range>, list: seq<nat>) {
    forall k :: 0 <= k < |list| ==> list[k] < |aps|
  }

  /** The list without the ranges that a detach of the given addresses takes away. */
  function Kept(aps: seq<Range>, list: seq<nat>, base: nat, size: nat): (r: seq<nat>)
    requires InRange(aps, list)
    ensures InRange(aps, r)
    ensures forall i: nat :: i in r <==> i in list && !Overlap(base, size, aps[i].base, aps[i].size)
  {
    if list == [] then []
    else
      LastApart(list);
      var rest, last := list[..|list| - 1], list[|list| - 1];
      var r := Kept(aps, rest, base, size);
      if Overlap(base, size, aps[last].base, aps[last].size) then r else r + [last]
  }

  lemma {:induction false} KeptDistinct(aps: seq<Range>, list: seq<nat>, base: nat, size: nat)
    requires InRange(aps, list) && Distinct(list)
    ensures Distinct(Kept(aps, list, base, size))
  {
    if list != [] {
      LastApart(list);
      KeptDistinct(aps, list[..|list| - 1], base, size);
    }
  }

  /** All ranges of a device from index k on have been freed with it. */
  function Gone(aps: seq<Range>, dev: nat, k: nat): (r: seq<Range>)
    ensures |r| == |aps|
    ensures forall i :: 0 <= i < |aps| ==>
              r[i] == if i >= k && aps[i].home == dev then aps[i].(alive := false) else aps[i]
  {
    seq(|aps|, i requires 0 <= i < |aps| => if i >= k && aps[i].home == dev then aps[i].(alive := false) else aps[i])
  }

  // ----------------------------------------------------------------- registry

  predicate Owned(aps: seq<Range>, i: nat, dev: nat) {
    i < |aps| && aps[i].alive && aps[i].attached && aps[i].home == dev
  }

  predicate IsAttached(r: Range) {
    r.alive && r.attached
  }

  /** The list holds exactly the ranges that are attached. */
  ghost predicate Listed(aps: seq<Range>, list: seq<nat>) {
    && InRange(aps, list) && Distinct(list)
    && (forall k :: 0 <= k < |list| ==> IsAttached(aps[list[k]]))
    && (forall i :: 0 <= i < |aps| && IsAttached(aps[i]) ==> i in list)
  }

  /** A range that still exists has not been detached. */
  ghost predicate AllAttached(aps: seq<Range>) {
    forall i :: 0 <= i < |aps| && aps[i].alive ==> aps[i].attached
  }

  predicate Apart(a: Range, b: Range) {
    !Overlap(a.base, a.size, b.base, b.size)
  }

  /** No two listed ranges overlap. */
  ghost predicate Disjoint(aps: seq<Range>, list: seq<nat>)
    requires InRange(aps, list)
  {
    forall j, k :: 0 <= j < k < |list| ==> Apart(aps[list[j]], aps[list[k]])
  }

  /** Two listed ranges share no address, unless one of them ends at 2^64. */
  ghost predicate Exclusive(aps: seq<Range>, list: seq<nat>)
    requires InRange(aps, list)
  {
    forall j, k :: 0 <= j < k < |list| && Physical(aps[list[j]].base, aps[list[j]].size)
      && Physical(aps[list[k]].base, aps[list[k]].size) && SharedBy(aps[list[j]], aps[list[k]])
      ==> aps[list[j]].base + aps[list[j]].size == TWO_64 || aps[list[k]].base + aps[list[k]].size == TWO_64
  }

  ghost predicate SharedBy(a: Range, b: Range) {
    Shared(a.base, a.size, b.base, b.size)
  }

  lemma DisjointIsExclusive(aps: seq<Range>, list: seq<nat>)
    requires InRange(aps, list) && Disjoint(aps, list)
    ensures Exclusive(aps, list)
  {
    forall j, k | 0 <= j < k < |list| && Physical(aps[list[j]].base, aps[list[j]].size)
      && Physical(aps[list[k]].base, aps[list[k]].size) && SharedBy(aps[list[j]], aps[list[k]])
      ensures aps[list[j]].base + aps[list[j]].size == TWO_64 || aps[list[k]].base + aps[list[k]].size == TWO_64
    {
      assert Apart(aps[list[j]], aps[list[k]]);
      OverlapFinds(aps[list[j]].base, aps[list[j]].size, aps[list[k]].base, aps[list[k]].size);
    }
  }

  ghost predicate AllProper(aps: seq<Range>, list: seq<nat>)
    requires InRange(aps, list)
  {
    forall k :: 0 <= k < |list| ==> Proper(aps[list[k]].base, aps[list[k]].size)
  }

  /** No listed range shares an address with the given ones. */
  ghost predicate Unowned(aps: seq<Range>, list: seq<nat>, base: nat, size: nat)
    requires InRange(aps, list)
  {
    forall k :: 0 <= k < |list| ==> !Shared(base, size, aps[list[k]].base, aps[list[k]].size)
  }

  /** Among proper ranges the test of all listed ones is about addresses. */
  lemma ApartMeansUnowned(aps: seq<Range>, list: seq<nat>, base: nat, size: nat)
    requires InRange(aps, list) && AllProper(aps, list) && Proper(base, size)
    ensures Unowned(aps, list, base, size) <==> forall k :: 0 <= k < |list| ==> !Hit(base, size, aps[list[k]])
  {
    forall k | 0 <= k < |list|
      ensures Shared(base, size, aps[list[k]].base, aps[list[k]].size) <==> Hit(base, size, aps[list[k]])
    {
      OverlapFinds(base, size, aps[list[k]].base, aps[list[k]].size);
    }
  }

  lemma KeptIsUnowned(aps: seq<Range>, list: seq<nat>, base: nat, size: nat)
    requires InRange(aps, list) && AllProper(aps, list) && Proper(base, size)
    ensures Unowned(aps, Kept(aps, list, base, size), base, size)
  {
    var r := Kept(aps, list, base, size);
    forall k | 0 <= k < |r|
      ensures !Shared(base, size, aps[r[k]].base, aps[r[k]].size)
    {
      assert r[k] in r;
      OverlapFinds(base, size, aps[r[k]].base, aps[r[k]].size);
    }
  }

  lemma NothingLeftThere(aps: seq<Range>, list: seq<nat>, base: nat, size: nat)
    requires Listed(aps, list)
    ensures var d, r := Detached(aps, list, base, size), Kept(aps, list, base, size);
            InRange(d, r) && (Proper(base, size) && AllProper(aps, list) ==> Unowned(d, r, base, size))
  {
    if Proper(base, size) && AllProper(aps, list) {
      KeptIsUnowned(aps, list, base, size);
      var r := Kept(aps, list, base, size);
      assert forall k :: 0 <= k < |r| ==> r[k] in r;
    }
  }

  lemma EnlistKeeps(aps: seq<Range>, list: seq<nat>, r: Range)
    requires Listed(aps, list) && Disjoint(aps, list) && IsAttached(r)
    requires forall k :: 0 <= k < |list| ==> Apart(r, aps[list[k]])
    ensures Listed(aps + [r], [|aps|] + list) && Disjoint(aps + [r], [|aps|] + list)
  {
  }

  lemma DeadKeeps(aps: seq<Range>, list: seq<nat>, r: Range)
    requires Listed(aps, list) && Disjoint(aps, list) && !IsAttached(r)
    ensures Listed(aps + [r], list) && Disjoint(aps + [r], list)
  {
  }

  lemma HeadWithout(aps: seq<Range>, list: seq<nat>)
    requires InRange(aps, list)
    ensures Without([|aps|] + list, |aps|) == list
  {
    WithoutMiddle([], |aps|, list);
    assert [] + [|aps|] + list == [|aps|] + list && [] + list == list;
  }

  /** The list without the ranges of a device from index k on. */
  function Purged(aps: seq<Range>, list: seq<nat>, dev: nat, k: nat): (r: seq<nat>)
    requires InRange(aps, list)
    ensures InRange(aps, r)
    ensures forall i: nat :: i in r <==> i in list && !(i >= k && aps[i].home == dev)
  {
    if list == [] then []
    else
      LastApart(list);
      var rest, last := list[..|list| - 1], list[|list| - 1];
      var r := Purged(aps, rest, dev, k);
      if last >= k && aps[last].home == dev then r else r + [last]
  }

  lemma {:induction false} PurgeOne(aps: seq<Range>, list: seq<nat>, dev: nat, k: nat)
    requires InRange(aps, list) && k < |aps|
    ensures var r := Purged(aps, list, dev, k + 1);
            Purged(aps, list, dev, k) == if aps[k].home == dev then Without(r, k) else r
  {
    if list != [] {
      LastApart(list);
      var rest, last := list[..|list| - 1], list[|list| - 1];
      PurgeOne(aps, rest, dev, k);
      WithoutPush(Purged(aps, rest, dev, k + 1), last, k);
    }
  }

  lemma PurgeStep(aps: seq<Range>, list: seq<nat>, dev: nat, k: nat)
    requires Listed(aps, list) && k < |aps|
    ensures Owned(aps, k, dev) ==> k in Purged(aps, list, dev, k + 1)
    ensures var r := Purged(aps, list, dev, k + 1);
            Purged(aps, list, dev, k) == if Owned(aps, k, dev) then Without(r, k) else r
  {
    PurgeOne(aps, list, dev, k);
    if !IsAttached(aps[k]) {
      WithoutNone(Purged(aps, list, dev, k + 1), k);
    }
  }

  lemma GoneStep(aps: seq<Range>, dev: nat, k: nat)
    requires k < |aps|
    ensures var g := Gone(aps, dev, k + 1);
            g[k] == aps[k] && Gone(aps, dev, k) == if aps[k].home == dev then g[k := g[k].(alive := false)] else g
    ensures Gone(aps, dev, |aps|) == aps
  {
  }

  lemma {:induction false} PurgeNone(aps: seq<Range>, list: seq<nat>, dev: nat, k: nat)
    requires InRange(aps, list) && forall i: nat :: i in list && i >= k ==> aps[i].home != dev
    ensures Purged(aps, list, dev, k) == list
  {
    if list != [] {
      LastApart(list);
      PurgeNone(aps, list[..|list| - 1], dev, k);
    }
  }

  lemma DisjointPush(aps: seq<Range>, r: seq<nat>, x: nat)
    requires InRange(aps, r) && Disjoint(aps, r) && x < |aps|
    requires forall j :: 0 <= j < |r| ==> Apart(aps[r[j]], aps[x])
    ensures InRange(aps, r + [x]) && Disjoint(aps, r + [x])
  {
  }

  lemma LastIsApart(aps: seq<Range>, list: seq<nat>, x: nat)
    requires InRange(aps, list) && Disjoint(aps, list) && list != []
    requires x in list[..|list| - 1]
    ensures x < |aps| && Apart(aps[x], aps[list[|list| - 1]])
  {
    var j :| 0 <= j < |list| - 1 && list[j] == x;
    assert Apart(aps[list[j]], aps[list[|list| - 1]]);
  }

  lemma {:induction false} PurgedKeeps(aps: seq<Range>, list: seq<nat>, dev: nat, k: nat)
    requires InRange(aps, list) && Distinct(list) && Disjoint(aps, list)
    ensures Distinct(Purged(aps, list, dev, k)) && Disjoint(aps, Purged(aps, list, dev, k))
  {
    if list != [] {
      LastApart(list);
      var rest, last := list[..|list| - 1], list[|list| - 1];
      PurgedKeeps(aps, rest, dev, k);
      var r := Purged(aps, rest, dev, k);
      forall j | 0 <= j < |r|
        ensures Apart(aps[r[j]], aps[last])
      {
        LastIsApart(aps, list, r[j]);
      }
    }
  }

  /** A device that goes on its own leaves the others' ranges listed and apart. */
  lemma GoneKeeps(aps: seq<Range>, list: seq<nat>, dev: nat)
    requires Listed(aps, list) && AllAttached(aps) && Disjoint(aps, list)
    ensures Listed(Gone(aps, dev, 0), Purged(aps, list, dev, 0)) && AllAttached(Gone(aps, dev, 0))
    ensures Disjoint(Gone(aps, dev, 0), Purged(aps, list, dev, 0))
  {
    PurgedKeeps(aps, list, dev, 0);
    var g, r := Gone(aps, dev, 0), Purged(aps, list, dev, 0);
    forall k | 0 <= k < |r|
      ensures r[k] in list && g[r[k]] == aps[r[k]]
    {
      assert r[k] in r;
    }
  }

  function Freed(aps: seq<Range>, dev: nat, i: nat): (r: seq<Range>)
    requires i < |aps|
  {
    if aps[i].home == dev then aps[i := aps[i].(alive := false)] else aps
  }

  /** A device is going: its ranges from index k on have been dealt with. */
  ghost predicate Going(locked: bool, aps0: seq<Range>, list0: seq<nat>, aps: seq<Range>, list: seq<nat>, dev: nat,
                        k: nat) {
    && InRange(aps0, list0) && k <= |aps0| && aps == Gone(aps0, dev, k)
    && (!locked ==> Listed(aps0, list0) && list == Purged(aps0, list0, dev, k))
    && (locked ==> list == list0 && forall i :: k <= i < |aps0| ==> !Owned(aps0, i, dev))
  }

  lemma GoingBegins(locked: bool, aps: seq<Range>, list: seq<nat>, dev: nat)
    requires InRange(aps, list) && (!locked ==> Listed(aps, list))
    ensures Going(locked, aps, list, aps, list, dev, |aps|)
  {
    PurgeNone(aps, list, dev, |aps|);
    assert Gone(aps, dev, |aps|) == aps;
  }

  lemma GoingMeets(locked: bool, aps0: seq<Range>, list0: seq<nat>, aps: seq<Range>, list: seq<nat>, dev: nat, k: nat)
    requires Going(locked, aps0, list0, aps, list, dev, k + 1)
    ensures Owned(aps, k, dev) <==> Owned(aps0, k, dev)
    ensures !locked && Owned(aps, k, dev) ==> k in list
  {
    GoneStep(aps0, dev, k);
    if !locked {
      PurgeStep(aps0, list0, dev, k);
    }
  }

  lemma GoingStep(locked: bool, aps0: seq<Range>, list0: seq<nat>, aps: seq<Range>, list: seq<nat>, dev: nat, k: nat)
    requires Going(locked, aps0, list0, aps, list, dev, k + 1) && !(locked && Owned(aps, k, dev))
    ensures Going(locked, aps0, list0, Freed(aps, dev, k),
                  if !locked && Owned(aps, k, dev) then Without(list, k) else list, dev, k)
  {
    GoneStep(aps0, dev, k);
    if !locked {
      PurgeStep(aps0, list0, dev, k);
    }
  }

  predicate Hit(base: nat, size: nat, r: Range) {
    Overlap(base, size, r.base, r.size)
  }

  /** The ranges of a list that overlap the given addresses have lost their device and gone. */
  function Detached(aps: seq<Range>, list: seq<nat>, base: nat, size: nat): (r: seq<Range>)
    ensures |r| == |aps|
    ensures forall i :: 0 <= i < |aps| ==>
              r[i] == if i in list && Hit(base, size, aps[i])
                      then aps[i].(attached := false, alive := false) else aps[i]
  {
    seq(|aps|, i requires 0 <= i < |aps| =>
      if i in list && Hit(base, size, aps[i]) then aps[i].(attached := false, alive := false) else aps[i])
  }

  /** The device of range i owns another one. */
  ghost predicate Crowded(aps: seq<Range>, i: nat) {
    i < |aps| && exists j :: 0 <= j < |aps| && j != i && Owned(aps, j, aps[i].home)
  }

  /** Detaching has dealt with the first k ranges of the list. */
  ghost predicate Detaching(aps0: seq<Range>, list0: seq<nat>, base: nat, size: nat, aps: seq<Range>, list: seq<nat>,
                            k: nat) {
    && Listed(aps0, list0) && AllAttached(aps0) && k <= |list0|
    && aps == Detached(aps0, list0[..k], base, size)
    && list == Kept(aps0, list0[..k], base, size) + list0[k..]
    && forall j :: 0 <= j < k && Hit(base, size, aps0[list0[j]]) ==> !Crowded(aps0, list0[j])
  }

  lemma NextIsUntouched(aps0: seq<Range>, list0: seq<nat>, base: nat, size: nat, aps: seq<Range>, list: seq<nat>,
                        k: nat)
    requires Detaching(aps0, list0, base, size, aps, list, k) && k < |list0|
    ensures InRange(aps0, list0) && |aps| == |aps0|
    ensures list0[k] < |aps| && aps[list0[k]] == aps0[list0[k]] && IsAttached(aps[list0[k]])
  {
    assert list0[k] !in list0[..k];
  }

  lemma ListStaysInRange(aps0: seq<Range>, list0: seq<nat>, base: nat, size: nat, aps: seq<Range>, list: seq<nat>,
                         k: nat)
    requires Detaching(aps0, list0, base, size, aps, list, k) && k < |list0|
    ensures InRange(aps, Without(list, list0[k]))
  {
    forall m | 0 <= m < |Without(list, list0[k])|
      ensures Without(list, list0[k])[m] < |aps|
    {
      assert Without(list, list0[k])[m] in list;
    }
  }

  lemma SkipKeeps(aps0: seq<Range>, list0: seq<nat>, base: nat, size: nat, aps: seq<Range>, list: seq<nat>, k: nat)
    requires Detaching(aps0, list0, base, size, aps, list, k) && k < |list0| && !Hit(base, size, aps0[list0[k]])
    ensures Detaching(aps0, list0, base, size, aps, list, k + 1)
  {
    KeptPush(aps0, list0, base, size, k);
    DetachedPush(aps0, list0, base, size, k);
    Across(Kept(aps0, list0[..k], base, size), list0[k], list0[k + 1..]);
  }

  lemma Across(a: seq<nat>, i: nat, b: seq<nat>)
    ensures a + ([i] + b) == a + [i] + b
  {
  }

  lemma DetachedPush(aps: seq<Range>, list: seq<nat>, base: nat, size: nat, k: nat)
    requires InRange(aps, list) && k < |list|
    ensures var d, i := Detached(aps, list[..k], base, size), list[k];
            Detached(aps, list[..k + 1], base, size)
            == if Hit(base, size, aps[i]) then d[i := aps[i].(attached := false, alive := false)] else d
  {
    assert list[..k + 1] == list[..k] + [list[k]];
  }

  lemma KeptPush(aps: seq<Range>, list: seq<nat>, base: nat, size: nat, k: nat)
    requires InRange(aps, list) && k < |list|
    ensures Kept(aps, list[..k + 1], base, size)
         == Kept(aps, list[..k], base, size) + (if Hit(base, size, aps[list[k]]) then [] else [list[k]])
    ensures list[..k + 1] == list[..k] + [list[k]] && list[k..] == [list[k]] + list[k + 1..]
  {
    assert list[..k + 1][..k] == list[..k];
  }

  /** A device whose range has been detached before does not own the next one. */
  lemma EarlierWasAlone(aps0: seq<Range>, list0: seq<nat>, base: nat, size: nat, aps: seq<Range>, list: seq<nat>,
                        k: nat, m: nat)
    requires Detaching(aps0, list0, base, size, aps, list, k) && m < k < |list0| && Hit(base, size, aps0[list0[m]])
    ensures aps0[list0[m]].home != aps0[list0[k]].home
  {
    assert !Crowded(aps0, list0[m]) && list0[m] != list0[k];
    assert Owned(aps0, list0[k], aps0[list0[k]].home);
  }

  /** Whom the nested release meets: the other ranges of the device, as they were at first. */
  lemma OthersOfDevice(aps0: seq<Range>, list0: seq<nat>, base: nat, size: nat, aps: seq<Range>, list: seq<nat>,
                       k: nat, j: nat)
    requires Detaching(aps0, list0, base, size, aps, list, k) && k < |list0| && j < |aps0|
    ensures aps0[j].home == aps0[list0[k]].home ==> aps[j] == aps0[j]
    ensures aps[j].home == aps0[j].home
  {
    if j in list0[..k] && Hit(base, size, aps0[j]) {
      var m :| 0 <= m < k && list0[m] == j;
      EarlierWasAlone(aps0, list0, base, size, aps, list, k, m);
    }
  }

  lemma DetachStep(aps0: seq<Range>, list0: seq<nat>, base: nat, size: nat, aps: seq<Range>, list: seq<nat>, k: nat)
    requires Detaching(aps0, list0, base, size, aps, list, k) && k < |list0| && Hit(base, size, aps0[list0[k]])
    requires !Crowded(aps0, list0[k])
    ensures var i := list0[k];
            Detaching(aps0, list0, base, size, Gone(aps[i := aps[i].(attached := false)], aps0[i].home, 0),
                      Without(list, i), k + 1)
  {
    DetachStepList(aps0, list0, base, size, aps, list, k);
    DetachStepRanges(aps0, list0, base, size, aps, list, k);
  }

  lemma DetachStepList(aps0: seq<Range>, list0: seq<nat>, base: nat, size: nat, aps: seq<Range>, list: seq<nat>, k: nat)
    requires Detaching(aps0, list0, base, size, aps, list, k) && k < |list0| && Hit(base, size, aps0[list0[k]])
    ensures Without(list, list0[k]) == Kept(aps0, list0[..k + 1], base, size) + list0[k + 1..]
  {
    var i, a, b := list0[k], Kept(aps0, list0[..k], base, size), list0[k + 1..];
    KeptPush(aps0, list0, base, size, k);
    Across(a, i, b);
    NotAround(list0, k);
    WithoutMiddle(a, i, b);
  }

  lemma NotAround(list: seq<nat>, k: nat)
    requires Distinct(list) && k < |list|
    ensures list[k] !in list[..k] && list[k] !in list[k + 1..]
  {
  }

  lemma DetachStepRanges(aps0: seq<Range>, list0: seq<nat>, base: nat, size: nat, aps: seq<Range>, list: seq<nat>,
                         k: nat)
    requires Detaching(aps0, list0, base, size, aps, list, k) && k < |list0| && Hit(base, size, aps0[list0[k]])
    requires !Crowded(aps0, list0[k])
    ensures var i := list0[k];
            Gone(aps[i := aps[i].(attached := false)], aps0[i].home, 0) == Detached(aps0, list0[..k + 1], base, size)
  {
    var i := list0[k];
    NextIsUntouched(aps0, list0, base, size, aps, list, k);
    DetachedPush(aps0, list0, base, size, k);
    var next := Gone(aps[i := aps[i].(attached := false)], aps0[i].home, 0);
    forall j | 0 <= j < |aps0|
      ensures next[j] == Detached(aps0, list0[..k + 1], base, size)[j]
    {
      OthersOfDevice(aps0, list0, base, size, aps, list, k, j);
      if j != i && aps0[j].home == aps0[i].home {
        assert !Owned(aps0, j, aps0[i].home);
      }
    }
  }

  /** Whether the nested release meets a range that is still attached. */
  lemma MeetsIfCrowded(aps0: seq<Range>, list0: seq<nat>, base: nat, size: nat, aps: seq<Range>, list: seq<nat>, k: nat)
    requires Detaching(aps0, list0, base, size, aps, list, k) && k < |list0|
    ensures var i := list0[k];
            i < |aps| && aps[i].home == aps0[i].home
            && (OwnsAny(aps[i := aps[i].(attached := false)], aps0[i].home) <==> Crowded(aps0, i))
  {
    var i := list0[k];
    var next := aps[i := aps[i].(attached := false)];
    forall j | 0 <= j < |aps0|
      ensures Owned(next, j, aps0[i].home) <==> j != i && Owned(aps0, j, aps0[i].home)
    {
      OthersOfDevice(aps0, list0, base, size, aps, list, k, j);
    }
    if Crowded(aps0, i) {
      var j :| 0 <= j < |aps0| && j != i && Owned(aps0, j, aps0[i].home);
      assert Owned(next, j, aps0[i].home);
    }
  }

  lemma DetachBegins(aps: seq<Range>, list: seq<nat>, base: nat, size: nat)
    requires Listed(aps, list) && AllAttached(aps)
    ensures Detaching(aps, list, base, size, aps, list, 0)
  {
    assert Detached(aps, [], base, size) == aps;
  }

  lemma NoneCrowded(aps0: seq<Range>, list0: seq<nat>, base: nat, size: nat, aps: seq<Range>, list: seq<nat>)
    requires Detaching(aps0, list0, base, size, aps, list, |list0|)
    ensures !HitsCrowded(aps0, list0, base, size)
  {
  }

  lemma OneCrowded(aps: seq<Range>, list: seq<nat>, base: nat, size: nat, k: nat)
    requires InRange(aps, list) && k < |list| && Hit(base, size, aps[list[k]]) && Crowded(aps, list[k])
    ensures HitsCrowded(aps, list, base, size)
  {
  }

  lemma DetachEnds(aps0: seq<Range>, list0: seq<nat>, base: nat, size: nat, aps: seq<Range>, list: seq<nat>)
    requires Detaching(aps0, list0, base, size, aps, list, |list0|) && Disjoint(aps0, list0)
    ensures aps == Detached(aps0, list0, base, size) && list == Kept(aps0, list0, base, size)
    ensures Listed(aps, list) && AllAttached(aps) && Disjoint(aps, list)
  {
    assert list0[..|list0|] == list0;
    KeptDistinct(aps0, list0, base, size);
    KeptDisjoint(aps0, list0, base, size);
    forall k | 0 <= k < |list|
      ensures aps[list[k]] == aps0[list[k]]
    {
      assert list[k] in Kept(aps0, list0, base, size);
    }
  }

  lemma {:induction false} KeptDisjoint(aps: seq<Range>, list: seq<nat>, base: nat, size: nat)
    requires InRange(aps, list) && Disjoint(aps, list)
    ensures Disjoint(aps, Kept(aps, list, base, size))
  {
    if list != [] {
      LastApart(list);
      var rest, last := list[..|list| - 1], list[|list| - 1];
      KeptDisjoint(aps, rest, base, size);
      var r := Kept(aps, rest, base, size);
      forall j | 0 <= j < |r|
        ensures Apart(aps[r[j]], aps[last])
      {
        LastIsApart(aps, list, r[j]);
      }
      DisjointPush(aps, r, last);
    }
  }

  /** Some range that the addresses overlap belongs to a device with another range. */
  ghost predicate HitsCrowded(aps: seq<Range>, list: seq<nat>, base: nat, size: nat) {
    exists k :: 0 <= k < |list| && Crowded(aps, list[k]) && Hit(base, size, aps[list[k]])
  }

  ghost predicate OwnsAny(aps: seq<Range>, dev: nat) {
    exists j :: 0 <= j < |aps| && Owned(aps, j, dev)
  }

  /** stuck: a thread waits for the lock that it holds itself. broken: a range that is not on
      the list has been removed from it. */
  class Registry {
    var aps: seq<Range>
    var list: seq<nat>
    var locked: bool
    var stuck: bool
    var broken: bool

    constructor ()
      ensures Valid() && aps == [] && list == []
    {
      aps, list, locked, stuck, broken := [], [], false, false, false;
    }

    ghost predicate Valid()
      reads this
    {
      Listed(aps, list) && AllAttached(aps) && Disjoint(aps, list) && !locked && !stuck && !broken
    }

    /** devm_aperture_acquire_release. */
    method Release(i: nat)
      requires i < |aps| && aps[i].alive && !stuck
      modifies this
      ensures aps == old(aps) && locked == old(locked)
      ensures stuck == (aps[i].attached && locked)
      ensures list == if aps[i].attached && !locked then Without(old(list), i) else old(list)
      ensures broken == (old(broken) || (aps[i].attached && !locked && i !in old(list)))
    {
      if !aps[i].attached {
        return;
      }
      if locked {
        stuck := true;
        return;
      }
      locked := true;
      if i !in list {
        broken := true;
      }
      list := Without(list, i);
      locked := false;
    }

    /** devm_aperture_acquire. */
    method Acquire(dev: nat, base: nat, size: nat, gotMemory: bool, gotAction: bool) returns (ok: bool)
      requires Valid() && base < TWO_64 && size < TWO_64
      modifies this
      ensures Valid()
      ensures ok ==> aps == old(aps) + [Range(dev, true, true, base, size)] && list == [|old(aps)|] + old(list)
      ensures ok <==> gotMemory && gotAction
                      && forall k :: 0 <= k < |old(list)| ==>
                          Apart(Range(dev, true, true, base, size), old(aps)[old(list)[k]])
      ensures !ok ==> list == old(list)
      ensures Exclusive(aps, list)
      ensures Proper(base, size) && AllProper(old(aps), old(list)) ==>
                (ok <==> gotMemory && gotAction && Unowned(old(aps), old(list), base, size))
    {
      AcquireMeans(base, size);
      locked := true;
      var free := IsFree(Range(dev, true, true, base, size));
      if !free || !gotMemory {
        locked := false;
        DisjointIsExclusive(aps, list);
        return false;
      }
      var r := Range(dev, true, true, base, size);
      EnlistKeeps(aps, list, r);
      DeadKeeps(aps, list, r.(alive := false));
      ok := Enlist(r, gotAction);
      DisjointIsExclusive(aps, list);
    }

    lemma AcquireMeans(base: nat, size: nat)
      requires Valid()
      ensures Proper(base, size) && AllProper(aps, list) ==>
                (Unowned(aps, list, base, size) <==> forall k :: 0 <= k < |list| ==> !Hit(base, size, aps[list[k]]))
    {
      if Proper(base, size) && AllProper(aps, list) {
        ApartMeansUnowned(aps, list, base, size);
      }
    }

    /** Puts a new range on the list and registers its release, which is run at once if that
        fails. */
    method Enlist(r: Range, gotAction: bool) returns (ok: bool)
      requires InRange(aps, list) && locked && !stuck && IsAttached(r)
      modifies this
      ensures !locked && !stuck && broken == old(broken) && ok == gotAction
      ensures ok ==> aps == old(aps) + [r] && list == [|old(aps)|] + old(list)
      ensures !ok ==> aps == old(aps) + [r.(alive := false)] && list == old(list)
    {
      ghost var list0 := list;
      var i := |aps|;
      aps := aps + [r];
      list := [i] + list;
      locked := false;
      ok := gotAction;
      if !ok {
        HeadWithout(aps[..i], list0);
        assert aps[..i] == old(aps);
        Release(i);
        aps := aps[..i] + [r.(alive := false)];
      }
    }

    method IsFree(r: Range) returns (free: bool)
      requires InRange(aps, list)
      ensures free <==> forall k :: 0 <= k < |list| ==> Apart(r, aps[list[k]])
    {
      var k := 0;
      while k < |list|
        invariant k <= |list|
        invariant forall j :: 0 <= j < k ==> Apart(r, aps[list[j]])
      {
        if Overlap(r.base, r.size, aps[list[k]].base, aps[list[k]].size) {
          return false;
        }
        k := k + 1;
      }
      return true;
    }

    /** What unregistering a device runs: its ranges are released and then freed, the last one
        acquired first. Under the lock that is possible only if none of them is attached. */
    method DeviceGoes(dev: nat)
      requires InRange(aps, list) && !stuck && !broken && (!locked ==> Listed(aps, list))
      modifies this
      ensures locked == old(locked)
      ensures stuck <==> old(locked) && OwnsAny(old(aps), dev)
      ensures !stuck ==> !broken && aps == Gone(old(aps), dev, 0)
      ensures !stuck ==> list == if old(locked) then old(list) else Purged(old(aps), old(list), dev, 0)
    {
      ghost var aps0, list0 := aps, list;
      var k: nat := |aps|;
      GoingBegins(locked, aps0, list0, dev);
      while k > 0
        invariant k <= |aps0| && locked == old(locked) && !stuck && !broken
        invariant Going(locked, aps0, list0, aps, list, dev, k)
      {
        k := k - 1;
        ghost var aps1, list1 := aps, list;
        GoingMeets(locked, aps0, list0, aps, list, dev, k);
        ReleaseIfOf(dev, k);
        if stuck {
          return;
        }
        GoingStep(locked, aps0, list0, aps1, list1, dev, k);
      }
    }

    method ReleaseIfOf(dev: nat, i: nat)
      requires i < |aps| && !stuck && !broken
      requires !locked && Owned(aps, i, dev) ==> i in list
      modifies this
      ensures locked == old(locked) && stuck == (locked && Owned(old(aps), i, dev)) && !broken
      ensures !stuck ==> aps == Freed(old(aps), dev, i)
      ensures list == if !locked && Owned(old(aps), i, dev) then Without(old(list), i) else old(list)
    {
      if aps[i].home == dev && aps[i].alive {
        Release(i);
        if !stuck {
          aps := aps[i := aps[i].(alive := false)];
        }
      }
    }

    /** aperture_detach_devices, whose nested releases must not take the lock again. That is so
        exactly if no device with an overlapping range owns another range. */
    method DetachDevices(base: nat, size: nat)
      requires Valid()
      modifies this
      ensures stuck <==> HitsCrowded(old(aps), old(list), base, size)
      ensures !stuck ==> Valid()
      ensures !stuck ==> list == Kept(old(aps), old(list), base, size)
      ensures !stuck ==> aps == Detached(old(aps), old(list), base, size) && Exclusive(aps, list)
      ensures !stuck && Proper(base, size) && AllProper(old(aps), old(list)) ==> Unowned(aps, list, base, size)
    {
      ghost var aps0, list0 := aps, list;
      locked := true;
      DetachBegins(aps, list, base, size);
      DetachHit(list, base, size, aps);
      if !stuck {
        NoneCrowded(aps0, list0, base, size, aps, list);
        DetachEnds(aps0, list0, base, size, aps, list);
        DisjointIsExclusive(aps, list);
        NothingLeftThere(aps0, list0, base, size);
        locked := false;
      }
    }

    /** The loop over the list as it was. */
    method DetachHit(all: seq<nat>, base: nat, size: nat, ghost aps0: seq<Range>)
      requires Detaching(aps0, all, base, size, aps, list, 0) && locked && !stuck && !broken
      modifies this
      ensures locked && (stuck ==> HitsCrowded(aps0, all, base, size))
      ensures !stuck ==> !broken && Detaching(aps0, all, base, size, aps, list, |all|)
    {
      var k := 0;
      while k < |all|
        invariant k <= |all| && locked && !stuck && !broken
        invariant Detaching(aps0, all, base, size, aps, list, k)
      {
        DetachNext(all[k], base, size, aps0, all, k);
        if stuck {
          return;
        }
        k := k + 1;
      }
    }

    /** One turn of the loop. */
    method DetachNext(i: nat, base: nat, size: nat, ghost aps0: seq<Range>, ghost list0: seq<nat>, ghost k: nat)
      requires locked && !stuck && !broken && Detaching(aps0, list0, base, size, aps, list, k)
      requires k < |list0| && i == list0[k]
      modifies this
      ensures locked && (stuck ==> HitsCrowded(aps0, list0, base, size))
      ensures !stuck ==> !broken && Detaching(aps0, list0, base, size, aps, list, k + 1)
    {
      NextIsUntouched(aps0, list0, base, size, aps, list, k);
      if !Hit(base, size, aps[i]) {
        SkipKeeps(aps0, list0, base, size, aps, list, k);
      } else {
        if Crowded(aps0, i) {
          OneCrowded(aps0, list0, base, size, k);
        }
        DetachOne(i, aps0, list0, base, size, k);
      }
    }

    method DetachOne(i: nat, ghost aps0: seq<Range>, ghost list0: seq<nat>, ghost base: nat, ghost size: nat,
                     ghost k: nat)
      requires locked && !stuck && !broken && Detaching(aps0, list0, base, size, aps, list, k)
      requires k < |list0| && i == list0[k] && Hit(base, size, aps0[i])
      modifies this
      ensures locked && stuck == Crowded(aps0, i)
      ensures !stuck ==> !broken && Detaching(aps0, list0, base, size, aps, list, k + 1)
    {
      MeetsIfCrowded(aps0, list0, base, size, aps, list, k);
      if !Crowded(aps0, i) {
        DetachStep(aps0, list0, base, size, aps, list, k);
      }
      ListStaysInRange(aps0, list0, base, size, aps, list, k);
      var dev := aps[i].home;
      aps := aps[i := aps[i].(attached := false)];
      list := Without(list, i);
      DeviceGoes(dev);
    }

    /** A device is unregistered by its driver, or by anybody else but a detach. */
    method Unregister(dev: nat)
      requires Valid()
      modifies this
      ensures Valid() && aps == Gone(old(aps), dev, 0) && list == Purged(old(aps), old(list), dev, 0)
      ensures Exclusive(aps, list)
    {
      GoneKeeps(aps, list, dev);
      DeviceGoes(dev);
      DisjointIsExclusive(aps, list);
    }
  }

  /** Exclusive ownership fails at the top of the address space: any two devices can own the
      same addresses up to 2^64. */
  method TwoOwnersOfTheTop(first: nat, second: nat, base: nat, size: nat) returns (r: Registry, ok1: bool, ok2: bool)
    requires 0 < base && 0 < size && base + size == TWO_64
    ensures ok1 && ok2 && r.Valid() && r.list == [1, 0]
    ensures r.aps == [Range(first, true, true, base, size), Range(second, true, true, base, size)]
    ensures SharedBy(r.aps[0], r.aps[1])
  {
    r := new Registry();
    assert Inside(base, base, size);
    OverlapFinds(base, size, base, size);
    assert Shared(base, size, base, size) && !Overlap(base, size, base, size);
    hide Listed, AllAttached, Disjoint, Exclusive, AllProper, Unowned, Shared, Overlap;
    ok1 := r.Acquire(first, base, size, true, true);
    ok2 := r.Acquire(second, base, size, true, true);
  }

  /** A device that owns two ranges cannot be detached from one of them: the thread waits for
      the lock that it holds. */
  method DetachOfTwoBlocks(dev: nat, base1: nat, size1: nat, base2: nat, size2: nat)
    returns (r: Registry, ok1: bool, ok2: bool)
    requires Proper(base1, size1) && Proper(base2, size2) && !Shared(base1, size1, base2, size2)
    ensures ok1 && ok2 && r.stuck
  {
    r := new Registry();
    assert Inside(base1, base1, size1);
    OverlapFinds(base1, size1, base1, size1);
    OverlapFinds(base2, size2, base1, size1);
    assert Shared(base2, size2, base1, size1) ==> Shared(base1, size1, base2, size2);
    hide Listed, AllAttached, Disjoint, Exclusive, AllProper, Unowned, Shared, Overlap;
    ok1 := r.Acquire(dev, base1, size1, true, true);
    ok2 := r.Acquire(dev, base2, size2, true, true);
    assert Owned(r.aps, 1, r.aps[0].home) && Crowded(r.aps, 0);
    assert r.list[1] == 0 && Hit(base1, size1, r.aps[0]);
    r.DetachDevices(base1, size1);
  }
}
