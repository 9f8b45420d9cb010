/** What a merged fence means, and what its callers must keep to for that
    (dma-fence-unwrap.c, __dma_fence_unwrap_merge). */
module MergeMeaning {
  import opened Fences
  import opened FenceUnwrap
  import opened FenceMerge

  /** Fences of one timeline signal in order. */
  ghost predicate InOrder(inputs: seq<Input>, bits: set<nat>) {
    forall f, g :: IsInput(f, inputs) && IsInput(g, inputs) && NotEarlier(f, g) && g.id in bits ==> f.id in bits
  }

  /** What a signaled member says of its leaves. */
  ghost predicate MemberMeans(m: Member, bits: set<nat>) {
    m.fence in bits ==>
      if m.any then exists k :: 0 <= k < |m.leaves| && m.leaves[k].id in bits
      else forall k :: 0 <= k < |m.leaves| ==> m.leaves[k].id in bits
  }

  ghost predicate MembersMean(inputs: seq<Input>, bits: set<nat>) {
    forall i, m :: 0 <= i < |inputs| && 0 <= m < |inputs[i]| ==> MemberMeans(inputs[i][m], bits)
  }

  // ------------------------------------------------------- what is not hidden

  /** As long as l is unsignaled, leaf k of member m keeps a merge from passing over l: it is not
      earlier, and the walk cannot have passed over its member. That is so at the head, for an
      array that waits for all, and for one that waits for any of leaves none of which is
      earlier. */
  ghost predicate Shows(inputs: seq<Input>, l: Fence, i: int, m: int, k: int) {
    && 0 <= i < |inputs| && LeafAt(inputs[i], m, k) && NotEarlier(l, inputs[i][m].leaves[k])
    && (m == 0 || !inputs[i][m].any || AllNotEarlier(l, inputs[i][m].leaves))
  }

  ghost predicate AllNotEarlier(l: Fence, leaves: seq<Fence>) {
    forall p :: 0 <= p < |leaves| ==> NotEarlier(l, leaves[p])
  }

  ghost predicate IsShown(inputs: seq<Input>, l: Fence) {
    exists i, m, k :: Shows(inputs, l, i, m, k)
  }

  /** What iterations get to shows every leaf of all inputs. */
  ghost predicate NoneHidden(all: seq<Input>, inputs: seq<Input>) {
    forall l :: IsInput(l, all) ==> IsShown(inputs, l)
  }

  /** What a merge returns, at the time of the signals bits: it settles what its iterations got
      to, and the fences keep to their order and arrays to their children. */
  ghost predicate Returned(all: seq<Input>, inputs: seq<Input>, result: seq<Fence>, bits: set<nat>) {
    && Settled(inputs, result, bits) && AllInputs(result, inputs)
    && InOrder(all, bits) && MembersMean(inputs, bits)
  }

  ghost predicate Part(inputs: seq<Input>, all: seq<Input>) {
    forall f :: IsInput(f, inputs) ==> IsInput(f, all)
  }

  /** A leaf still unsignaled at the return, and shown, has a fence of its context, not earlier,
      in the result. */
  lemma UnsignaledLeavesAreKept(all: seq<Input>, inputs: seq<Input>, result: seq<Fence>, bits: set<nat>, l: Fence)
    returns (r: Fence)
    requires Part(inputs, all) && Returned(all, inputs, result, bits)
    requires IsInput(l, all) && IsShown(inputs, l) && l.id !in bits
    ensures r in result && NotEarlier(l, r)
  {
    var i, m, k :| Shows(inputs, l, i, m, k);
    var member, leaf := inputs[i][m], inputs[i][m].leaves[k];
    assert MemberMeans(member, bits);
    forall p | 0 <= p < |member.leaves| && NotEarlier(l, member.leaves[p])
      ensures member.leaves[p].id !in bits
    {
      assert IsLeaf(member.leaves[p], inputs[i]);
    }
    assert !PassedOver(inputs[i], m, bits);
    r :| NotEarlier(leaf, r) && InPool(r, inputs, [], result, bits);
  }

  ghost predicate Means(all: seq<Input>, result: seq<Fence>, later: set<nat>) {
    (forall f :: f in result ==> f.id in later) <==> (forall f :: IsInput(f, all) ==> f.id in later)
  }

  /** The merged fence is equivalent to its inputs if none of their leaves is hidden: at any time
      from the return on, all its parts have signalled if and only if all leaves have. */
  lemma MergeMeans(all: seq<Input>, inputs: seq<Input>, result: seq<Fence>, bits: set<nat>, later: set<nat>)
    requires Part(inputs, all) && NoneHidden(all, inputs)
    requires Returned(all, inputs, result, bits) && bits <= later && InOrder(all, later)
    ensures Means(all, result, later)
  {
    if forall f :: f in result ==> f.id in later {
      forall l | IsInput(l, all)
        ensures l.id in later
      {
        if l.id !in bits {
          var r := UnsignaledLeavesAreKept(all, inputs, result, bits, l);
          assert IsInput(r, inputs);
        }
      }
    }
  }

  lemma ReachedIsPart(all: seq<Input>, never: set<nat>)
    ensures Part(Reaches(all, never), all)
  {
    var inputs: seq<Input> := Reaches(all, never);
    forall f | IsInput(f, inputs)
      ensures IsInput(f, all)
    {
      var i :| 0 <= i < |inputs| && IsLeaf(f, inputs[i]);
      var m, k :| 0 <= m < |inputs[i]| && 0 <= k < |inputs[i][m].leaves| && inputs[i][m].leaves[k] == f;
      assert all[i][m].leaves[k] == f;
      assert IsLeaf(f, all[i]);
    }
  }

  // -------------------------------------------------------- what hidden leaves do

  ghost predicate MemberAt(all: seq<Input>, i: int, m: int) {
    0 <= i < |all| && 0 <= m < |all[i]|
  }

  ghost predicate OneMemberPerName(all: seq<Input>) {
    forall i, m, j, n :: MemberAt(all, i, m) && MemberAt(all, j, n) && all[i][m].fence == all[j][n].fence
      ==> all[i][m] == all[j][n]
  }

  ghost predicate LeavesAreNamed(all: seq<Input>) {
    && (forall f, g :: IsInput(f, all) && IsInput(g, all) && f.id == g.id ==> f == g)
    && (forall f, i, m :: IsInput(f, all) && MemberAt(all, i, m) && f.id == all[i][m].fence
          ==> !all[i][m].any && all[i][m].leaves != [])
  }

  /** An identity names one fence: leaves and members with one identity are equal, neither an
      array that waits for any nor an empty one is itself a leaf, and never are the empty arrays
      that wait for any. */
  ghost predicate WellNamed(all: seq<Input>, never: set<nat>) {
    && OneMemberPerName(all) && LeavesAreNamed(all)
    && (forall i, m :: MemberAt(all, i, m) ==>
          (all[i][m].fence in never <==> all[i][m].any && all[i][m].leaves == []))
    && (forall f :: IsInput(f, all) ==> f.id !in never)
  }

  /** No array is itself a leaf. */
  ghost predicate NoneNested(all: seq<Input>) {
    forall f, i, m :: IsInput(f, all) && MemberAt(all, i, m) && f.id == all[i][m].fence ==> all[i][m].leaves == [f]
  }

  ghost predicate EarlierInside(l: Fence, member: Member) {
    exists p :: 0 <= p < |member.leaves| && !NotEarlier(l, member.leaves[p])
  }

  /** Whether a fence of the inputs can have signalled while l and everything behind it on its
      timeline has not. */
  ghost predicate OtherLeaf(all: seq<Input>, l: Fence, i: int, m: int, k: int) {
    0 <= i < |all| && LeafAt(all[i], m, k) && !NotEarlier(l, all[i][m].leaves[k])
  }

  ghost predicate OtherArray(all: seq<Input>, l: Fence, i: int, m: int) {
    MemberAt(all, i, m) && if all[i][m].any then EarlierInside(l, all[i][m]) else all[i][m].leaves == []
  }

  /** All that can. */
  ghost function AllOthers(all: seq<Input>, l: Fence): (bits: set<nat>)
    ensures forall i, m, k :: OtherLeaf(all, l, i, m, k) ==> all[i][m].leaves[k].id in bits
    ensures forall i, m :: OtherArray(all, l, i, m) ==> all[i][m].fence in bits
    ensures forall id :: id in bits ==> IsOther(all, l, id)
  {
    var leaves := set i, m, k | 0 <= i < |all| && 0 <= m < |all[i]| && 0 <= k < |all[i][m].leaves|
                                && OtherLeaf(all, l, i, m, k) :: all[i][m].leaves[k].id;
    var arrays := set i, m | 0 <= i < |all| && 0 <= m < |all[i]| && OtherArray(all, l, i, m) :: all[i][m].fence;
    leaves + arrays
  }

  ghost predicate IsOther(all: seq<Input>, l: Fence, id: nat) {
    || (exists i, m, k :: OtherLeaf(all, l, i, m, k) && all[i][m].leaves[k].id == id)
    || (exists i, m :: OtherArray(all, l, i, m) && all[i][m].fence == id)
  }

  lemma LeafIsInput(all: seq<Input>, i: int, m: int, k: int)
    requires 0 <= i < |all| && LeafAt(all[i], m, k)
    ensures IsInput(all[i][m].leaves[k], all)
  {
    assert IsLeaf(all[i][m].leaves[k], all[i]);
  }

  /** Among the leaves those that are not at or behind l have signalled. */
  lemma OthersAreEarlier(all: seq<Input>, never: set<nat>, l: Fence, f: Fence)
    requires WellNamed(all, never) && IsInput(f, all)
    ensures f.id in AllOthers(all, l) <==> !NotEarlier(l, f)
  {
    if f.id in AllOthers(all, l) {
      OtherLeafIsEarlier(all, l, f);
    } else {
      var i :| 0 <= i < |all| && IsLeaf(f, all[i]);
      var m, k :| 0 <= m < |all[i]| && 0 <= k < |all[i][m].leaves| && all[i][m].leaves[k] == f;
      assert !OtherLeaf(all, l, i, m, k);
    }
  }

  lemma OtherLeafIsEarlier(all: seq<Input>, l: Fence, f: Fence)
    requires LeavesAreNamed(all) && IsInput(f, all) && IsOther(all, l, f.id)
    ensures !NotEarlier(l, f)
  {
    if i, m, k :| OtherLeaf(all, l, i, m, k) && all[i][m].leaves[k].id == f.id {
      LeafIsInput(all, i, m, k);
    }
  }

  lemma OthersKeepOrder(all: seq<Input>, never: set<nat>, l: Fence)
    requires WellNamed(all, never)
    ensures InOrder(all, AllOthers(all, l))
  {
    forall f, g | IsInput(f, all) && IsInput(g, all) && NotEarlier(f, g) && g.id in AllOthers(all, l)
      ensures f.id in AllOthers(all, l)
    {
      OthersAreEarlier(all, never, l, f);
      OthersAreEarlier(all, never, l, g);
    }
  }

  lemma EarlierLeafIsOther(all: seq<Input>, l: Fence, i: int, m: int) returns (p: int)
    requires MemberAt(all, i, m) && EarlierInside(l, all[i][m])
    ensures 0 <= p < |all[i][m].leaves| && all[i][m].leaves[p].id in AllOthers(all, l)
  {
    p :| 0 <= p < |all[i][m].leaves| && !NotEarlier(l, all[i][m].leaves[p]);
    assert OtherLeaf(all, l, i, m, p);
  }

  /** An array that waits for any can have signalled if a leaf of it can. */
  lemma AnyOfOthers(all: seq<Input>, never: set<nat>, l: Fence, i: int, m: int)
    requires WellNamed(all, never) && MemberAt(all, i, m) && all[i][m].any
    ensures all[i][m].fence in AllOthers(all, l) <==> EarlierInside(l, all[i][m])
  {
    var member := all[i][m];
    assert OtherArray(all, l, i, m) <==> EarlierInside(l, member);
    if member.fence in AllOthers(all, l) {
      if j, n, k :| OtherLeaf(all, l, j, n, k) && all[j][n].leaves[k].id == member.fence {
        LeafIsInput(all, j, n, k);
        assert false;
      } else {
        var j, n :| OtherArray(all, l, j, n) && all[j][n].fence == member.fence;
        assert all[j][n] == member;
      }
    }
  }

  /** A fence that is itself a leaf signals with it. */
  lemma PlainOfOthers(all: seq<Input>, l: Fence, i: int, m: int)
    requires OneMemberPerName(all) && NoneNested(all) && MemberAt(all, i, m) && !all[i][m].any
    requires all[i][m].fence in AllOthers(all, l)
    ensures forall k :: 0 <= k < |all[i][m].leaves| ==> all[i][m].leaves[k].id in AllOthers(all, l)
  {
    var member := all[i][m];
    if j, n, k :| OtherLeaf(all, l, j, n, k) && all[j][n].leaves[k].id == member.fence {
      LeafIsInput(all, j, n, k);
      assert member.leaves == [all[j][n].leaves[k]];
    } else {
      var j, n :| OtherArray(all, l, j, n) && all[j][n].fence == member.fence;
      assert all[j][n] == member;
    }
  }

  lemma MemberOfOthers(all: seq<Input>, never: set<nat>, l: Fence, i: int, m: int)
    requires WellNamed(all, never) && NoneNested(all) && MemberAt(all, i, m)
    ensures MemberMeans(all[i][m], AllOthers(all, l))
  {
    if all[i][m].fence in AllOthers(all, l) {
      if all[i][m].any {
        AnyOfOthers(all, never, l, i, m);
        var p := EarlierLeafIsOther(all, l, i, m);
      } else {
        PlainOfOthers(all, l, i, m);
      }
    }
  }

  /** A reached member by which l is not shown. */
  lemma PassedMember(all: seq<Input>, never: set<nat>, l: Fence, i: int, m: int)
    requires WellNamed(all, never) && !IsShown(Reaches(all, never), l) && MemberAt(Reaches(all, never), i, m)
    ensures MemberMeans(all[i][m], AllOthers(all, l))
    ensures PassedOver(all[i], m, AllOthers(all, l))
            || forall k :: 0 <= k < |all[i][m].leaves| ==> all[i][m].leaves[k].id in AllOthers(all, l)
  {
    var inputs: seq<Input> := Reaches(all, never);
    var member, bits := all[i][m], AllOthers(all, l);
    assert inputs[i][m] == member;
    if member.any {
      AnyOfOthers(all, never, l, i, m);
      if EarlierInside(l, member) {
        var p := EarlierLeafIsOther(all, l, i, m);
      }
    }
    if k :| 0 <= k < |member.leaves| && member.leaves[k].id !in bits {
      assert !OtherLeaf(all, l, i, m, k);
      assert !Shows(inputs, l, i, m, k);
    }
  }

  /** A leaf that is not shown is lost: everything but what lies at or behind it on its timeline
      may have signalled, in order; then an iteration finds only signaled leaves, and the merge
      returns with nothing to wait for. */
  lemma HiddenLeafIsLost(all: seq<Input>, never: set<nat>, l: Fence) returns (bits: set<nat>)
    requires WellNamed(all, never) && IsInput(l, all) && !IsShown(Reaches(all, never), l)
    ensures Returned(all, Reaches(all, never), [], bits) && l.id !in bits
    ensures Underway(all, Reaches(all, never), never, bits) && (NoneNested(all) ==> MembersMean(all, bits))
    ensures forall i, f :: 0 <= i < |all| && f in Yield(all[i], 0, bits, never) ==> f.id in bits
  {
    var inputs: seq<Input> := Reaches(all, never);
    bits := AllOthers(all, l);
    OthersAreEarlier(all, never, l, l);
    OthersKeepOrder(all, never, l);
    OthersCanSignal(all, never, l);
    NothingIsLeft(all, never, l);
    forall i, f | 0 <= i < |all| && f in Yield(all[i], 0, bits, never)
      ensures f.id in bits
    {
      YieldsOthers(all, never, l, i, 0, f);
    }
  }

  lemma OthersCanSignal(all: seq<Input>, never: set<nat>, l: Fence)
    requires WellNamed(all, never)
    ensures Underway(all, Reaches(all, never), never, AllOthers(all, l))
    ensures NoneNested(all) ==> MembersMean(all, AllOthers(all, l))
  {
    var bits := AllOthers(all, l);
    forall id | id in bits
      ensures id !in never
    {
      if i, m, k :| OtherLeaf(all, l, i, m, k) && all[i][m].leaves[k].id == id {
        LeafIsInput(all, i, m, k);
      } else {
        var i, m :| OtherArray(all, l, i, m) && all[i][m].fence == id;
      }
    }
    forall i, m | 0 <= i < |all| && 0 <= m < |all[i]| && all[i][m].leaves == []
      ensures all[i][m].fence in never || all[i][m].fence in bits
    {
      assert MemberAt(all, i, m) && (!all[i][m].any ==> OtherArray(all, l, i, m));
    }
    if NoneNested(all) {
      forall i, m | 0 <= i < |all| && 0 <= m < |all[i]|
        ensures MemberMeans(all[i][m], bits)
      {
        MemberOfOthers(all, never, l, i, m);
      }
    }
  }

  lemma NothingIsLeft(all: seq<Input>, never: set<nat>, l: Fence)
    requires WellNamed(all, never) && !IsShown(Reaches(all, never), l)
    ensures Settled(Reaches(all, never), [], AllOthers(all, l))
    ensures MembersMean(Reaches(all, never), AllOthers(all, l))
  {
    var inputs: seq<Input> := Reaches(all, never);
    var bits := AllOthers(all, l);
    forall i, m | 0 <= i < |inputs| && 0 <= m < |inputs[i]|
      ensures MemberMeans(inputs[i][m], bits)
    {
      assert MemberAt(inputs, i, m);
      PassedMember(all, never, l, i, m);
    }
    forall i, m, k | 0 <= i < |inputs| && LeafAt(inputs[i], m, k) && !PassedOver(inputs[i], m, bits)
      ensures Covered(inputs[i][m].leaves[k], inputs, [], [], bits)
    {
      assert MemberAt(inputs, i, m);
      PassedMember(all, never, l, i, m);
      LeafIsInput(inputs, i, m, k);
      assert InPool(inputs[i][m].leaves[k], inputs, [], [], bits);
      assert NotEarlier(inputs[i][m].leaves[k], inputs[i][m].leaves[k]);
    }
  }

  lemma {:induction false} YieldsOthers(all: seq<Input>, never: set<nat>, l: Fence, i: nat, n: nat, f: Fence)
    requires WellNamed(all, never) && !IsShown(Reaches(all, never), l)
    requires i < |all| && n <= EndFrom(all[i], 0, never) && f in Yield(all[i], n, AllOthers(all, l), never)
    ensures f.id in AllOthers(all, l)
    decreases |all[i]| - n
  {
    hide WellNamed, IsShown, AllOthers;
    if n < EndFrom(all[i], 0, never) {
      if f in Yield(all[i], n + 1, AllOthers(all, l), never) {
        YieldsOthers(all, never, l, i, n + 1, f);
      } else {
        PassedMember(all, never, l, i, n);
      }
    }
  }

  ghost predicate Kept(all: seq<Input>, result: seq<Fence>, bits: set<nat>) {
    forall l :: IsInput(l, all) && l.id !in bits ==> exists r :: r in result && NotEarlier(l, r)
  }

  /** A merge keeps every unsignaled leaf, whatever it returns, if and only if what its
      iterations get to hides none. */
  lemma KeptIffNoneHidden(all: seq<Input>, never: set<nat>)
    requires WellNamed(all, never)
    ensures NoneHidden(all, Reaches(all, never))
       <==> forall result, bits :: Returned(all, Reaches(all, never), result, bits) ==> Kept(all, result, bits)
  {
    var inputs: seq<Input> := Reaches(all, never);
    ReachedIsPart(all, never);
    if NoneHidden(all, inputs) {
      forall result, bits, l | Returned(all, inputs, result, bits) && IsInput(l, all) && l.id !in bits
        ensures exists r :: r in result && NotEarlier(l, r)
      {
        var r := UnsignaledLeavesAreKept(all, inputs, result, bits, l);
      }
    } else {
      var l :| IsInput(l, all) && !IsShown(inputs, l);
      var bits := HiddenLeafIsLost(all, never, l);
      assert !Kept(all, [], bits);
    }
  }

  /** And if and only if so, the merged fence is equivalent to all leaves of all inputs, at any
      time from the return on. */
  lemma MergeMeansAllInputsIff(all: seq<Input>, never: set<nat>)
    requires WellNamed(all, never)
    ensures NoneHidden(all, Reaches(all, never))
       <==> forall result, bits, later ::
              Returned(all, Reaches(all, never), result, bits) && bits <= later && InOrder(all, later)
              ==> Means(all, result, later)
  {
    var inputs: seq<Input> := Reaches(all, never);
    ReachedIsPart(all, never);
    if NoneHidden(all, inputs) {
      forall result, bits, later | Returned(all, inputs, result, bits) && bits <= later && InOrder(all, later)
        ensures Means(all, result, later)
      {
        MergeMeans(all, inputs, result, bits, later);
      }
    } else {
      var l :| IsInput(l, all) && !IsShown(inputs, l);
      var bits := HiddenLeafIsLost(all, never, l);
      assert !Means(all, [], bits);
    }
  }

  // ------------------------------------------------------------ simple rules

  /** A caller puts no array that signals with any of several children into a chain, behind its
      head. */
  ghost predicate NoAnyBehindHead(inputs: seq<Input>) {
    forall i, m :: 0 <= i < |inputs| && 0 < m < |inputs[i]| ==> inputs[i][m].any ==> |inputs[i][m].leaves| <= 1
  }

  /** A caller puts no array without children, that ends an iteration, ahead of other leaves. */
  ghost predicate NoEndAhead(all: seq<Input>, never: set<nat>) {
    forall i, e, m :: 0 <= i < |all| && 0 <= e < m < |all[i]| && Ends(all[i], e, never) ==> all[i][m].leaves == []
  }

  /** Callers that keep to both rules hide nothing. */
  lemma RulesHideNothing(all: seq<Input>, never: set<nat>)
    requires NoEndAhead(all, never) && NoAnyBehindHead(all)
    ensures NoneHidden(all, Reaches(all, never))
  {
    var inputs: seq<Input> := Reaches(all, never);
    forall l | IsInput(l, all)
      ensures IsShown(inputs, l)
    {
      var i :| 0 <= i < |all| && IsLeaf(l, all[i]);
      ReachIsAllIff(all[i], never);
      var m, k :| 0 <= m < |all[i]| && 0 <= k < |all[i][m].leaves| && all[i][m].leaves[k] == l;
      assert inputs[i][m].leaves[k] == l;
      assert Shows(inputs, l, i, m, k);
    }
  }
}
