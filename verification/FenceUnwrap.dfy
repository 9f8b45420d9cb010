/** Iteration over the fences inside chains and arrays (dma-fence-unwrap.c), while other
    threads keep signalling. */
module FenceUnwrap {
  import opened Fences

  /** One link of a chain: the contained fence, the leaves it unwraps to, which is itself alone
      when it is not an array, and whether it is an array that signals with any of them. */
  datatype Member = Member(fence: nat, leaves: seq<Fence>, any: bool)

  /** An input of the merge: the members from the head down; NULL is the empty list. */
  type Input = seq<Member>

  /** dma_fence_unwrap: which member, which leaf of it. */
  datatype Cursor = Cursor(chain: nat, index: nat)

  /** An array without children ends the iteration: at the head, where the walk is not asked,
      and behind it unless it has signalled. Without children it has from the start or it
      never will; never are the fences of the latter kind. */
  predicate Ends(input: Input, m: nat, never: set<nat>)
    requires m < |input|
  {
    input[m].leaves == [] && (m == 0 || input[m].fence in never)
  }

  ghost predicate Decided(input: Input, never: set<nat>, bits: set<nat>) {
    forall m :: 0 <= m < |input| && input[m].leaves == [] ==> input[m].fence in never || input[m].fence in bits
  }

  function EndFrom(input: Input, m: nat, never: set<nat>): (e: nat)
    requires m <= |input|
    ensures m <= e <= |input|
    ensures e < |input| ==> Ends(input, e, never)
    ensures forall j :: m <= j < e ==> !Ends(input, j, never)
    decreases |input| - m
  {
    if m == |input| || Ends(input, m, never) then m else EndFrom(input, m + 1, never)
  }

  /** The members that an iteration can get to. */
  function Reach(input: Input, never: set<nat>): (r: Input) {
    input[..EndFrom(input, 0, never)]
  }

  /** A position the cursor may hold: a leaf, or past the end with no index. */
  predicate ValidCursor(input: Input, c: Cursor) {
    || (c.chain < |input| && c.index < |input[c.chain].leaves|)
    || (c.chain == |input| && c.index == 0)
  }

  function Current(input: Input, c: Cursor): (r: Option<Fence>) {
    if c.chain < |input| && c.index < |input[c.chain].leaves|
    then Some(input[c.chain].leaves[c.index]) else None
  }

  ghost predicate Before(m: int, k: int, c: Cursor) {
    m < c.chain || (m == c.chain && k < c.index)
  }

  predicate IsLeaf(f: Fence, input: Input) {
    exists m, k :: 0 <= m < |input| && 0 <= k < |input[m].leaves| && input[m].leaves[k] == f
  }

  /** The signaled bits of all fences. Every test lets other threads signal first. */
  class Signals {
    var bits: set<nat>
    /** Arrays that cannot signal because they have no children. */
    const never: set<nat>

    constructor ()
      ensures bits == never == {}
    {
      bits, never := {}, {};
    }

    ghost predicate Ok()
      reads this
    {
      bits !! never
    }

    method IsSignaled(id: nat) returns (r: bool)
      modifies this
      ensures old(bits) <= bits && (old(Ok()) ==> Ok())
      ensures r <==> id in bits
    {
      var meanwhile: set<nat> := *;
      bits := bits + (meanwhile - never);
      r := id in bits;
    }
  }

  /** The leaves from member m on that a cursor entering at m can still reach. */
  function LeavesFrom(input: Input, m: nat): (r: nat)
    requires m <= |input|
    decreases |input| - m
  {
    if m == |input| then 0 else |input[m].leaves| + LeavesFrom(input, m + 1)
  }

  function LeavesLeft(input: Input, c: Cursor): (r: nat) {
    if Current(input, c).None? then 0
    else |input[c.chain].leaves| - c.index + LeavesFrom(input, c.chain + 1)
  }

  lemma {:induction false} LeavesFromShrinks(input: Input, m: nat, n: nat)
    requires m <= n <= |input|
    ensures LeavesFrom(input, n) <= LeavesFrom(input, m)
    decreases n - m
  {
    if m < n {
      LeavesFromShrinks(input, m + 1, n);
    }
  }

  function CountUnsignaled(leaves: seq<Fence>, bits: set<nat>): (r: nat) {
    if leaves == [] then 0
    else (if leaves[0].id in bits then 0 else 1) + CountUnsignaled(leaves[1..], bits)
  }

  /** The unsignaled leaves that a walk from member m visits when exactly bits have
      signalled; the walk passes over members whose contained fence has signalled. */
  function UnsignaledFrom(input: Input, m: nat, bits: set<nat>): (r: nat)
    requires m <= |input|
    decreases |input| - m
  {
    if m == |input| then 0
    else (if input[m].fence in bits then 0 else CountUnsignaled(input[m].leaves, bits))
         + UnsignaledFrom(input, m + 1, bits)
  }

  function UnsignaledLeft(input: Input, c: Cursor, bits: set<nat>): (r: nat) {
    if Current(input, c).None? then 0
    else CountUnsignaled(input[c.chain].leaves[c.index..], bits) + UnsignaledFrom(input, c.chain + 1, bits)
  }

  lemma {:induction false} UnsignaledFromShrinks(input: Input, m: nat, n: nat, bits: set<nat>)
    requires m <= n <= |input|
    ensures UnsignaledFrom(input, n, bits) <= UnsignaledFrom(input, m, bits)
    decreases n - m
  {
    if m < n {
      UnsignaledFromShrinks(input, m + 1, n, bits);
    }
  }

  /** Stepping off a leaf leaves fewer leaves, and fewer unsignaled ones if that leaf was
      unsignaled. */
  lemma StepShrinks(input: Input, c: Cursor, next: Cursor, bits: set<nat>)
    requires ValidCursor(input, c) && c.chain < |input| && IsStep(input, c, next, bits)
    ensures LeavesLeft(input, next) < LeavesLeft(input, c)
    ensures UnsignaledLeft(input, next, bits) + (if input[c.chain].leaves[c.index].id in bits then 0 else 1)
         <= UnsignaledLeft(input, c, bits)
  {
    var leaves := input[c.chain].leaves;
    assert leaves[c.index..][1..] == leaves[c.index + 1..];
    if next.chain > c.chain {
      LeavesFromShrinks(input, c.chain + 1, next.chain);
      UnsignaledFromShrinks(input, c.chain + 1, next.chain, bits);
      if next.chain < |input| {
        assert input[next.chain].leaves[0..] == input[next.chain].leaves;
      }
    }
  }

  lemma {:induction false} UnsignaledFromSkips(input: Input, m: nat, n: nat, bits: set<nat>)
    requires m <= n <= |input|
    requires forall j :: m <= j < n ==> input[j].fence in bits
    ensures UnsignaledFrom(input, m, bits) == UnsignaledFrom(input, n, bits)
    decreases n - m
  {
    if m < n {
      UnsignaledFromSkips(input, m + 1, n, bits);
    }
  }

  /** When every member passed over has signalled, a step loses no unsignaled leaf but its own. */
  lemma StepLosesOnlyItsLeaf(input: Input, c: Cursor, next: Cursor, bits: set<nat>)
    requires ValidCursor(input, c) && IsStep(input, c, next, {})
    requires forall j :: c.chain < j < next.chain ==> input[j].fence in bits
    ensures UnsignaledLeft(input, c, bits)
         <= UnsignaledLeft(input, next, bits) + (if input[c.chain].leaves[c.index].id in bits then 0 else 1)
  {
    var leaves := input[c.chain].leaves;
    assert leaves[c.index..][1..] == leaves[c.index + 1..];
    if next.chain > c.chain {
      assert leaves[c.index + 1..] == [];
      UnsignaledFromSkips(input, c.chain + 1, next.chain, bits);
      assert CountUnsignaled(leaves[c.index..], bits) == (if leaves[c.index].id in bits then 0 else 1);
      if next.chain < |input| {
        assert input[next.chain].leaves[0..] == input[next.chain].leaves;
      }
    }
  }

  /** next follows c: the next leaf of the array, else the first leaf of a later member that
      was not among the given early signals. */
  ghost predicate IsStep(input: Input, c: Cursor, next: Cursor, early: set<nat>) {
    && ValidCursor(input, next)
    && c.chain < |input|
    && if c.index + 1 < |input[c.chain].leaves| then next == Cursor(c.chain, c.index + 1)
       else next.chain > c.chain && next.index == 0
            && (next.chain < |input| ==> input[next.chain].fence !in early)
  }

  /** dma_fence_unwrap_first: the chain walk is not asked about the head. Every leaf that the
      iteration can get to lies ahead. */
  method UnwrapFirst(input: Input, ghost never: set<nat>) returns (c: Cursor, f: Option<Fence>)
    ensures c == Cursor(0, 0) && ValidCursor(Reach(input, never), c)
    ensures f == Current(Reach(input, never), c)
    ensures f.None? <==> input == [] || input[0].leaves == []
    ensures LeavesLeft(Reach(input, never), c) == LeavesFrom(Reach(input, never), 0)
  {
    c := Cursor(0, 0);
    f := Current(input, c);
  }

  /** dma_fence_chain_walk as the iteration sees it: the next member not found signaled. */
  method ChainWalk(input: Input, chain: nat, sig: Signals) returns (m: nat)
    requires chain < |input|
    modifies sig
    ensures old(sig.bits) <= sig.bits && (old(sig.Ok()) ==> sig.Ok())
    ensures chain < m <= |input|
    ensures forall j :: chain < j < m ==> input[j].fence in sig.bits
    ensures m < |input| ==> input[m].fence !in old(sig.bits)
  {
    m := chain + 1;
    while m < |input|
      invariant chain < m <= |input|
      invariant old(sig.bits) <= sig.bits && (old(sig.Ok()) ==> sig.Ok())
      invariant forall j :: chain < j < m ==> input[j].fence in sig.bits
    {
      var passed := sig.IsSignaled(input[m].fence);
      if !passed {
        return;
      }
      m := m + 1;
    }
  }

  /** The walk stops at a member that ends the iteration, at the latest. */
  lemma WalkStaysInReach(input: Input, never: set<nat>, bits: set<nat>, chain: nat, m: nat)
    requires bits !! never && chain < EndFrom(input, 0, never) && chain < m <= |input|
    requires forall j :: chain < j < m ==> input[j].fence in bits
    ensures m <= EndFrom(input, 0, never)
  {
    var end := EndFrom(input, 0, never);
    assert end < |input| ==> input[end].fence !in bits;
  }

  /** dma_fence_unwrap_next. Every member passed over has signalled. */
  method UnwrapNext(input: Input, c: Cursor, sig: Signals) returns (next: Cursor, f: Option<Fence>)
    requires sig.Ok() && Decided(input, sig.never, sig.bits)
    requires ValidCursor(Reach(input, sig.never), c) && c.chain < |Reach(input, sig.never)|
    modifies sig
    ensures sig.Ok() && old(sig.bits) <= sig.bits
    ensures IsStep(Reach(input, sig.never), c, next, old(sig.bits))
    ensures f == Current(Reach(input, sig.never), next)
    ensures forall j :: c.chain < j < next.chain ==> input[j].fence in sig.bits
  {
    next := Cursor(c.chain, c.index + 1);
    f := Current(input, next);
    if f.Some? {
      return;
    }
    var m := ChainWalk(input, c.chain, sig);
    WalkStaysInReach(input, sig.never, sig.bits, c.chain, m);
    assert m < EndFrom(input, 0, sig.never) ==> !Ends(input, m, sig.never);
    next := Cursor(m, 0);
    f := Current(input, next);
  }

  /** The iteration can get to every leaf if and only if no member ends it ahead of one. */
  lemma ReachIsAllIff(input: Input, never: set<nat>)
    ensures (forall m :: 0 <= m < |input| && input[m].leaves != [] ==> m < |Reach(input, never)|)
       <==> (forall e, m :: 0 <= e < m < |input| && Ends(input, e, never) ==> input[m].leaves == [])
  {
    var end := EndFrom(input, 0, never);
    if end < |input| && forall e, m :: 0 <= e < m < |input| && Ends(input, e, never) ==> input[m].leaves == [] {
      assert forall m :: end <= m < |input| ==> input[m].leaves == [];
    }
  }

  /** When nothing else signals, the leaves that an iteration yields from member m on: those of
      the members not signaled, up to the first that ends it. */
  function Yield(input: Input, m: nat, bits: set<nat>, never: set<nat>): (leaves: seq<Fence>)
    requires m <= |input|
    decreases |input| - m
  {
    if m == |input| || Ends(input, m, never) then []
    else (if m > 0 && input[m].fence in bits then [] else input[m].leaves) + Yield(input, m + 1, bits, never)
  }

  /** What it still yields from the cursor on. */
  function YieldAt(input: Input, c: Cursor, bits: set<nat>, never: set<nat>): (leaves: seq<Fence>) {
    if Current(input, c).None? then []
    else input[c.chain].leaves[c.index..] + Yield(input, c.chain + 1, bits, never)
  }

  /** A step while exactly bits have signalled. */
  ghost predicate QuietStep(input: Input, c: Cursor, next: Cursor, bits: set<nat>, never: set<nat>) {
    && IsStep(Reach(input, never), c, next, bits)
    && forall j :: c.chain < j < next.chain ==> input[j].fence in bits
  }

  lemma {:induction false} YieldSkips(input: Input, m: nat, n: nat, bits: set<nat>, never: set<nat>)
    requires 0 < m <= n <= EndFrom(input, 0, never) && forall j :: m <= j < n ==> input[j].fence in bits
    ensures Yield(input, m, bits, never) == Yield(input, n, bits, never)
    decreases n - m
  {
    if m < n {
      YieldSkips(input, m + 1, n, bits, never);
    }
  }

  lemma StepYieldsOne(input: Input, c: Cursor, next: Cursor, bits: set<nat>, never: set<nat>)
    requires ValidCursor(Reach(input, never), c) && c.chain < |Reach(input, never)|
    requires QuietStep(input, c, next, bits, never)
    ensures YieldAt(input, c, bits, never) == [input[c.chain].leaves[c.index]] + YieldAt(input, next, bits, never)
  {
    var leaves := input[c.chain].leaves;
    assert leaves[c.index..] == [leaves[c.index]] + leaves[c.index + 1..];
    if next.chain > c.chain {
      assert leaves[c.index + 1..] == [];
      YieldSkips(input, c.chain + 1, next.chain, bits, never);
      if next.chain < |Reach(input, never)| {
        assert input[next.chain].leaves[0..] == input[next.chain].leaves;
      } else if next.chain < |input| {
        assert Current(input, next).None?;
      }
    }
  }

  /** The cursors of a whole iteration while exactly bits have signalled. */
  ghost predicate QuietIteration(input: Input, cursors: seq<Cursor>, bits: set<nat>, never: set<nat>) {
    && cursors != [] && cursors[0] == Cursor(0, 0)
    && (forall k :: 0 <= k < |cursors| ==> ValidCursor(Reach(input, never), cursors[k]))
    && (forall k :: 0 <= k < |cursors| - 1 ==>
         Current(input, cursors[k]).Some? && QuietStep(input, cursors[k], cursors[k + 1], bits, never))
    && Current(input, cursors[|cursors| - 1]).None?
  }

  function Yielded(input: Input, cursors: seq<Cursor>): (leaves: seq<Fence>) {
    if cursors == [] || Current(input, cursors[0]).None? then []
    else [Current(input, cursors[0]).value] + Yielded(input, cursors[1..])
  }

  /** An iteration over any input yields exactly those leaves, in order. */
  lemma IterationYields(input: Input, cursors: seq<Cursor>, bits: set<nat>, never: set<nat>)
    requires QuietIteration(input, cursors, bits, never)
    ensures Yielded(input, cursors) == Yield(input, 0, bits, never)
  {
    RestYields(input, cursors, 0, bits, never);
    assert cursors[0..] == cursors;
    if Current(input, cursors[0]).Some? {
      assert input[0].leaves[0..] == input[0].leaves;
    }
  }

  lemma {:induction false} RestYields(input: Input, cursors: seq<Cursor>, k: nat, bits: set<nat>, never: set<nat>)
    requires QuietIteration(input, cursors, bits, never) && k < |cursors|
    ensures Yielded(input, cursors[k..]) == YieldAt(input, cursors[k], bits, never)
    decreases |cursors| - k
  {
    if k < |cursors| - 1 {
      RestYields(input, cursors, k + 1, bits, never);
      assert cursors[k..][1..] == cursors[k + 1..];
      StepYieldsOne(input, cursors[k], cursors[k + 1], bits, never);
    }
  }
}
