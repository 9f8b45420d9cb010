/** What a run of writers does to a reservation object: reserved slots are there when they are
    needed, and what a reader must wait for is never lost (dma-resv.c). */
module ResvRuns {
  import opened Fences
  import opened Powers
  import opened FenceUnwrap
  import opened Resv

  // -------------------------------------------------- reserved slots are there

  /** A reservation that succeeds makes room, except that the unsigned sum can wrap: then the
      call succeeds on the old table and there is no room. */
  lemma ReserveMakesRoom(a: View, b: View, n: nat, kept: seq<bool>, bits0: set<nat>, bits1: set<nat>)
    requires 0 < a.max < TWO_32 && |a.entries| <= a.max && n < TWO_32
    requires Reserved(a, b, n, kept, bits0, bits1)
    ensures |b.entries| + n <= b.max <==> |a.entries| + n < TWO_32
  {
    if |a.entries| + n >= TWO_32 {
      assert (|a.entries| + n) % TWO_32 == |a.entries| + n - TWO_32;
    } else if !HasRoom(a, n) {
      SelectSplits(a.entries, kept);
    }
  }

  /** Without a usable table the same holds up to 2^31 slots. */
  lemma FirstReserveMakesRoom(a: View, b: View, n: nat, kept: seq<bool>, bits0: set<nat>, bits1: set<nat>)
    requires a.max == 0 && a.entries == [] && n < TWO_32
    requires Reserved(a, b, n, kept, bits0, bits1)
    ensures n <= TWO_31 ==> |b.entries| + n <= b.max
  {
    assert b.entries == [];
    if 0 < n <= TWO_31 {
      Pow2Values();
      RoundUpIsLeast(n, 0, 31);
    }
  }

  /** Beyond that the rounded request is stored as zero, and a table without any slot will do. */
  lemma HugeFirstReserveMakesNone(n: nat, bits: set<nat>)
    requires TWO_31 < n < TWO_32
    ensures Requested(View([], 0), n) == 0
    ensures Reserved(View([], 0), View([], 0), n, [], bits, bits)
  {
    Pow2Values();
    RoundUpIsLeast(n, 0, 32);
    var j: nat :| j <= 32 && RoundUp(n) == Pow2(j);
    if j < 32 {
      Pow2Grows(j, 31);
    }
  }

  /** A run of dma_resv_add_fence: the fences, their usages and slots. */
  ghost predicate Adds(views: seq<View>, bits: seq<set<nat>>, fs: seq<Fence>, usages: seq<Usage>, at: seq<nat>) {
    && |views| == |bits| == |fs| + 1 == |usages| + 1 == |at| + 1
    && forall k :: 0 <= k < |fs| ==> Added(views[k], views[k + 1], fs[k], usages[k], at[k], bits[k], bits[k + 1])
  }

  /** Each add uses up at most one reserved slot, so the n-th still finds one. */
  lemma {:induction false} ReservedAddsFit(views: seq<View>, bits: seq<set<nat>>, fs: seq<Fence>, usages: seq<Usage>,
                                           at: seq<nat>, n: nat, k: nat)
    requires Adds(views, bits, fs, usages, at) && k <= |fs|
    requires |views[0].entries| + n <= views[0].max && k <= n
    ensures |views[k].entries| + (n - k) <= views[k].max
  {
    if k > 0 {
      ReservedAddsFit(views, bits, fs, usages, at, n, k - 1);
      assert Added(views[k - 1], views[k - 1 + 1], fs[k - 1], usages[k - 1], at[k - 1], bits[k - 1], bits[k - 1 + 1]);
    }
  }

  lemma OneMoreAdd(views: seq<View>, bits: seq<set<nat>>, fs: seq<Fence>, usages: seq<Usage>, at: seq<nat>,
                   view: View, now: set<nat>, f: Fence, usage: Usage, i: nat)
    requires Adds(views, bits, fs, usages, at)
    requires Added(views[|fs|], view, f, usage, i, bits[|fs|], now)
    ensures Adds(views + [view], bits + [now], fs + [f], usages + [usage], at + [i])
  {
  }

  /** What dma_resv_reserve_fences is for: after a successful reservation of n slots, up to n
      fences are added one after the other and none of the calls hits the BUG, whatever signals
      meanwhile. */
  method ReserveAndAdd(o: Object, n: nat, fs: seq<Fence>, usages: seq<Usage>, signals: Signals, gotMemory: bool)
    returns (reserved: bool, added: bool,
             ghost kept: seq<bool>, ghost views: seq<View>, ghost bits: seq<set<nat>>, ghost at: seq<nat>)
    requires o.Valid() && |fs| == |usages| <= n
    requires |o.State().entries| + n < TWO_32 && (o.State().max == 0 ==> n <= TWO_31)
    modifies o, o.Footprint(), signals
    ensures o.Valid() && (reserved <==> HasRoom(old(o.State()), n) || gotMemory)
    ensures reserved ==> added
    ensures reserved ==> Adds(views, bits, fs, usages, at) && o.State() == views[|fs|]
    ensures reserved ==> Reserved(old(o.State()), views[0], n, kept, old(signals.bits), bits[0])
  {
    ghost var before := o.State();
    reserved, kept := o.Reserve(n, signals, gotMemory);
    added, views, bits, at := false, [], [], [];
    if reserved {
      MakesRoom(before, o.State(), n, kept, old(signals.bits), signals.bits);
      added, views, bits, at := AddAll(o, n, fs, usages, signals);
    }
  }

  lemma MakesRoom(a: View, b: View, n: nat, kept: seq<bool>, bits0: set<nat>, bits1: set<nat>)
    requires Reserved(a, b, n, kept, bits0, bits1) && |a.entries| <= a.max < TWO_32
    requires |a.entries| + n < TWO_32 && (a.max == 0 ==> n <= TWO_31)
    ensures |b.entries| + n <= b.max
  {
    if a.max == 0 {
      FirstReserveMakesRoom(a, b, n, kept, bits0, bits1);
    } else {
      ReserveMakesRoom(a, b, n, kept, bits0, bits1);
    }
  }

  /** added tells whether all calls succeeded. */
  method AddAll(o: Object, ghost n: nat, fs: seq<Fence>, usages: seq<Usage>, signals: Signals)
    returns (added: bool, ghost views: seq<View>, ghost bits: seq<set<nat>>, ghost at: seq<nat>)
    requires o.Valid() && o.fences != null && |fs| == |usages| <= n
    requires |o.State().entries| + n <= o.State().max
    modifies o, o.fences, o.fences.slots, signals
    ensures added && o.Valid() && Adds(views, bits, fs, usages, at)
    ensures views[0] == old(o.State()) && o.State() == views[|fs|] && bits[0] == old(signals.bits)
  {
    added, views, bits, at := true, [o.State()], [signals.bits], [];
    var k := 0;
    while k < |fs|
      invariant k <= |fs| && added && o.Valid() && o.fences == old(o.fences)
      invariant Adds(views, bits, fs[..k], usages[..k], at)
      invariant views[0] == old(o.State()) && o.State() == views[k] && bits[0] == old(signals.bits)
              && bits[k] == signals.bits
    {
      ReservedAddsFit(views, bits, fs[..k], usages[..k], at, n, k);
      var ok;
      ghost var i;
      ok, i := o.Add(fs[k], usages[k], signals);
      added := added && ok;
      OneMoreAdd(views, bits, fs[..k], usages[..k], at, o.State(), signals.bits, fs[k], usages[k], i);
      views, bits, at := views + [o.State()], bits + [signals.bits], at + [i];
      assert fs[..k + 1] == fs[..k] + [fs[k]] && usages[..k + 1] == usages[..k] + [usages[k]];
      k := k + 1;
    }
    assert fs[..k] == fs && usages[..k] == usages;
  }

  // ------------------------------------------------ nothing visible is lost

  /** Fences of one context signal in the order of their positions. */
  ghost predicate InOrder(all: set<Fence>, bits: set<nat>) {
    forall f, g :: f in all && g in all && f.context == g.context && f.position <= g.position && g.id in bits ==>
        f.id in bits
  }

  ghost predicate Window(all: set<Fence>) {
    forall f, g :: f in all && g in all ==> InWindow(f, g)
  }

  ghost predicate Within(es: seq<Entry>, all: set<Fence>) {
    forall i :: 0 <= i < |es| ==> es[i].fence in all
  }

  /** A reader that waits for e's usage still waits for e: for itself or for a later fence of
      its context. */
  ghost predicate StandsFor(e2: Entry, e: Entry) {
    && e2.usage <= e.usage
    && (e2.fence == e.fence || (e2.fence.context == e.fence.context && e2.fence.position > e.fence.position))
  }

  datatype Op =
    | AddOp(fence: Fence, usage: Usage, at: nat)
    | ReserveOp(n: nat, kept: seq<bool>)
    | ReplaceOp(context: nat, replacement: Entry)
    | UnlockOp

  /** One call of a writer, with the fences that signalled in its course. */
  ghost predicate Step(a: View, b: View, op: Op, bits0: set<nat>, bits1: set<nat>) {
    && bits0 <= bits1
    && match op
       case AddOp(f, usage, at) => Added(a, b, f, usage, at, bits0, bits1)
       case ReserveOp(n, kept) => Reserved(a, b, n, kept, bits0, bits1)
       case ReplaceOp(context, e) => b == View(ReplaceAll(a.entries, context, e), a.max)
       case UnlockOp => b == a || b == View(a.entries, |a.entries|)
  }

  ghost predicate Run(views: seq<View>, bits: seq<set<nat>>, ops: seq<Op>) {
    && |views| == |bits| == |ops| + 1
    && forall k :: 0 <= k < |ops| ==> Step(views[k], views[k + 1], ops[k], bits[k], bits[k + 1])
  }

  predicate Replaces(op: Op, e: Entry) {
    op.ReplaceOp? && op.context == e.fence.context
  }

  lemma StepKeeps(a: View, b: View, op: Op, bits0: set<nat>, bits1: set<nat>, all: set<Fence>, i: nat) returns (j: nat)
    requires Step(a, b, op, bits0, bits1)
    requires Within(a.entries, all) && Within(b.entries, all) && Window(all)
    requires i < |a.entries| && a.entries[i].fence.id !in bits1
    ensures j < |b.entries|
    ensures if Replaces(op, a.entries[i]) then b.entries[j] == op.replacement
            else StandsFor(b.entries[j], a.entries[i])
  {
    j := i;
    match op
    case AddOp(f, usage, at) =>
      if i == at {
        assert b.entries[at].fence == f;
        IsLaterInWindow(f, a.entries[i].fence);
      }
    case ReserveOp(n, kept) =>
      if !HasRoom(a, n) {
        SelectKeeps(a.entries, kept, i);
        j :| 0 <= j < |b.entries| && b.entries[j] == a.entries[i];
      }
    case ReplaceOp(context, e) =>
    case UnlockOp =>
  }

  /** Whether e2 stands for e once the operations from k on are done: as a later fence of its
      context, or, where that context has been replaced, for the replacement. */
  ghost predicate Inherits(ops: seq<Op>, k: nat, e: Entry, e2: Entry)
    requires k <= |ops|
    decreases |ops| - k
  {
    || StandsFor(e2, e)
    || exists t :: k <= t < |ops| && Replaces(ops[t], e) && Inherits(ops, t + 1, ops[t].replacement, e2)
  }

  ghost predicate NotReplaced(ops: seq<Op>, k: nat, e: Entry) {
    forall t :: k <= t < |ops| ==> !Replaces(ops[t], e)
  }

  ghost predicate ReplacedAt(views: seq<View>, ops: seq<Op>, t: int, i: int)
    requires |views| == |ops| + 1
  {
    0 <= t < |ops| && 0 <= i < |views[t].entries| && Replaces(ops[t], views[t].entries[i])
  }

  /** What dma_resv_replace_fences demands: a replacement does not signal before what it replaces. */
  ghost predicate ReplacedInOrder(views: seq<View>, ops: seq<Op>, done: set<nat>)
    requires |views| == |ops| + 1
  {
    forall t, i :: ReplacedAt(views, ops, t, i) ==>
      ops[t].replacement.fence.id in done ==> views[t].entries[i].fence.id in done
  }

  /** A replacement has a usage at least as binding as what it replaces. */
  ghost predicate ReplacedAsBinding(views: seq<View>, ops: seq<Op>)
    requires |views| == |ops| + 1
  {
    forall t, i :: ReplacedAt(views, ops, t, i) ==> ops[t].replacement.usage <= views[t].entries[i].usage
  }

  lemma StandsForChain(ops: seq<Op>, k: nat, e: Entry, e1: Entry, e2: Entry)
    requires k < |ops| && StandsFor(e1, e) && Inherits(ops, k + 1, e1, e2)
    ensures Inherits(ops, k, e, e2)
  {
    if !StandsFor(e2, e1) {
      var t :| k + 1 <= t < |ops| && Replaces(ops[t], e1) && Inherits(ops, t + 1, ops[t].replacement, e2);
      assert Replaces(ops[t], e);
    }
  }

  /** Over any run of writers, each fence that is still unsignaled at the end is there at the
      end, or a later one of its context is, with a usage that is at least as binding; or its
      context has been replaced, and the same holds of the replacement. What stands for it is
      unsignaled too. Replacing other contexts does not matter; for its own the caller has to
      keep to what replacing demands. */
  lemma {:induction false} NothingVisibleIsLost(views: seq<View>, bits: seq<set<nat>>, ops: seq<Op>, all: set<Fence>,
                                                k: nat, i: nat)
    returns (j: nat)
    requires Run(views, bits, ops) && k <= |ops|
    requires forall m :: 0 <= m < |views| ==> Within(views[m].entries, all)
    requires Window(all) && InOrder(all, bits[|ops|])
    requires i < |views[k].entries| && views[k].entries[i].fence.id !in bits[|ops|]
    requires NotReplaced(ops, k, views[k].entries[i]) || ReplacedInOrder(views, ops, bits[|ops|])
    ensures j < |views[|ops|].entries|
    ensures var e, e2 := views[k].entries[i], views[|ops|].entries[j];
            && Inherits(ops, k, e, e2) && e2.fence.id !in bits[|ops|]
            && (NotReplaced(ops, k, e) ==> StandsFor(e2, e))
            && (ReplacedAsBinding(views, ops) ==> e2.usage <= e.usage)
    decreases |ops| - k
  {
    if k == |ops| {
      j := i;
    } else {
      BitsGrow(views, bits, ops, k + 1);
      assert Step(views[k], views[k + 1], ops[k], bits[k], bits[k + 1]);
      var next := StepKeeps(views[k], views[k + 1], ops[k], bits[k], bits[k + 1], all, i);
      var e, e1 := views[k].entries[i], views[k + 1].entries[next];
      assert e.fence in all && e1.fence in all;
      assert Replaces(ops[k], e) ==> ReplacedAt(views, ops, k, i);
      j := NothingVisibleIsLost(views, bits, ops, all, k + 1, next);
      if !Replaces(ops[k], e) {
        StandsForChain(ops, k, e, e1, views[|ops|].entries[j]);
      }
    }
  }

  lemma {:induction false} BitsGrow(views: seq<View>, bits: seq<set<nat>>, ops: seq<Op>, k: nat)
    requires Run(views, bits, ops) && k <= |ops|
    ensures bits[k] <= bits[|ops|]
    decreases |ops| - k
  {
    if k < |ops| {
      assert Step(views[k], views[k + 1], ops[k], bits[k], bits[k + 1]);
      BitsGrow(views, bits, ops, k + 1);
    }
  }

  /** Everything that a query at usage u returns has signalled. */
  ghost predicate Idle(a: View, u: Usage, bits: set<nat>) {
    forall i :: 0 <= i < |a.entries| && a.entries[i].usage <= u ==> a.entries[i].fence.id in bits
  }

  /** What queries rely on: once the object is idle for a usage, every fence that was ever
      visible at that usage during the run has signalled, if replacements were as they should be. */
  lemma IdleMeansAllDone(views: seq<View>, bits: seq<set<nat>>, ops: seq<Op>, all: set<Fence>, u: Usage, k: nat)
    requires Run(views, bits, ops) && k <= |ops|
    requires forall m :: 0 <= m < |views| ==> Within(views[m].entries, all)
    requires Window(all) && InOrder(all, bits[|ops|])
    requires ReplacedInOrder(views, ops, bits[|ops|]) && ReplacedAsBinding(views, ops)
    ensures Idle(views[|ops|], u, bits[|ops|]) ==> Idle(views[k], u, bits[|ops|])
  {
    if !Idle(views[k], u, bits[|ops|]) {
      var i: nat :| i < |views[k].entries| && views[k].entries[i].usage <= u
          && views[k].entries[i].fence.id !in bits[|ops|];
      var j := NothingVisibleIsLost(views, bits, ops, all, k, i);
    }
  }

  /** The usage of the fence of an access, and the usage that an access asks for. */
  function FenceUsage(write: bool): (u: Usage) {
    if write then WRITE else READ
  }

  function AccessUsage(write: bool): (u: Usage) {
    if write then READ else WRITE
  }

  /** Implicit synchronization: an access that begins when the object is idle for it begins
      after every conflicting access of the run, that is a write, or any if it is a write itself. */
  lemma ConflictsAreWaitedFor(views: seq<View>, bits: seq<set<nat>>, ops: seq<Op>, all: set<Fence>, write: bool,
                              k: nat, i: nat, earlier: bool)
    requires Run(views, bits, ops) && k <= |ops| && i < |views[k].entries|
    requires forall m :: 0 <= m < |views| ==> Within(views[m].entries, all)
    requires Window(all) && InOrder(all, bits[|ops|])
    requires ReplacedInOrder(views, ops, bits[|ops|]) && ReplacedAsBinding(views, ops)
    requires Idle(views[|ops|], AccessUsage(write), bits[|ops|])
    requires views[k].entries[i].usage == FenceUsage(earlier) && (write || earlier)
    ensures views[k].entries[i].fence.id in bits[|ops|]
  {
    IdleMeansAllDone(views, bits, ops, all, AccessUsage(write), k);
  }

  /** The order matters, for any two fences of a context: when the later one signals first, the
      earlier one that it had taken the place of is lost. */
  lemma OutOfOrderLosesAFence(early: Fence, late: Fence, usage: Usage)
    returns (views: seq<View>, bits: seq<set<nat>>, ops: seq<Op>)
    requires early.context == late.context && early.position < late.position && early.id != late.id
    requires InWindow(early, late)
    ensures Run(views, bits, ops) && Idle(views[|ops|], BOOKKEEP, bits[|ops|]) && !Idle(views[0], BOOKKEEP, bits[|ops|])
  {
    var a := View([Entry(early, usage)], 4);
    var b := View([Entry(late, usage)], 4);
    views, ops, bits := [a, b], [AddOp(late, usage, 0)], [{}, {late.id}];
    IsLaterInWindow(late, early);
    assert Step(a, b, ops[0], {}, {late.id});
    assert Run(views, bits, ops);
    assert a.entries[0].fence.id !in {late.id};
  }
}
