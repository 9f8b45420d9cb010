/** The k-way merge of unwrapped fences (dma-fence-unwrap.c, __dma_fence_unwrap_merge). */
module FenceMerge {
  import opened Fences
  import opened FenceUnwrap
  import opened Lists

  /** NULL, the signaled stub, a single fence, or an array fence that waits for all. */
  datatype MergeResult = NoMemory | Stub | Single(fence: Fence) | AllOf(fences: seq<Fence>)

  function Parts(r: MergeResult): (result: seq<Fence>) {
    match r
    case Single(f) => [f]
    case AllOf(fs) => fs
    case _ => []
  }

  // ---------------------------------------------------------------- inputs

  ghost predicate IsInput(f: Fence, inputs: seq<Input>) {
    exists i :: 0 <= i < |inputs| && IsLeaf(f, inputs[i])
  }

  ghost predicate AllInWindow(inputs: seq<Input>) {
    forall f, g :: IsInput(f, inputs) && IsInput(g, inputs) ==> InWindow(f, g)
  }

  ghost predicate LeafAt(input: Input, m: int, k: int) {
    0 <= m < |input| && 0 <= k < |input[m].leaves|
  }

  /** The contexts of the leaves strictly increase along the iteration. */
  ghost predicate ContextsIncrease(input: Input) {
    forall m, k, n, l :: LeafAt(input, m, k) && LeafAt(input, n, l) && (m < n || (m == n && k < l))
      ==> input[m].leaves[k].context < input[n].leaves[l].context
  }

  ghost predicate OneFencePerContext(fences: seq<Fence>) {
    forall a, b :: 0 <= a < b < |fences| ==> fences[a].context < fences[b].context
  }

  // -------------------------------------------------------------- coverage

  ghost predicate NotEarlier(l: Fence, r: Fence) {
    l.context == r.context && l.position <= r.position
  }

  ghost predicate InPool(r: Fence, inputs: seq<Input>, heads: seq<Option<Fence>>, out: seq<Fence>, bits: set<nat>) {
    r in out || Some(r) in heads || (r.id in bits && IsInput(r, inputs))
  }

  /** In the pool, whatever becomes of head i. */
  ghost predicate InPoolWithout(i: nat, r: Fence, inputs: seq<Input>, heads: seq<Option<Fence>>, out: seq<Fence>,
                                bits: set<nat>) {
    || r in out
    || (exists j :: 0 <= j < |heads| && j != i && heads[j] == Some(r))
    || (r.id in bits && IsInput(r, inputs))
  }

  ghost predicate Covered(l: Fence, inputs: seq<Input>, heads: seq<Option<Fence>>, out: seq<Fence>, bits: set<nat>) {
    exists r :: NotEarlier(l, r) && InPool(r, inputs, heads, out, bits)
  }

  /** The chain walk has passed the member over because it has signalled; it does not ask about
      the head. */
  predicate PassedOver(input: Input, m: nat, bits: set<nat>)
    requires m < |input|
  {
    m > 0 && input[m].fence in bits
  }

  /** Every leaf an iterator has passed is covered, or was in a member that has signalled. */
  ghost predicate PassedAreCovered(inputs: seq<Input>, iter: seq<Cursor>, heads: seq<Option<Fence>>,
                                   out: seq<Fence>, bits: set<nat>)
    requires |iter| == |inputs|
  {
    forall i, m, k :: 0 <= i < |inputs| && LeafAt(inputs[i], m, k) && Before(m, k, iter[i])
      ==> PassedOver(inputs[i], m, bits) || Covered(inputs[i][m].leaves[k], inputs, heads, out, bits)
  }

  /** What the merge promises of every input leaf: it or a later fence of its timeline is in
      the result or has signalled, or the array that held it, behind the head, has. */
  ghost predicate Settled(inputs: seq<Input>, result: seq<Fence>, bits: set<nat>) {
    forall i, m, k :: 0 <= i < |inputs| && LeafAt(inputs[i], m, k)
      ==> PassedOver(inputs[i], m, bits) || Covered(inputs[i][m].leaves[k], inputs, [], result, bits)
  }

  // ------------------------------------------------------------ loop state

  ghost function LeavesLeftIn(inputs: seq<Input>, iter: seq<Cursor>): (r: seq<nat>)
    requires |iter| == |inputs|
  {
    seq(|inputs|, i requires 0 <= i < |inputs| => LeavesLeft(inputs[i], iter[i]))
  }

  ghost function UnsignaledIn(inputs: seq<Input>, iter: seq<Cursor>, bits: set<nat>): (r: seq<nat>)
    requires |iter| == |inputs|
  {
    seq(|inputs|, i requires 0 <= i < |inputs| => UnsignaledLeft(inputs[i], iter[i], bits))
  }

  /** What the second pass starts from: the fences that had signalled when the first pass
      ended, the slots it allocated, and which of its two promises the inputs allow. */
  datatype Plan = Plan(early: set<nat>, room: nat, windowed: bool, ordered: bool)

  ghost predicate PlanFits(plan: Plan, inputs: seq<Input>) {
    && (plan.windowed ==> AllInWindow(inputs))
    && (plan.ordered ==> forall i :: 0 <= i < |inputs| ==> ContextsIncrease(inputs[i]))
  }

  /** inputs is what the iterations over all can get to, and arrays without children have
      signalled or never will. */
  ghost predicate Underway(all: seq<Input>, inputs: seq<Input>, never: set<nat>, bits: set<nat>) {
    && |all| == |inputs| && bits !! never
    && forall i :: 0 <= i < |all| ==> inputs[i] == Reach(all[i], never) && Decided(all[i], never, bits)
  }

  function Reaches(all: seq<Input>, never: set<nat>): (inputs: seq<Input>)
    ensures |inputs| == |all| && forall i :: 0 <= i < |all| ==> inputs[i] == Reach(all[i], never)
  {
    seq(|all|, i requires 0 <= i < |all| => Reach(all[i], never))
  }

  lemma StaysUnderway(all: seq<Input>, inputs: seq<Input>, never: set<nat>, bits: set<nat>, bits': set<nat>)
    requires Underway(all, inputs, never, bits) && bits <= bits' && bits' !! never
    ensures Underway(all, inputs, never, bits')
  {
  }

  ghost predicate Cursors(inputs: seq<Input>, iter: seq<Cursor>, heads: seq<Option<Fence>>) {
    && |iter| == |heads| == |inputs|
    && forall i :: 0 <= i < |inputs| ==> ValidCursor(inputs[i], iter[i]) && heads[i] == Current(inputs[i], iter[i])
  }

  ghost predicate AllInputs(fences: seq<Fence>, inputs: seq<Input>) {
    forall f :: f in fences ==> IsInput(f, inputs)
  }

  predicate NoneOf(fences: seq<Fence>, bits: set<nat>) {
    forall f :: f in fences ==> f.id !in bits
  }

  ghost predicate MergeInv(inputs: seq<Input>, iter: seq<Cursor>, heads: seq<Option<Fence>>,
                           out: seq<Fence>, bits: set<nat>, plan: Plan)
  {
    && Cursors(inputs, iter, heads)
    && AllInputs(out, inputs) && NoneOf(out, plan.early)
    && plan.early <= bits
    && |out| + Sum(UnsignaledIn(inputs, iter, plan.early)) <= plan.room
    && (plan.windowed ==> PassedAreCovered(inputs, iter, heads, out, bits))
    && (plan.ordered ==> OneFencePerContext(out) && HeadsFollow(heads, out))
  }

  ghost predicate HeadsFollow(heads: seq<Option<Fence>>, out: seq<Fence>) {
    forall f, i :: f in out && 0 <= i < |heads| && heads[i].Some? ==> f.context < heads[i].value.context
  }

  lemma HeadIsInput(inputs: seq<Input>, i: nat, c: Cursor)
    requires i < |inputs| && Current(inputs[i], c).Some?
    ensures IsInput(Current(inputs[i], c).value, inputs)
  {
    assert inputs[i][c.chain].leaves[c.index] == Current(inputs[i], c).value;
    assert IsLeaf(Current(inputs[i], c).value, inputs[i]);
  }

  /** Signals alone keep the invariant. */
  lemma SignalsKeepInv(inputs: seq<Input>, iter: seq<Cursor>, heads: seq<Option<Fence>>,
                       out: seq<Fence>, bits: set<nat>, bits': set<nat>, plan: Plan)
    requires PlanFits(plan, inputs)
    requires MergeInv(inputs, iter, heads, out, bits, plan) && bits <= bits'
    ensures MergeInv(inputs, iter, heads, out, bits', plan)
  {
    if plan.windowed {
      forall i, m, k | 0 <= i < |inputs| && LeafAt(inputs[i], m, k) && Before(m, k, iter[i])
        && !PassedOver(inputs[i], m, bits')
        ensures Covered(inputs[i][m].leaves[k], inputs, heads, out, bits')
      {
        var r :| NotEarlier(inputs[i][m].leaves[k], r) && InPool(r, inputs, heads, out, bits);
        assert InPool(r, inputs, heads, out, bits');
      }
    }
  }

  /** Moving iterator i off its head h keeps every passed leaf covered, as long as something
      in the new pool is not earlier than h. */
  lemma AdvanceKeepsCoverage(inputs: seq<Input>, iter: seq<Cursor>, heads: seq<Option<Fence>>,
                             out: seq<Fence>, bits: set<nat>, i: nat, next: Cursor,
                             out': seq<Fence>, bits': set<nat>, cover: Fence)
    requires |iter| == |heads| == |inputs| && i < |inputs|
    requires PassedAreCovered(inputs, iter, heads, out, bits)
    requires IsStep(inputs[i], iter[i], next, {}) && ValidCursor(inputs[i], iter[i])
    requires heads[i] == Current(inputs[i], iter[i])
    requires forall j :: iter[i].chain < j < next.chain ==> inputs[i][j].fence in bits'
    requires bits <= bits' && (forall f :: f in out ==> f in out')
    requires NotEarlier(heads[i].value, cover)
    requires InPool(cover, inputs, heads[i := Current(inputs[i], next)], out', bits')
    ensures PassedAreCovered(inputs, iter[i := next], heads[i := Current(inputs[i], next)], out', bits')
  {
    var heads', iter' := heads[i := Current(inputs[i], next)], iter[i := next];
    forall j, m, k | 0 <= j < |inputs| && LeafAt(inputs[j], m, k) && Before(m, k, iter'[j])
      && !PassedOver(inputs[j], m, bits')
      ensures Covered(inputs[j][m].leaves[k], inputs, heads', out', bits')
    {
      var l := inputs[j][m].leaves[k];
      if Before(m, k, iter[j]) {
        var r :| NotEarlier(l, r) && InPool(r, inputs, heads, out, bits);
        if Some(r) in heads && r != heads[i].value {
          var a :| 0 <= a < |heads| && heads[a] == Some(r);
          assert heads'[a] == Some(r);
        }
        if r == heads[i].value {
          assert NotEarlier(l, cover);
        } else {
          assert InPool(r, inputs, heads', out', bits');
        }
      } else {
        assert j == i && l == heads[i].value;
      }
    }
  }

  /** The rest of the invariant, for one step of iterator i that adds at most its own head. */
  lemma AdvanceKeepsInv(inputs: seq<Input>, iter: seq<Cursor>, heads: seq<Option<Fence>>,
                        out: seq<Fence>, bits: set<nat>, i: nat, next: Cursor,
                        out': seq<Fence>, bits': set<nat>, cover: Fence, plan: Plan)
    requires PlanFits(plan, inputs)
    requires MergeInv(inputs, iter, heads, out, bits, plan)
    requires i < |inputs| && heads[i].Some?
    requires IsStep(inputs[i], iter[i], next, plan.early)
    requires forall j :: iter[i].chain < j < next.chain ==> inputs[i][j].fence in bits'
    requires bits <= bits'
    requires out' == out || (out' == out + [heads[i].value] && heads[i].value.id !in plan.early
                             && forall j :: 0 <= j < |heads| && j != i && heads[j].Some?
                                  ==> heads[i].value.context < heads[j].value.context)
    requires plan.windowed ==> NotEarlier(heads[i].value, cover)
                                     && InPool(cover, inputs, heads[i := Current(inputs[i], next)], out', bits')
    ensures MergeInv(inputs, iter[i := next], heads[i := Current(inputs[i], next)], out', bits', plan)
    ensures Sum(LeavesLeftIn(inputs, iter[i := next])) < Sum(LeavesLeftIn(inputs, iter))
  {
    HeadIsInput(inputs, i, iter[i]);
    if plan.windowed {
      AdvanceKeepsCoverage(inputs, iter, heads, out, bits, i, next, out', bits', cover);
    }
    AdvanceShrinks(inputs, iter, i, next, plan.early);
    if plan.ordered {
      AdvanceKeepsOrder(inputs, iter, heads, out, i, next, out');
    }
  }

  lemma AdvanceShrinks(inputs: seq<Input>, iter: seq<Cursor>, i: nat, next: Cursor, early: set<nat>)
    requires |iter| == |inputs| && i < |inputs| && ValidCursor(inputs[i], iter[i])
    requires IsStep(inputs[i], iter[i], next, early)
    ensures Sum(LeavesLeftIn(inputs, iter[i := next])) < Sum(LeavesLeftIn(inputs, iter))
    ensures Sum(UnsignaledIn(inputs, iter[i := next], early))
          + (if Current(inputs[i], iter[i]).value.id in early then 0 else 1)
         <= Sum(UnsignaledIn(inputs, iter, early))
  {
    StepShrinks(inputs[i], iter[i], next, early);
    var xs, us := LeavesLeftIn(inputs, iter), UnsignaledIn(inputs, iter, early);
    SumUpdate(xs, i, LeavesLeft(inputs[i], next));
    assert LeavesLeftIn(inputs, iter[i := next]) == xs[i := LeavesLeft(inputs[i], next)];
    SumUpdate(us, i, UnsignaledLeft(inputs[i], next, early));
    assert UnsignaledIn(inputs, iter[i := next], early) == us[i := UnsignaledLeft(inputs[i], next, early)];
  }

  lemma AdvanceKeepsOrder(inputs: seq<Input>, iter: seq<Cursor>, heads: seq<Option<Fence>>,
                          out: seq<Fence>, i: nat, next: Cursor, out': seq<Fence>)
    requires |iter| == |heads| == |inputs| && i < |inputs|
    requires ContextsIncrease(inputs[i]) && ValidCursor(inputs[i], iter[i])
    requires heads[i] == Current(inputs[i], iter[i]) && IsStep(inputs[i], iter[i], next, {})
    requires OneFencePerContext(out) && HeadsFollow(heads, out)
    requires out' == out || (out' == out + [heads[i].value]
                             && forall j :: 0 <= j < |heads| && j != i && heads[j].Some?
                                  ==> heads[i].value.context < heads[j].value.context)
    ensures OneFencePerContext(out') && HeadsFollow(heads[i := Current(inputs[i], next)], out')
  {
    if next.chain < |inputs[i]| {
      assert LeafAt(inputs[i], iter[i].chain, iter[i].index) && LeafAt(inputs[i], next.chain, next.index);
      assert heads[i].value.context < Current(inputs[i], next).value.context;
    }
    forall a, b | 0 <= a < b < |out'|
      ensures out'[a].context < out'[b].context
    {
      assert out'[a] in out;
    }
  }

  // --------------------------------------------------------------- methods

  ghost function Starts(n: nat): (r: seq<Cursor>) {
    seq(n, _ => Cursor(0, 0))
  }

  /** An iteration can get to a leaf that has not signalled. */
  ghost predicate HasUnsignaled(inputs: seq<Input>, bits: set<nat>) {
    exists i, f: Fence :: 0 <= i < |inputs| && IsLeaf(f, inputs[i]) && f.id !in bits
  }

  /** The first pass: counts what it finds unsignaled, which is at least what is unsignaled
      when it ends. */
  method CountPass(all: seq<Input>, sig: Signals, ghost inputs: seq<Input>) returns (count: nat)
    requires Underway(all, inputs, sig.never, sig.bits)
    modifies sig
    ensures old(sig.bits) <= sig.bits && Underway(all, inputs, sig.never, sig.bits)
    ensures Sum(UnsignaledIn(inputs, Starts(|inputs|), sig.bits)) <= count
    ensures count > 0 ==> HasUnsignaled(inputs, old(sig.bits))
  {
    count := 0;
    for i := 0 to |all|
      invariant count > 0 ==> HasUnsignaled(inputs, old(sig.bits))
      invariant old(sig.bits) <= sig.bits && Underway(all, inputs, sig.never, sig.bits)
      invariant forall later: set<nat> :: sig.bits <= later ==>
        Sum(UnsignaledIn(inputs[..i], Starts(i), later)) <= count
    {
      ghost var bits := sig.bits;
      var more := CountInput(all[i], sig, inputs[i]);
      StaysUnderway(all, inputs, sig.never, bits, sig.bits);
      forall later: set<nat> | sig.bits <= later
        ensures Sum(UnsignaledIn(inputs[..i + 1], Starts(i + 1), later)) <= count + more
      {
        var us := UnsignaledIn(inputs[..i], Starts(i), later);
        SumAppend(us, UnsignaledLeft(inputs[i], Cursor(0, 0), later));
        assert UnsignaledIn(inputs[..i + 1], Starts(i + 1), later)
            == us + [UnsignaledLeft(inputs[i], Cursor(0, 0), later)];
      }
      count := count + more;
    }
    assert inputs[..|inputs|] == inputs;
  }

  method CountInput(one: Input, sig: Signals, ghost input: Input) returns (count: nat)
    requires sig.Ok() && Decided(one, sig.never, sig.bits) && input == Reach(one, sig.never)
    modifies sig
    ensures old(sig.bits) <= sig.bits && sig.Ok()
    ensures forall later: set<nat> :: sig.bits <= later ==> UnsignaledLeft(input, Cursor(0, 0), later) <= count
    ensures count > 0 ==> exists f: Fence :: IsLeaf(f, input) && f.id !in old(sig.bits)
  {
    count := 0;
    var c, f := UnwrapFirst(one, sig.never);
    while f.Some?
      invariant old(sig.bits) <= sig.bits && sig.Ok()
      invariant ValidCursor(input, c) && f == Current(input, c)
      invariant count > 0 ==> exists f: Fence :: IsLeaf(f, input) && f.id !in old(sig.bits)
      invariant forall later: set<nat> :: sig.bits <= later ==>
        UnsignaledLeft(input, Cursor(0, 0), later) <= count + UnsignaledLeft(input, c, later)
      decreases LeavesLeft(input, c)
    {
      var signaled := sig.IsSignaled(f.value.id);
      if !signaled {
        assert IsLeaf(input[c.chain].leaves[c.index], input);
        count := count + 1;
      }
      ghost var from := c;
      c, f := UnwrapNext(one, c, sig);
      StepShrinks(input, from, c, {});
      forall later: set<nat> | sig.bits <= later
        ensures UnsignaledLeft(input, Cursor(0, 0), later) <= count + UnsignaledLeft(input, c, later)
      {
        StepLosesOnlyItsLeaf(input, from, c, later);
      }
    }
  }

  /** fences[i] = dma_fence_unwrap_next(&iter[i]) for a head that something not earlier covers. */
  method Advance(all: seq<Input>, ghost inputs: seq<Input>, iter: array<Cursor>, fences: array<Option<Fence>>, i: nat,
                 sig: Signals, ghost out: seq<Fence>, ghost cover: Fence, ghost plan: Plan)
    requires PlanFits(plan, inputs) && Underway(all, inputs, sig.never, sig.bits)
    requires MergeInv(inputs, iter[..], fences[..], out, sig.bits, plan)
    requires i < |inputs| && fences[i].Some?
    requires plan.windowed ==> NotEarlier(fences[i].value, cover)
    requires plan.windowed ==> InPoolWithout(i, cover, inputs, fences[..], out, sig.bits)
    modifies iter, fences, sig
    ensures old(sig.bits) <= sig.bits && Underway(all, inputs, sig.never, sig.bits)
    ensures MergeInv(inputs, iter[..], fences[..], out, sig.bits, plan)
    ensures Sum(LeavesLeftIn(inputs, iter[..])) < Sum(LeavesLeftIn(inputs, old(iter[..])))
    ensures forall j :: 0 <= j < |inputs| && j != i ==> fences[j] == old(fences[j])
  {
    ghost var heads0, iter0, bits0 := fences[..], iter[..], sig.bits;
    var next, f := UnwrapNext(all[i], iter[i], sig);
    if plan.windowed && !(cover in out || cover.id in bits0) {
      var j :| 0 <= j < |heads0| && j != i && heads0[j] == Some(cover);
      assert heads0[i := f][j] == Some(cover);
    }
    AdvanceKeepsInv(inputs, iter0, heads0, out, bits0, i, next, out, sig.bits, cover, plan);
    fences[i] := f;
    iter[i] := next;
    assert fences[..] == heads0[i := f] && iter[..] == iter0[i := next];
  }

  /** Drop the signaled fences at the head of input i. */
  method SkipSignaled(all: seq<Input>, ghost inputs: seq<Input>, iter: array<Cursor>, fences: array<Option<Fence>>,
                      i: nat, sig: Signals, ghost out: seq<Fence>, ghost plan: Plan)
    requires PlanFits(plan, inputs) && Underway(all, inputs, sig.never, sig.bits)
    requires MergeInv(inputs, iter[..], fences[..], out, sig.bits, plan)
    requires i < |inputs|
    modifies iter, fences, sig
    ensures old(sig.bits) <= sig.bits && Underway(all, inputs, sig.never, sig.bits)
    ensures MergeInv(inputs, iter[..], fences[..], out, sig.bits, plan)
    ensures Sum(LeavesLeftIn(inputs, iter[..])) <= Sum(LeavesLeftIn(inputs, old(iter[..])))
    ensures forall j :: 0 <= j < |inputs| && j != i ==> fences[j] == old(fences[j])
    ensures fences[i].Some? ==> fences[i].value.id !in plan.early
  {
    while fences[i].Some?
      invariant old(sig.bits) <= sig.bits && Underway(all, inputs, sig.never, sig.bits)
      invariant MergeInv(inputs, iter[..], fences[..], out, sig.bits, plan)
      invariant Sum(LeavesLeftIn(inputs, iter[..])) <= Sum(LeavesLeftIn(inputs, old(iter[..])))
      invariant forall j :: 0 <= j < |inputs| && j != i ==> fences[j] == old(fences[j])
      decreases Sum(LeavesLeftIn(inputs, iter[..]))
    {
      ghost var bits0 := sig.bits;
      var signaled := sig.IsSignaled(fences[i].value.id);
      SignalsKeepInv(inputs, iter[..], fences[..], out, bits0, sig.bits, plan);
      if !signaled {
        return;
      }
      ghost var head := fences[i].value;
      HeadIsInput(inputs, i, iter[i]);
      Advance(all, inputs, iter, fences, i, sig, out, head, plan);
    }
  }

  /** Of two heads of one context the earlier one gives way. */
  method DropEarlier(all: seq<Input>, ghost inputs: seq<Input>, iter: array<Cursor>, fences: array<Option<Fence>>,
                     sel: nat, i: nat, sig: Signals, ghost out: seq<Fence>, ghost plan: Plan)
    requires PlanFits(plan, inputs) && Underway(all, inputs, sig.never, sig.bits)
    requires MergeInv(inputs, iter[..], fences[..], out, sig.bits, plan)
    requires sel < i < |inputs| && fences[sel].Some? && fences[i].Some?
    requires fences[sel].value.context == fences[i].value.context
    modifies iter, fences, sig
    ensures old(sig.bits) <= sig.bits && Underway(all, inputs, sig.never, sig.bits)
    ensures MergeInv(inputs, iter[..], fences[..], out, sig.bits, plan)
    ensures Sum(LeavesLeftIn(inputs, iter[..])) < Sum(LeavesLeftIn(inputs, old(iter[..])))
  {
    var tmp, next := fences[sel].value, fences[i].value;
    HeadIsInput(inputs, i, iter[i]);
    HeadIsInput(inputs, sel, iter[sel]);
    if plan.windowed {
      IsLaterInWindow(tmp, next);
    }
    if IsLater(tmp, next) {
      Advance(all, inputs, iter, fences, i, sig, out, tmp, plan);
    } else {
      Advance(all, inputs, iter, fences, sel, sig, out, next, plan);
    }
  }

  /** One scan over the heads. It ends with the unique head of lowest context, or has dropped
      the earlier of two heads of one context, after which the scan starts again. */
  method Scan(all: seq<Input>, ghost inputs: seq<Input>, iter: array<Cursor>, fences: array<Option<Fence>>,
              sig: Signals, ghost out: seq<Fence>, ghost plan: Plan)
    returns (tmp: Option<Fence>, sel: nat, restart: bool)
    requires PlanFits(plan, inputs) && Underway(all, inputs, sig.never, sig.bits)
    requires MergeInv(inputs, iter[..], fences[..], out, sig.bits, plan)
    modifies iter, fences, sig
    ensures old(sig.bits) <= sig.bits && Underway(all, inputs, sig.never, sig.bits)
    ensures MergeInv(inputs, iter[..], fences[..], out, sig.bits, plan)
    ensures Sum(LeavesLeftIn(inputs, iter[..])) <= Sum(LeavesLeftIn(inputs, old(iter[..])))
    ensures restart ==> Sum(LeavesLeftIn(inputs, iter[..])) < Sum(LeavesLeftIn(inputs, old(iter[..])))
    ensures !restart && tmp.None? ==> forall j :: 0 <= j < |inputs| ==> fences[j].None?
    ensures !restart && tmp.Some? ==> LowestHead(fences[..], tmp, sel) && tmp.value.id !in plan.early
  {
    hide PassedAreCovered, AllInputs, HeadsFollow, OneFencePerContext, PlanFits, UnsignaledIn, LeavesLeftIn, Sum;
    tmp, sel, restart := None, 0, false;
    var i := 0;
    while i < |all|
      invariant 0 <= i <= |inputs|
      invariant old(sig.bits) <= sig.bits && Underway(all, inputs, sig.never, sig.bits)
      invariant MergeInv(inputs, iter[..], fences[..], out, sig.bits, plan)
      invariant Sum(LeavesLeftIn(inputs, iter[..])) <= Sum(LeavesLeftIn(inputs, old(iter[..])))
      invariant tmp.None? ==> forall j :: 0 <= j < i ==> fences[j].None?
      invariant tmp.Some? ==> sel < i && LowestHead(fences[..i], tmp, sel) && tmp.value.id !in plan.early
    {
      ghost var heads0 := fences[..i];
      SkipSignaled(all, inputs, iter, fences, i, sig, out, plan);
      assert fences[..i] == heads0;
      var next := fences[i];
      if next.Some? {
        if tmp.None? || tmp.value.context > next.value.context {
          tmp, sel := next, i;
        } else if tmp.value.context == next.value.context {
          DropEarlier(all, inputs, iter, fences, sel, i, sig, out, plan);
          restart := true;
          return;
        }
      }
      i := i + 1;
      assert fences[..i] == heads0 + [next];
    }
    assert fences[..|inputs|] == fences[..];
  }

  ghost predicate LowestHead(heads: seq<Option<Fence>>, tmp: Option<Fence>, sel: nat) {
    && tmp.Some? && sel < |heads| && heads[sel] == tmp
    && forall j :: 0 <= j < |heads| && j != sel && heads[j].Some? ==> tmp.value.context < heads[j].value.context
  }

  /** array[count++] = tmp, and on to the next fence of its input. */
  method Emit(all: seq<Input>, ghost inputs: seq<Input>, iter: array<Cursor>, fences: array<Option<Fence>>,
              merged: array<Fence>, count: nat, sel: nat, sig: Signals, ghost plan: Plan) returns (count': nat)
    requires PlanFits(plan, inputs) && Underway(all, inputs, sig.never, sig.bits) && count <= plan.room == merged.Length
    requires MergeInv(inputs, iter[..], fences[..], merged[..count], sig.bits, plan)
    requires sel < |inputs| && LowestHead(fences[..], fences[sel], sel) && fences[sel].value.id !in plan.early
    modifies iter, fences, merged, sig
    ensures old(sig.bits) <= sig.bits && Underway(all, inputs, sig.never, sig.bits)
    ensures count' == count + 1 <= merged.Length
    ensures MergeInv(inputs, iter[..], fences[..], merged[..count'], sig.bits, plan)
    ensures Sum(LeavesLeftIn(inputs, iter[..])) < Sum(LeavesLeftIn(inputs, old(iter[..])))
  {
    ghost var out, heads0, iter0, bits0 := merged[..count], fences[..], iter[..], sig.bits;
    RoomForOne(inputs, iter[..], sel, plan.early);
    var tmp := fences[sel].value;
    merged[count] := tmp;
    count' := count + 1;
    assert merged[..count'] == out + [tmp];
    var next, f := UnwrapNext(all[sel], iter[sel], sig);
    AdvanceKeepsInv(inputs, iter0, heads0, out, bits0, sel, next, out + [tmp], sig.bits, tmp, plan);
    fences[sel] := f;
    iter[sel] := next;
    assert fences[..] == heads0[sel := f] && iter[..] == iter0[sel := next];
  }

  /** __dma_fence_unwrap_merge. The result is made of input leaves, settles every one of them,
      and has one fence per context, in order, when every input is ordered by context. It fits
      the array that the first pass sized: every write below is checked against it. */
  method Merge(all: seq<Input>, sig: Signals, gotMemory: bool) returns (r: MergeResult)
    requires sig.Ok() && forall i :: 0 <= i < |all| ==> Decided(all[i], sig.never, sig.bits)
    modifies sig
    ensures old(sig.bits) <= sig.bits
    ensures var inputs := Reaches(all, sig.never);
            && (forall f :: f in Parts(r) ==> IsInput(f, inputs))
            && (!r.NoMemory? && AllInWindow(inputs) ==> Settled(inputs, Parts(r), sig.bits))
            && ((forall i :: 0 <= i < |inputs| ==> ContextsIncrease(inputs[i])) ==> OneFencePerContext(Parts(r)))
    ensures r.AllOf? ==> |r.fences| > 1
    ensures r.NoMemory? ==> !gotMemory && HasUnsignaled(Reaches(all, sig.never), old(sig.bits))
    ensures !gotMemory ==> r.NoMemory? || r.Stub?
    ensures !HasUnsignaled(Reaches(all, sig.never), old(sig.bits)) ==> r.Stub?
    ensures NoneOf(Parts(r), old(sig.bits))
  {
    ghost var inputs := Reaches(all, sig.never);
    var size := CountPass(all, sig, inputs);
    ghost var early := sig.bits;
    if size == 0 {
      HeadsHaveLeaves(all, inputs, sig.never);
      NothingLeft(inputs, early);
      return Stub;
    }
    if !gotMemory {
      return NoMemory;
    }
    ghost var plan := Plan(early, size, AllInWindow(inputs),
                           forall i :: 0 <= i < |inputs| ==> ContextsIncrease(inputs[i]));
    hide Settled, AllInWindow, ContextsIncrease, OneFencePerContext, UnsignaledIn, Underway;
    var merged := SecondPass(all, inputs, size, sig, plan);
    r := Wrap(merged);
  }

  /** The stub, the only fence, or an array over all of them. */
  function Wrap(fences: seq<Fence>): (r: MergeResult)
    ensures Parts(r) == fences && !r.NoMemory? && (r.AllOf? ==> |r.fences| > 1)
  {
    if fences == [] then Stub else if |fences| == 1 then Single(fences[0]) else AllOf(fences)
  }

  lemma HeadsHaveLeaves(all: seq<Input>, inputs: seq<Input>, never: set<nat>)
    requires inputs == Reaches(all, never)
    ensures forall i :: 0 <= i < |inputs| && inputs[i] != [] ==> inputs[i][0].leaves != []
  {
    forall i | 0 <= i < |inputs| && inputs[i] != []
      ensures inputs[i][0].leaves != []
    {
      assert !Ends(all[i], 0, never);
    }
  }

  /** The merge loop: array, position by position. */
  method SecondPass(all: seq<Input>, ghost inputs: seq<Input>, size: nat, sig: Signals, ghost plan: Plan)
    returns (out: seq<Fence>)
    requires PlanFits(plan, inputs) && plan.early == sig.bits && plan.room == size
    requires Underway(all, inputs, sig.never, sig.bits)
    requires Sum(UnsignaledIn(inputs, Starts(|inputs|), sig.bits)) <= size
    modifies sig
    ensures old(sig.bits) <= sig.bits && |out| <= size && AllInputs(out, inputs) && NoneOf(out, plan.early)
    ensures plan.windowed ==> Settled(inputs, out, sig.bits)
    ensures plan.ordered ==> OneFencePerContext(out)
  {
    var merged := new Fence[size];
    var iter := new Cursor[|all|](_ => Cursor(0, 0));
    var fences := new Option<Fence>[|all|](i requires 0 <= i < |all| => Current(all[i], Cursor(0, 0)));
    assert iter[..] == Starts(|inputs|);
    FirstHeads(all, inputs, sig.never);
    var count := 0;
    var more := true;
    while more
      invariant old(sig.bits) <= sig.bits && Underway(all, inputs, sig.never, sig.bits)
      invariant count <= size
      invariant MergeInv(inputs, iter[..], fences[..], merged[..count], sig.bits, plan)
      invariant !more ==> forall j :: 0 <= j < |inputs| ==> fences[j].None?
      decreases more, Sum(LeavesLeftIn(inputs, iter[..]))
    {
      var tmp, sel, restart := Scan(all, inputs, iter, fences, sig, merged[..count], plan);
      if restart {
        continue;
      }
      if tmp.Some? {
        count := Emit(all, inputs, iter, fences, merged, count, sel, sig, plan);
      } else {
        more := false;
      }
    }
    AllPassed(inputs, iter[..], fences[..], merged[..count], sig.bits, plan);
    return merged[..count];
  }

  /** The first leaves, as dma_fence_unwrap_first finds them. */
  lemma FirstHeads(all: seq<Input>, inputs: seq<Input>, never: set<nat>)
    requires |inputs| == |all| && forall i :: 0 <= i < |all| ==> inputs[i] == Reach(all[i], never)
    ensures forall i :: 0 <= i < |all| ==>
              ValidCursor(inputs[i], Cursor(0, 0)) && Current(all[i], Cursor(0, 0)) == Current(inputs[i], Cursor(0, 0))
  {
    forall i | 0 <= i < |all|
      ensures ValidCursor(inputs[i], Cursor(0, 0)) && Current(all[i], Cursor(0, 0)) == Current(inputs[i], Cursor(0, 0))
    {
      assert inputs[i] != [] ==> !Ends(all[i], 0, never);
    }
  }

  /** An unsignaled head still has its slot. */
  lemma RoomForOne(inputs: seq<Input>, iter: seq<Cursor>, sel: nat, early: set<nat>)
    requires |iter| == |inputs| && sel < |inputs|
    requires Current(inputs[sel], iter[sel]).Some? && Current(inputs[sel], iter[sel]).value.id !in early
    ensures Sum(UnsignaledIn(inputs, iter, early)) > 0
  {
    SumIsAtLeast(UnsignaledIn(inputs, iter, early), sel);
    var c := iter[sel];
    assert inputs[sel][c.chain].leaves[c.index..][0] == Current(inputs[sel], c).value;
  }

  lemma AllPassed(inputs: seq<Input>, iter: seq<Cursor>, heads: seq<Option<Fence>>,
                  out: seq<Fence>, bits: set<nat>, plan: Plan)
    requires PlanFits(plan, inputs)
    requires MergeInv(inputs, iter, heads, out, bits, plan)
    requires forall j :: 0 <= j < |inputs| ==> heads[j].None?
    ensures plan.windowed ==> Settled(inputs, out, bits)
  {
    if plan.windowed {
      forall i, m, k | 0 <= i < |inputs| && LeafAt(inputs[i], m, k) && !PassedOver(inputs[i], m, bits)
        ensures Covered(inputs[i][m].leaves[k], inputs, [], out, bits)
      {
        assert Before(m, k, iter[i]);
        var r :| NotEarlier(inputs[i][m].leaves[k], r) && InPool(r, inputs, heads, out, bits);
        assert InPool(r, inputs, [], out, bits);
      }
    }
  }

  /** When the first pass counts nothing, everything has signalled. */
  lemma NothingLeft(inputs: seq<Input>, bits: set<nat>)
    requires forall i :: 0 <= i < |inputs| && inputs[i] != [] ==> inputs[i][0].leaves != []
    requires Sum(UnsignaledIn(inputs, Starts(|inputs|), bits)) == 0
    ensures Settled(inputs, [], bits)
  {
    forall i, m, k | 0 <= i < |inputs| && LeafAt(inputs[i], m, k) && !PassedOver(inputs[i], m, bits)
      ensures Covered(inputs[i][m].leaves[k], inputs, [], [], bits)
    {
      SumIsAtLeast(UnsignaledIn(inputs, Starts(|inputs|), bits), i);
      var input := inputs[i];
      assert input[0].leaves[0..] == input[0].leaves;
      if m > 0 {
        UnsignaledFromShrinks(input, 1, m, bits);
      }
      NoneUnsignaled(input[m].leaves, k, bits);
      var l := input[m].leaves[k];
      assert IsLeaf(l, input);
      assert InPool(l, inputs, [], [], bits) && NotEarlier(l, l);
    }
  }

  lemma {:induction false} NoneUnsignaled(leaves: seq<Fence>, k: nat, bits: set<nat>)
    requires k < |leaves| && CountUnsignaled(leaves, bits) == 0
    ensures leaves[k].id in bits
  {
    if k > 0 {
      NoneUnsignaled(leaves[1..], k - 1, bits);
    }
  }
}
