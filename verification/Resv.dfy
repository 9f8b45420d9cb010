/** The fence table of a reservation object and its writers (dma-resv.c). All writers hold the
    object's lock; fences keep signalling meanwhile. */
module Resv {
  import opened Fences
  import opened FenceUnwrap
  import opened Powers

  /** What a fence is for; a query at a usage sees the fences of lower usages, too. */
  type Usage = u: nat | u <= 3

  const KERNEL: Usage := 0
  const WRITE: Usage := 1
  const READ: Usage := 2
  const BOOKKEEP: Usage := 3

  /** A slot: the fence, and the usage kept in the two low bits of its pointer. */
  datatype Entry = Entry(fence: Fence, usage: Usage)

  /** What readers can see of the object: the filled slots and the number of slots. */
  datatype View = View(entries: seq<Entry>, max: nat)

  // ------------------------------------------------------- sizes of tables

  /** The least power of two that is at least n, from 2^k on. */
  function RoundUpFrom(n: nat, k: nat): (p: nat)
    decreases if n > Pow2(k) then n - Pow2(k) else 0
  {
    if Pow2(k) >= n then Pow2(k) else RoundUpFrom(n, k + 1)
  }

  function RoundUp(n: nat): (r: nat) {
    RoundUpFrom(n, 0)
  }

  /** It is a power of two, at least n, and no smaller power of two is. */
  lemma {:induction false} RoundUpIsLeast(n: nat, k: nat, m: nat)
    requires k <= m && n <= Pow2(m)
    ensures n <= RoundUpFrom(n, k) <= Pow2(m)
    ensures exists j: nat :: k <= j <= m && RoundUpFrom(n, k) == Pow2(j)
    decreases m - k
  {
    Pow2Grows(k, m);
    if Pow2(k) < n {
      if k == m {
        assert false;
      }
      RoundUpIsLeast(n, k + 1, m);
      var j: nat :| k + 1 <= j <= m && RoundUpFrom(n, k + 1) == Pow2(j);
      assert k <= j <= m && RoundUpFrom(n, k) == Pow2(j);
    }
  }

  function Max(a: nat, b: nat): (r: nat) {
    if a < b then b else a
  }

  /** Whether the table is left alone; the sum is an unsigned int. */
  predicate HasRoom(a: View, n: nat) {
    a.max > 0 && (|a.entries| + n) % TWO_32 <= a.max
  }

  /** The number of slots a new table is asked to have, stored in an unsigned int. Rounding up
      zero is undefined, so nothing is known of that request. */
  function Requested(a: View, n: nat): (r: nat) {
    if a.max > 0 then Max((|a.entries| + n) % TWO_32, (2 * a.max) % TWO_32)
    else if n == 0 then 0
    else Max(4, RoundUp(n)) % TWO_32
  }

  /** The request for a new table fits an unsigned int. */
  predicate GrowsAsItShould(a: View, n: nat) {
    |a.entries| + n < TWO_32 && 2 * a.max < TWO_32 && (a.max == 0 ==> 0 < n <= TWO_31)
  }

  /** A new table has room for what was asked for and twice as many slots as before; the first has
      four. */
  predicate Grows(a: View, b: View, n: nat) {
    && b.max >= |a.entries| + n && b.max >= 2 * a.max && (a.max == 0 ==> b.max >= 4)
  }

  lemma RequestGrows(a: View, n: nat)
    requires GrowsAsItShould(a, n) && |a.entries| <= a.max
    ensures Grows(a, View([], Requested(a, n)), n)
  {
    if a.max == 0 {
      Pow2Values();
      RoundUpIsLeast(n, 0, 31);
    }
  }

  // ------------------------------------------------------ entries and usages

  function One(e: Entry, x: nat): (r: nat) {
    if e.fence.id == x then 1 else 0
  }

  /** The slots that point to fence x. */
  function Count(es: seq<Entry>, x: nat): (r: nat) {
    if es == [] then 0 else Count(es[..|es| - 1], x) + One(es[|es| - 1], x)
  }

  /** The references are exactly one for each slot. */
  ghost predicate Holds(refs: multiset<nat>, es: seq<Entry>) {
    forall x: nat :: refs[x] == Count(es, x)
  }

  lemma CountPush(es: seq<Entry>, e: Entry, x: nat)
    ensures Count(es + [e], x) == Count(es, x) + One(e, x)
  {
    assert (es + [e])[..|es|] == es;
  }

  lemma {:induction false} CountConcat(a: seq<Entry>, b: seq<Entry>, x: nat)
    ensures Count(a + b, x) == Count(a, x) + Count(b, x)
  {
    if b == [] {
      assert a + b == a;
    } else {
      CountConcat(a, b[..|b| - 1], x);
      assert (a + b)[..|a + b| - 1] == a + b[..|b| - 1];
    }
  }

  lemma {:induction false} CountSet(es: seq<Entry>, i: nat, e: Entry, x: nat)
    requires i < |es|
    ensures Count(es[i := e], x) + One(es[i], x) == Count(es, x) + One(e, x)
  {
    var last := |es| - 1;
    if i == last {
      assert es[i := e][..last] == es[..last];
    } else {
      CountSet(es[..last], i, e, x);
      assert es[i := e][..last] == es[..last][i := e];
    }
  }

  lemma HoldsOneMore(refs: multiset<nat>, es: seq<Entry>, e: Entry)
    requires Holds(refs, es)
    ensures Holds(refs + multiset{e.fence.id}, es + [e])
  {
    forall x: nat ensures (refs + multiset{e.fence.id})[x] == Count(es + [e], x) {
      CountPush(es, e, x);
    }
  }

  lemma HoldsOneLess(refs: multiset<nat>, es: seq<Entry>, e: Entry)
    requires Holds(refs, es + [e]) || Holds(refs, [e] + es)
    ensures e.fence.id in refs && Holds(refs - multiset{e.fence.id}, es)
  {
    CountOne(e);
    forall x: nat ensures refs[x] == Count(es, x) + One(e, x) {
      CountConcat(es, [e], x);
      CountConcat([e], es, x);
    }
    assert refs[e.fence.id] > 0;
  }

  lemma CountOne(e: Entry)
    ensures forall x: nat :: Count([e], x) == One(e, x)
  {
    forall x: nat ensures Count([e], x) == One(e, x) {
      CountPush([], e, x);
      assert [] + [e] == [e];
    }
  }

  /** Overwriting a slot: the new reference has been taken, the old one is dropped. */
  lemma HoldsSwap(refs: multiset<nat>, es: seq<Entry>, i: nat, e: Entry)
    requires i < |es| && Holds(refs, es + [e])
    ensures es[i].fence.id in refs && Holds(refs - multiset{es[i].fence.id}, es[i := e])
  {
    forall x: nat ensures refs[x] == Count(es[i := e], x) + One(es[i], x) {
      CountPush(es, e, x);
      CountSet(es, i, e, x);
    }
    assert refs[es[i].fence.id] > 0;
  }

  /** The entries found signaled stand behind max, the first one last, without their usages. */
  ghost predicate Behind(slots: seq<Entry>, max: nat, back: seq<Entry>) {
    && |back| <= max <= |slots|
    && forall m :: 0 <= m < |back| ==> slots[max - 1 - m].fence == back[m].fence
  }

  lemma BackAt(slots: seq<Entry>, max: nat, back: seq<Entry>, i: nat)
    requires Behind(slots, max, back) && max - |back| <= i < max
    ensures slots[i].fence == back[max - i - 1].fence
  {
    assert slots[max - 1 - (max - i - 1)].fence == back[max - i - 1].fence;
  }

  /** The entries with the given verdict, in order. */
  function Select(es: seq<Entry>, kept: seq<bool>, verdict: bool): (r: seq<Entry>)
    requires |kept| == |es|
  {
    if es == [] then []
    else Select(es[..|es| - 1], kept[..|es| - 1], verdict)
         + (if kept[|es| - 1] == verdict then [es[|es| - 1]] else [])
  }

  lemma SelectPush(es: seq<Entry>, kept: seq<bool>, e: Entry, keep: bool, verdict: bool)
    requires |kept| == |es|
    ensures Select(es + [e], kept + [keep], verdict)
         == Select(es, kept, verdict) + (if keep == verdict then [e] else [])
  {
    assert (es + [e])[..|es|] == es && (kept + [keep])[..|es|] == kept;
  }

  /** A split by verdicts loses nothing. */
  lemma {:induction false} SelectSplits(es: seq<Entry>, kept: seq<bool>)
    requires |kept| == |es|
    ensures |Select(es, kept, true)| + |Select(es, kept, false)| == |es|
    ensures forall x: nat :: Count(Select(es, kept, true) + Select(es, kept, false), x) == Count(es, x)
  {
    SelectLengths(es, kept);
    forall x: nat ensures Count(Select(es, kept, true) + Select(es, kept, false), x) == Count(es, x) {
      CountConcat(Select(es, kept, true), Select(es, kept, false), x);
      SelectCounts(es, kept, x);
    }
  }

  lemma {:induction false} SelectLengths(es: seq<Entry>, kept: seq<bool>)
    requires |kept| == |es|
    ensures |Select(es, kept, true)| + |Select(es, kept, false)| == |es|
  {
    if es != [] {
      SelectLengths(es[..|es| - 1], kept[..|es| - 1]);
    }
  }

  lemma {:induction false} SelectCounts(es: seq<Entry>, kept: seq<bool>, x: nat)
    requires |kept| == |es|
    ensures Count(Select(es, kept, true), x) + Count(Select(es, kept, false), x) == Count(es, x)
  {
    if es != [] {
      var last := |es| - 1;
      SelectCounts(es[..last], kept[..last], x);
      CountPush(Select(es[..last], kept[..last], kept[last]), es[last], x);
      assert Select(es, kept, !kept[last]) == Select(es[..last], kept[..last], !kept[last]);
    }
  }

  lemma {:induction false} SelectKeeps(es: seq<Entry>, kept: seq<bool>, i: nat)
    requires |kept| == |es| && i < |es| && kept[i]
    ensures es[i] in Select(es, kept, true)
  {
    if i < |es| - 1 {
      SelectKeeps(es[..|es| - 1], kept[..|es| - 1], i);
    }
  }

  /** Verdicts that tests found while the signaled bits grew from bits0 to bits1. */
  ghost predicate Verdicts(es: seq<Entry>, kept: seq<bool>, bits0: set<nat>, bits1: set<nat>) {
    && |kept| == |es|
    && forall i :: 0 <= i < |es| ==>
         (kept[i] ==> es[i].fence.id !in bits0) && (!kept[i] ==> es[i].fence.id in bits1)
  }

  lemma VerdictsPush(es: seq<Entry>, kept: seq<bool>, bits0: set<nat>, bits: set<nat>, bits1: set<nat>, e: Entry,
                     keep: bool)
    requires Verdicts(es, kept, bits0, bits) && bits0 <= bits <= bits1
    requires keep <==> e.fence.id !in bits1
    ensures Verdicts(es + [e], kept + [keep], bits0, bits1)
  {
  }

  /** The state of the two-ended fill: the two ends never meet. */
  ghost predicate Filled(es: seq<Entry>, kept: seq<bool>, slots: seq<Entry>, j: nat, k: nat, max: nat) {
    && |kept| == |es| && max <= |slots|
    && j == |Select(es, kept, true)| && k == max - |Select(es, kept, false)| && j <= k
    && slots[..j] == Select(es, kept, true)
    && Behind(slots, max, Select(es, kept, false))
  }

  lemma FilledFront(es: seq<Entry>, kept: seq<bool>, slots: seq<Entry>, j: nat, k: nat, max: nat, e: Entry)
    requires Filled(es, kept, slots, j, k, max) && |es| < max
    ensures j < k && Filled(es + [e], kept + [true], slots[j := e], j + 1, k, max)
  {
    SelectLengths(es, kept);
    SelectPush(es, kept, e, true, true);
    SelectPush(es, kept, e, true, false);
    assert slots[j := e][..j + 1] == slots[..j] + [e];
  }

  lemma FilledBack(es: seq<Entry>, kept: seq<bool>, slots: seq<Entry>, j: nat, k: nat, max: nat, e: Entry)
    requires Filled(es, kept, slots, j, k, max) && |es| < max
    ensures j < k && Filled(es + [e], kept + [false], slots[k - 1 := Entry(e.fence, KERNEL)], j, k - 1, max)
  {
    SelectLengths(es, kept);
    SelectPush(es, kept, e, false, true);
    SelectPush(es, kept, e, false, false);
    assert slots[k - 1 := Entry(e.fence, KERNEL)][..j] == slots[..j];
  }

  /** What a successful dma_resv_reserve_fences does: nothing if there is room, otherwise a
      new table that keeps the entries found unsignaled, with their usages and in order. */
  ghost predicate Reserved(a: View, b: View, n: nat, kept: seq<bool>, bits0: set<nat>, bits1: set<nat>) {
    if HasRoom(a, n) then b == a
    else
      && Verdicts(a.entries, kept, bits0, bits1) && b.entries == Select(a.entries, kept, true)
      && b.max >= Requested(a, n)
  }

  /** A slot that dma_resv_add_fence takes although its fence has not signalled. */
  predicate Supersedes(f: Fence, usage: Usage, e: Entry) {
    e.fence.context == f.context && e.usage >= usage && IsLater(f, e.fence)
  }

  /** What dma_resv_add_fence does: the new entry goes to slot i, the first one that it
      supersedes or that was found signaled, or behind the last one. */
  ghost predicate Added(a: View, b: View, f: Fence, usage: Usage, i: nat, bits0: set<nat>, bits1: set<nat>) {
    && i <= |a.entries|
    && (forall k :: 0 <= k < i ==> !Supersedes(f, usage, a.entries[k]) && a.entries[k].fence.id !in bits0)
    && (i < |a.entries| ==> Supersedes(f, usage, a.entries[i]) || a.entries[i].fence.id in bits1)
    && b.entries == (if i < |a.entries| then a.entries[i := Entry(f, usage)] else a.entries + [Entry(f, usage)])
    && b.max == a.max
  }

  /** An entry that a fence can take the place of: an earlier one of its context, which no reader
      of a more binding usage waits for. */
  predicate IsWeaker(f: Fence, usage: Usage, e: Entry) {
    && e.fence.context == f.context && InWindow(f, e.fence) && e.fence.position < f.position
    && usage <= e.usage
  }

  lemma WeakerIsSuperseded(f: Fence, usage: Usage, e: Entry)
    requires IsWeaker(f, usage, e)
    ensures Supersedes(f, usage, e)
  {
    IsLaterInWindow(f, e.fence);
  }

  /** With such an entry the table is not full and does not grow. */
  lemma WeakerIsReplaced(a: View, b: View, f: Fence, usage: Usage, i: nat, bits0: set<nat>, bits1: set<nat>, k: nat)
    requires k < |a.entries| && IsWeaker(f, usage, a.entries[k])
    ensures !Full(a, f, usage, bits0)
    ensures Added(a, b, f, usage, i, bits0, bits1) ==> i <= k && |b.entries| == |a.entries|
  {
    WeakerIsSuperseded(f, usage, a.entries[k]);
  }

  /** Nothing to overwrite and nowhere to append. */
  ghost predicate Full(a: View, f: Fence, usage: Usage, bits: set<nat>) {
    && |a.entries| >= a.max
    && forall k :: 0 <= k < |a.entries| ==> !Supersedes(f, usage, a.entries[k]) && a.entries[k].fence.id !in bits
  }

  function ReplaceAll(es: seq<Entry>, context: nat, e: Entry): (r: seq<Entry>)
    ensures |r| == |es|
    ensures forall i :: 0 <= i < |es| ==> r[i] == if es[i].fence.context == context then e else es[i]
  {
    if es == [] then []
    else ReplaceAll(es[..|es| - 1], context, e) + [if es[|es| - 1].fence.context == context then e else es[|es| - 1]]
  }

  /** The loop of dma_resv_replace_fences has passed the first i slots. */
  function Replacing(es: seq<Entry>, i: nat, context: nat, e: Entry): (r: seq<Entry>)
    requires i <= |es|
  {
    ReplaceAll(es[..i], context, e) + es[i..]
  }

  lemma ReplaceOne(es: seq<Entry>, i: nat, context: nat, e: Entry)
    requires i < |es|
    ensures var now := Replacing(es, i, context, e);
            |now| == |es| && now[i] == es[i]
            && Replacing(es, i + 1, context, e) == if es[i].fence.context == context then now[i := e] else now
  {
  }

  lemma ReplaceEnds(es: seq<Entry>, context: nat, e: Entry)
    ensures Replacing(es, 0, context, e) == es && Replacing(es, |es|, context, e) == ReplaceAll(es, context, e)
  {
    assert es[..|es|] == es;
  }

  // ----------------------------------------------------- the object itself

  class Table {
    var num: nat
    var max: nat
    const slots: array<Entry>

    constructor (capacity: nat)
      ensures num == 0 && max == capacity && slots.Length == capacity && fresh(slots)
    {
      num, max := 0, capacity;
      slots := new Entry[capacity];
    }

    /** dma_resv_list_set. */
    method Set(i: nat, e: Entry)
      requires i < slots.Length
      modifies slots
      ensures slots[..] == old(slots[..])[i := e]
      ensures forall m :: i < m <= slots.Length ==> slots[..m] == old(slots[..m])[i := e]
      ensures forall m :: 0 <= m <= i ==> slots[..m] == old(slots[..m])
    {
      slots[i] := e;
    }
  }

  class Object {
    var fences: Table?
    /** The references this object holds. */
    var refs: multiset<nat>

    constructor ()
      ensures fences == null && refs == multiset{}
    {
      fences, refs := null, multiset{};
    }

    ghost function Footprint(): (r: set<object>)
      reads this
    {
      {this} + (if fences == null then {} else {fences, fences.slots})
    }

    ghost predicate Shaped()
      reads Footprint()
    {
      fences != null ==> fences.num <= fences.max <= fences.slots.Length && fences.slots.Length < TWO_32
    }

    ghost function State(): (r: View)
      requires Shaped()
      reads Footprint()
    {
      if fences == null then View([], 0) else View(fences.slots[..fences.num], fences.max)
    }

    /** One reference is held for every filled slot. */
    ghost predicate Valid()
      reads Footprint()
    {
      Shaped() && Holds(refs, State().entries)
    }

    /** dma_resv_reserve_fences. */
    method Reserve(n: nat, signals: Signals, gotMemory: bool) returns (ok: bool, ghost kept: seq<bool>)
      requires Valid() && n < TWO_32
      modifies this, signals
      ensures Valid() && old(signals.bits) <= signals.bits
      ensures ok ==> fences != null && Reserved(old(State()), State(), n, kept, old(signals.bits), signals.bits)
      ensures ok <==> HasRoom(old(State()), n) || gotMemory
      ensures fences == old(fences) || (fences != null && fresh(fences) && fresh(fences.slots))
      ensures old(State()).max > 0 && |old(State()).entries| + n <= old(State()).max ==>
                ok && State() == old(State()) && fences == old(fences)
      ensures ok && fences != old(fences) && GrowsAsItShould(old(State()), n) ==> Grows(old(State()), State(), n)
      ensures !ok ==> fences == old(fences) && refs == old(refs)
    {
      kept := [];
      if fences != null && fences.max > 0 {
        if (fences.num + n) % TWO_32 <= fences.max {
          return true, kept;
        }
      }
      ghost var before := State();
      var max := NewSize(n);
      if GrowsAsItShould(before, n) {
        RequestGrows(before, n);
      }
      if !gotMemory {
        return false, kept;
      }
      kept := Grow(max, signals);
      ok := true;
    }

    method NewSize(n: nat) returns (max: nat)
      requires Shaped() && n < TWO_32
      requires !HasRoom(State(), n)
      ensures |State().entries| <= max < TWO_32 && max >= Requested(State(), n)
    {
      if fences != null && fences.max > 0 {
        max := Max((fences.num + n) % TWO_32, (fences.max * 2) % TWO_32);
      } else {
        var rounded: nat := *;
        if n > 0 {
          rounded := RoundUp(n);
        }
        max := Max(4, rounded) % TWO_32;
      }
    }

    /** Moves the entries to a new table of at least max slots. */
    method Grow(max: nat, signals: Signals) returns (ghost kept: seq<bool>)
      requires Valid() && |State().entries| <= max < TWO_32
      modifies this, signals
      ensures Valid() && old(signals.bits) <= signals.bits
      ensures fences != null && fresh(fences) && fresh(fences.slots) && fences.max >= max
      ensures Verdicts(old(State()).entries, kept, old(signals.bits), signals.bits)
      ensures State().entries == Select(old(State()).entries, kept, true)
    {
      ghost var es := State().entries;
      var table, k;
      table, k, kept := NewTable(max, signals);
      ghost var front, back := Select(es, kept, true), Select(es, kept, false);
      SelectSplits(es, kept);
      var was := fences;
      fences := table;
      assert State().entries == front;
      if was != null {
        DropBack(max, k, front, back);
      } else {
        assert back == [];
      }
    }

    method NewTable(max: nat, signals: Signals) returns (table: Table, k: nat, ghost kept: seq<bool>)
      requires Shaped() && |State().entries| <= max < TWO_32
      modifies signals
      ensures fresh(table) && fresh(table.slots) && old(signals.bits) <= signals.bits
      ensures Verdicts(State().entries, kept, old(signals.bits), signals.bits)
      ensures max <= table.max == table.slots.Length < TWO_32
      ensures Filled(State().entries, kept, table.slots[..], table.num, k, max)
    {
      var capacity: nat :| max <= capacity < TWO_32;
      table := new Table(capacity);
      var j;
      j, k, kept := Fill(fences, table, max, signals);
      table.num := j;
    }

    /** The two-ended fill: unsignaled entries from the front, the others from the back. */
    method Fill(was: Table?, table: Table, max: nat, signals: Signals) returns (j: nat, k: nat, ghost kept: seq<bool>)
      requires was != null ==> was.num <= was.slots.Length && was.slots != table.slots && was.num <= max
      requires max <= table.slots.Length
      modifies table.slots, signals
      ensures old(signals.bits) <= signals.bits
      ensures var es := if was == null then [] else was.slots[..was.num];
              Verdicts(es, kept, old(signals.bits), signals.bits)
              && Filled(es, kept, table.slots[..], j, k, max)
    {
      var i;
      i, j, k, kept := 0, 0, max, [];
      ghost var es := if was == null then [] else was.slots[..was.num];
      var count := if was == null then 0 else was.num;
      while i < count
        invariant i <= |es| == count <= max
        invariant old(signals.bits) <= signals.bits
        invariant Verdicts(es[..i], kept, old(signals.bits), signals.bits)
        invariant Filled(es[..i], kept, table.slots[..], j, k, max)
        invariant count > 0 ==> was != null && was.num == count && es == was.slots[..count]
      {
        assert es[..i + 1] == es[..i] + [was.slots[i]];
        var signaled;
        signaled, j, k := FillOne(was.slots[i], table, j, k, max, signals, old(signals.bits), es[..i], kept);
        kept := kept + [!signaled];
        i := i + 1;
      }
      assert es[..i] == es;
    }

    static method FillOne(e: Entry, table: Table, j: nat, k: nat, max: nat, signals: Signals,
                          ghost bits0: set<nat>, ghost es: seq<Entry>, ghost kept: seq<bool>)
      returns (signaled: bool, j': nat, k': nat)
      requires Filled(es, kept, table.slots[..], j, k, max) && |es| < max
      requires bits0 <= signals.bits && Verdicts(es, kept, bits0, signals.bits)
      modifies table.slots, signals
      ensures old(signals.bits) <= signals.bits && Verdicts(es + [e], kept + [!signaled], bits0, signals.bits)
      ensures Filled(es + [e], kept + [!signaled], table.slots[..], j', k', max)
    {
      ghost var bits := signals.bits;
      signaled := signals.IsSignaled(e.fence.id);
      VerdictsPush(es, kept, bits0, bits, signals.bits, e, !signaled);
      j', k' := j, k;
      if signaled {
        FilledBack(es, kept, table.slots[..], j, k, max, e);
        k' := k - 1;
        table.Set(k', Entry(e.fence, KERNEL));
      } else {
        FilledFront(es, kept, table.slots[..], j, k, max, e);
        table.Set(j, e);
        j' := j + 1;
      }
    }

    /** Drops the references of the entries at the back of the new table. */
    method DropBack(max: nat, k: nat, ghost front: seq<Entry>, ghost back: seq<Entry>)
      requires fences != null && max <= fences.slots.Length && k == max - |back|
      requires Behind(fences.slots[..], max, back)
      requires Holds(refs, front + back)
      modifies `refs
      ensures Holds(refs, front)
    {
      var i := k;
      assert back[..max - k] == back;
      while i < max
        invariant k <= i <= max
        invariant Holds(refs, front + back[..max - i])
      {
        BackAt(fences.slots[..], max, back, i);
        assert front + back[..max - i] == (front + back[..max - i - 1]) + [back[max - i - 1]];
        HoldsOneLess(refs, front + back[..max - i - 1], back[max - i - 1]);
        refs := refs - multiset{fences.slots[i].fence.id};
        i := i + 1;
      }
      assert front + back[..0] == front;
    }

    /** dma_resv_add_fence; false stands for the kernel's BUG. */
    method Add(f: Fence, usage: Usage, signals: Signals) returns (ok: bool, ghost i: nat)
      requires Valid() && fences != null
      modifies this, fences, fences.slots, signals
      ensures Shaped() && fences == old(fences) && old(signals.bits) <= signals.bits
      ensures ok ==> Valid() && Added(old(State()), State(), f, usage, i, old(signals.bits), signals.bits)
      ensures old(fences.num) < old(fences.max) ==> ok
      ensures !ok ==> State() == old(State()) && Full(State(), f, usage, old(signals.bits))
      ensures (exists k :: 0 <= k < |old(State()).entries| && IsWeaker(f, usage, old(State()).entries[k])) ==>
                ok && |State().entries| == |old(State()).entries|
      ensures (exists k :: 0 <= k < |old(State()).entries| && old(State()).entries[k].fence.id in old(signals.bits)) ==>
                ok && |State().entries| == |old(State()).entries|
    {
      ghost var before, bits := State(), signals.bits;
      HoldsOneMore(refs, State().entries, Entry(f, usage));
      refs := refs + multiset{f.id};
      var slot := FindSlot(f, usage, signals);
      i := slot;
      if slot < fences.num {
        Overwrite(slot, Entry(f, usage));
        ok := true;
      } else if fences.num >= fences.max {
        ok := false;
      } else {
        Append(Entry(f, usage));
        ok := true;
      }
      if k :| 0 <= k < |before.entries| && IsWeaker(f, usage, before.entries[k]) {
        WeakerIsReplaced(before, State(), f, usage, i, bits, signals.bits, k);
      }
    }

    method FindSlot(f: Fence, usage: Usage, signals: Signals) returns (slot: nat)
      requires Shaped() && fences != null
      modifies signals
      ensures old(signals.bits) <= signals.bits && slot <= fences.num
      ensures forall k :: 0 <= k < slot ==>
                  !Supersedes(f, usage, fences.slots[k]) && fences.slots[k].fence.id !in old(signals.bits)
      ensures slot < fences.num ==>
                Supersedes(f, usage, fences.slots[slot]) || fences.slots[slot].fence.id in signals.bits
    {
      slot := 0;
      while slot < fences.num
        invariant slot <= fences.num && old(signals.bits) <= signals.bits
        invariant forall k :: 0 <= k < slot ==>
                  !Supersedes(f, usage, fences.slots[k]) && fences.slots[k].fence.id !in old(signals.bits)
      {
        if Supersedes(f, usage, fences.slots[slot]) {
          return;
        }
        var signaled := signals.IsSignaled(fences.slots[slot].fence.id);
        if signaled {
          return;
        }
        slot := slot + 1;
      }
    }

    /** A new entry, whose reference has been taken, in the place of an old one. */
    method Overwrite(slot: nat, e: Entry)
      requires Shaped() && fences != null && slot < fences.num
      requires Holds(refs, State().entries + [e])
      modifies `refs, fences.slots
      ensures Valid() && State() == View(old(State()).entries[slot := e], old(State()).max)
    {
      ghost var es := State().entries;
      HoldsSwap(refs, es, slot, e);
      refs := refs - multiset{fences.slots[slot].fence.id};
      fences.Set(slot, e);
      assert State().entries == es[slot := e];
    }

    method Append(e: Entry)
      requires Shaped() && fences != null && fences.num < fences.max
      requires Holds(refs, State().entries + [e])
      modifies fences, fences.slots
      ensures Valid() && State() == View(old(State()).entries + [e], old(State()).max)
    {
      ghost var es := State().entries;
      fences.Set(fences.num, e);
      fences.num := fences.num + 1;
      assert State().entries == es + [e];
    }

    /** dma_resv_replace_fences. */
    method Replace(context: nat, replacement: Fence, usage: Usage)
      requires Valid()
      modifies `refs, if fences == null then {} else {fences.slots}
      ensures Valid()
      ensures State() == View(ReplaceAll(old(State()).entries, context, Entry(replacement, usage)), old(State()).max)
    {
      if fences != null {
        ReplaceSlots(context, Entry(replacement, usage));
      }
    }

    method ReplaceSlots(context: nat, e: Entry)
      requires Valid() && fences != null
      modifies `refs, fences.slots
      ensures Valid() && State().entries == ReplaceAll(old(State()).entries, context, e)
    {
      ghost var es := State().entries;
      ReplaceEnds(es, context, e);
      var i, count := 0, fences.num;
      while i < count
        invariant i <= count && Valid()
        invariant State().entries == Replacing(es, i, context, e)
        modifies `refs, fences.slots
      {
        ReplaceOne(es, i, context, e);
        ReplaceSlot(i, context, e);
        i := i + 1;
      }
    }

    method ReplaceSlot(i: nat, context: nat, e: Entry)
      requires Valid() && fences != null && i < fences.num
      modifies `refs, fences.slots
      ensures Valid()
      ensures var es := old(State()).entries;
              State().entries == if es[i].fence.context == context then es[i := e] else es
    {
      if fences.slots[i].fence.context == context {
        HoldsOneMore(refs, State().entries, e);
        refs := refs + multiset{e.fence.id};
        Overwrite(i, e);
      }
    }

    /** dma_resv_reset_max_fences, part of unlocking when mutexes are debugged. */
    method ResetMax()
      requires Valid()
      modifies fences
      ensures Valid() && State() == View(old(State()).entries, |old(State()).entries|)
    {
      if fences != null {
        fences.max := fences.num;
      }
    }

    /** dma_resv_fini. */
    method Fini()
      requires Valid()
      modifies `refs
      ensures refs == multiset{}
    {
      if fences != null {
        ghost var es := fences.slots[..fences.num];
        var i := 0;
        while i < fences.num
          invariant i <= fences.num && Shaped() && Holds(refs, es[i..])
        {
          assert es[i..] == [es[i]] + es[i + 1..];
          HoldsOneLess(refs, es[i + 1..], es[i]);
          refs := refs - multiset{fences.slots[i].fence.id};
          i := i + 1;
        }
      }
    }
  }
}
