/** The turns of one thread in a walk or lookup, on its locals and the nodes it reads: while nobody
    changes the chain each brings it on, and a walk ends at the first unsignaled member
    (dma-fence-chain.c). */
module ChainTurns {
  import opened Fences
  import opened ChainTimeline
  import opened ChainHeap
  import opened ChainWalk

  // ---------------------------------------------------------- where a walk ends

  /** The first member from a down, along the timeline, whose fence has not signalled. */
  ghost function FirstUnsignaled(info: seq<Info>, a: Option<nat>, signaled: set<nat>): (r: Option<nat>)
    requires WellFormed(info) && Valid(info, a)
    ensures r.Some? ==> a.Some? && r.value <= a.value && info[r.value].fence !in signaled
    ensures Skip(info, a, r, signaled)
    decreases if a.Some? then a.value + 1 else 0
  {
    if a.None? || info[a.value].fence !in signaled then a else FirstUnsignaled(info, info[a.value].orig, signaled)
  }

  lemma {:induction false} SkipKeepsFirst(info: seq<Info>, a: Option<nat>, b: Option<nat>, signaled: set<nat>)
    requires WellFormed(info) && Valid(info, a) && Skip(info, a, b, signaled)
    ensures Valid(info, b) && FirstUnsignaled(info, a, signaled) == FirstUnsignaled(info, b, signaled)
    decreases if a.Some? then a.value + 1 else 0
  {
    if a != b {
      SkipKeepsFirst(info, info[a.value].orig, b, signaled);
    }
  }

  predicate Walks(pc: PC) {
    !pc.Idle? && !pc.FindTest? && !pc.FindEnd? && !pc.Found?
  }

  predicate Ended(pc: PC) {
    pc.Idle? || pc.Found?
  }

  function PrevOf(nodes: seq<Node>, a: Option<nat>): (r: Option<nat>) {
    if a.Some? && a.value < |nodes| then nodes[a.value].prev else None
  }

  predicate IsSignaled(info: seq<Info>, a: Option<nat>, signaled: set<nat>) {
    a.Some? && a.value < |info| && info[a.value].fence in signaled
  }

  /** Nothing has come between what a walk has read and what it does with it. */
  predicate OnCourse(th: Thread, info: seq<Info>, nodes: seq<Node>, signaled: set<nat>) {
    var below := PrevOf(nodes, th.cur);
    match th.pc
    case Read(w) => w.OfPrv? ==> below == th.prv
    case Try(w, raw) => PrevOf(nodes, Slot(th, w)) == Some(raw) && (w.OfPrv? ==> below == th.prv)
    case Check(w) => PrevOf(nodes, Slot(th, w)) == th.tmp && (w.OfPrv? ==> below == th.prv)
    case Miss(_) => false
    case Test => below == th.prv
    case Swap => below == th.prv && Below(th.nxt) < Below(th.prv)
    case PutCur => below == th.prv && !IsSignaled(info, below, signaled)
    case _ => true
  }

  function Below(a: Option<nat>): (r: nat) {
    if a.Some? then a.value + 1 else 0
  }

  function PhaseRank(pc: PC): (r: nat)
    ensures r <= 13
  {
    match pc
    case PutNext => 13
    case PutPrev => 12
    case Read(w) => if w.OfCur? then 11 else 7
    case Try(w, _) => if w.OfCur? then 10 else 6
    case Check(w) => if w.OfCur? then 9 else 5
    case Test => 8
    case Swap => 4
    case PutCur => 1
    case _ => 3
  }

  function Span(nodes: nat): (m: nat) {
    16 * nodes + 32
  }

  /** How much a thread has still to do. */
  function Rank(th: Thread, nodes: seq<Node>): (r: nat) {
    match th.pc
    case Idle => 0
    case Found => 0
    case FindEnd => 1
    case FindTest => Span(|nodes|) * Below(th.cur) + Span(|nodes|) - 1
    case _ => Span(|nodes|) * Below(th.cur) + 16 * Below(PrevOf(nodes, th.cur)) + PhaseRank(th.pc)
  }

  // ------------------------------------------------------ one turn of a thread

  /** The thread and the nodes after a turn. */
  ghost predicate GoesOn(th: Thread, nodes: seq<Node>, th': Thread, nodes': seq<Node>,
                         info: seq<Info>, signaled: set<nat>) {
    OnCourse(th', info, nodes', signaled) && Rank(th', nodes') < Rank(th, nodes) && |nodes'| == |nodes|
  }

  /** A thread that walks stands on nodes whose pointers lead down. */
  ghost predicate Stands(th: Thread, nodes: seq<Node>) {
    && th.cur.Some? && th.cur.value < |nodes| && Below(nodes[th.cur.value].prev) < Below(th.cur)
    && (th.prv.Some? ==> th.prv.value < |nodes| && Below(nodes[th.prv.value].prev) < Below(th.prv))
    && (th.pc.Read? || th.pc.Try? || th.pc.Check? ==> th.pc.w.OfPrv? ==> th.prv.Some?)
    && (th.pc.Test? || th.pc.Swap? ==> th.prv.Some?)
  }

  function AfterRead(th: Thread, nodes: seq<Node>): (r: Thread)
    requires th.pc.Read?
  {
    var raw := PrevOf(nodes, Slot(th, th.pc.w));
    th.(pc := if raw.Some? then Try(th.pc.w, raw.value) else if th.pc.w.OfCur? then PutCur else Swap)
  }

  lemma ReadRanks(th: Thread, nodes: seq<Node>, info: seq<Info>, signaled: set<nat>)
    requires th.pc.Read? && th.nxt.None? && (th.pc.w.OfCur? ==> th.prv.None?)
    requires Stands(th, nodes) && OnCourse(th, info, nodes, signaled)
    ensures GoesOn(th, nodes, AfterRead(th, nodes), nodes, info, signaled)
  {
    hide Span;
  }

  lemma TryRanks(th: Thread, nodes: seq<Node>, info: seq<Info>, signaled: set<nat>)
    requires th.pc.Try? && th.pc.raw < |nodes| && Stands(th, nodes) && OnCourse(th, info, nodes, signaled)
    ensures GoesOn(th, nodes, th.(tmp := Some(th.pc.raw), pc := Check(th.pc.w)), Get(nodes, th.pc.raw), info, signaled)
  {
    hide Span;
  }

  function AfterCheck(th: Thread): (r: Thread)
    requires th.pc.Check?
  {
    if th.pc.w.OfCur? then th.(prv := th.tmp, tmp := None, pc := Test)
    else th.(nxt := th.tmp, tmp := None, pc := Swap)
  }

  lemma CheckRanks(th: Thread, nodes: seq<Node>, info: seq<Info>, signaled: set<nat>)
    requires th.pc.Check? && Stands(th, nodes) && OnCourse(th, info, nodes, signaled)
    ensures GoesOn(th, nodes, AfterCheck(th), nodes, info, signaled)
  {
    hide Span;
  }

  function AfterTest(th: Thread, info: seq<Info>, signaled: set<nat>): (r: Thread)
    requires th.prv.Some? && th.prv.value < |info|
  {
    th.(pc := if info[th.prv.value].fence !in signaled then PutCur
              else if info[th.prv.value].chain then Read(OfPrv) else Swap)
  }

  lemma TestRanks(th: Thread, nodes: seq<Node>, info: seq<Info>, signaled: set<nat>)
    requires th.pc.Test? && th.prv.Some? && th.prv.value < |info| && th.nxt.None?
    requires Stands(th, nodes) && OnCourse(th, info, nodes, signaled)
    ensures GoesOn(th, nodes, AfterTest(th, info, signaled), nodes, info, signaled)
  {
    hide Span;
  }

  lemma SwapRanks(th: Thread, nodes: seq<Node>, info: seq<Info>, signaled: set<nat>)
    requires th.pc.Swap? && Stands(th, nodes) && OnCourse(th, info, nodes, signaled)
    ensures var c := th.cur.value;
            GoesOn(th, nodes, th.(nxt := th.prv, pc := PutNext), nodes[c := nodes[c].(prev := th.nxt)], info, signaled)
  {
    hide Span;
  }

  /** Puts change no pointer. */
  ghost predicate SamePointers(nodes: seq<Node>, nodes': seq<Node>) {
    |nodes'| == |nodes| && forall m :: 0 <= m < |nodes| ==> nodes'[m].prev == nodes[m].prev
  }

  lemma PutRanks(th: Thread, nodes: seq<Node>, nodes': seq<Node>, info: seq<Info>, signaled: set<nat>)
    requires (th.pc.PutNext? || th.pc.PutPrev?) && Stands(th, nodes) && SamePointers(nodes, nodes')
    ensures th.pc.PutNext? ==> GoesOn(th, nodes, th.(nxt := None, pc := PutPrev), nodes', info, signaled)
    ensures th.pc.PutPrev? ==> GoesOn(th, nodes, th.(prv := None, pc := Read(OfCur)), nodes', info, signaled)
  {
    hide Span;
  }

  lemma LastRanks(th: Thread, nodes: seq<Node>, nodes': seq<Node>, info: seq<Info>, signaled: set<nat>)
    requires th.pc.PutCur? && Stands(th, nodes) && SamePointers(nodes, nodes') && OnCourse(th, info, nodes, signaled)
    ensures GoesOn(th, nodes, AfterLast(th), nodes', info, signaled)
  {
    if th.prv.Some? {
      LessBelow(Span(|nodes|), th.prv.value, th.cur.value);
    }
  }

  lemma LessBelow(m: nat, p: nat, c: nat)
    requires p < c
    ensures m * (p + 1) + m <= m * (c + 1)
  {
    assert m * (p + 1) + m == m * (p + 2);
    assert m * (p + 2) <= m * (c + 1);
  }

  lemma FindEndRanks(th: Thread, nodes: seq<Node>, nodes': seq<Node>, info: seq<Info>, signaled: set<nat>)
    requires th.pc.FindEnd? && SamePointers(nodes, nodes')
    ensures GoesOn(th, nodes, th.(base := None, pc := Found), nodes', info, signaled)
  {
  }

  lemma FindRanks(th: Thread, nodes: seq<Node>, stops: bool, info: seq<Info>, signaled: set<nat>)
    requires th.pc.FindTest? && th.cur.Some? && th.cur.value < |nodes| && Below(nodes[th.cur.value].prev) <= |nodes|
    ensures GoesOn(th, nodes, th.(pc := if stops then FindEnd else Read(OfCur)), nodes, info, signaled)
  {
  }
}
