/** Walks and lookups that are left alone end, and where (dma-fence-chain.c). */
module ChainProgress {
  import opened Fences
  import opened ChainTimeline
  import opened ChainHeap
  import opened ChainWalk
  import opened ChainWalkInv
  import opened ChainRuns
  import opened ChainTurns

  // -------------------------------------------------- turns keep to the course

  /** The pointer of a node that is alive leads to a node that is. */
  lemma PrevIsCounted(s: State, n: nat)
    requires Inv(s) && n < |s.nodes| && s.nodes[n].phase == Alive
    ensures var p := s.nodes[n].prev;
            p.Some? ==> p.value < n && s.nodes[p.value].rc > 0 && s.nodes[p.value].phase == Alive
  {
    assert NodeOk(s.info, s.nodes, n);
    if s.nodes[n].prev.Some? {
      assert NodeOk(s.info, s.nodes, s.nodes[n].prev.value);
    }
  }

  /** A read finds a node that can be referenced. */
  lemma ReadIsAlive(s: State, t: nat)
    requires Inv(s) && t < |s.threads| && s.threads[t].pc.Try?
    requires OnCourse(s.threads[t], s.info, s.nodes, s.signaled)
    ensures s.threads[t].pc.raw < |s.nodes| && s.nodes[s.threads[t].pc.raw].rc > 0
  {
    var th := s.threads[t];
    assert ThreadOk(s.info, s.signaled, th) && Owns(th, s.nodes);
    PrevIsCounted(s, Slot(th, th.pc.w).value);
  }

  /** What a thread that walks stands on. */
  lemma Standing(s: State, t: nat)
    requires Inv(s) && t < |s.threads| && Walks(s.threads[t].pc)
    ensures var th := s.threads[t];
            && |s.nodes| == |s.info| && Stands(th, s.nodes) && (th.prv.Some? ==> th.prv.value < |s.info|)
            && (th.pc.Read? || th.pc.Test? ==> th.nxt.None?)
            && (th.pc.Read? && th.pc.w.OfCur? ==> th.prv.None?)
  {
    var th := s.threads[t];
    assert ThreadOk(s.info, s.signaled, th) && Owns(th, s.nodes);
    PrevIsCounted(s, th.cur.value);
    if th.prv.Some? {
      PrevIsCounted(s, th.prv.value);
    }
  }

  ghost predicate TurnsTo(s: State, t: nat, r: State) {
    && t < |s.threads| == |r.threads| && r.info == s.info && r.signaled == s.signaled
    && GoesOn(s.threads[t], s.nodes, r.threads[t], r.nodes, s.info, s.signaled)
  }

  /** The walk goes on, from the same node. */
  predicate StaysOn(s: State, t: nat, r: State)
    requires t < |s.threads|
  {
    t < |r.threads| && Walks(r.threads[t].pc) && r.threads[t].cur == s.threads[t].cur
  }

  ghost predicate OnCourseIn(s: State, t: nat) {
    t < |s.threads| && OnCourse(s.threads[t], s.info, s.nodes, s.signaled)
  }

  lemma ReadMoves(s: State, t: nat)
    requires Inv(s) && t < |s.threads| && s.threads[t].pc.Read?
    requires Slot(s.threads[t], s.threads[t].pc.w).Some? && Slot(s.threads[t], s.threads[t].pc.w).value < |s.nodes|
    ensures RunThread(s, t) == SetThread(s, t, AfterRead(s.threads[t], s.nodes))
  {
    hide Inv;
  }

  lemma ReadTurns(s: State, t: nat)
    requires Inv(s) && OnCourseIn(s, t) && s.threads[t].pc.Read?
    ensures TurnsTo(s, t, RunThread(s, t)) && StaysOn(s, t, RunThread(s, t))
  {
    hide Inv, RunThread, GoesOn, Stands, OnCourse, Rank;
    Standing(s, t);
    ReadRanks(s.threads[t], s.nodes, s.info, s.signaled);
    ReadMoves(s, t);
  }

  lemma TryMoves(s: State, t: nat)
    requires Inv(s) && t < |s.threads| && s.threads[t].pc.Try?
    requires s.threads[t].pc.raw < |s.nodes| && s.nodes[s.threads[t].pc.raw].rc > 0
    ensures var th := s.threads[t];
            RunThread(s, t) == SetThread(s, t, th.(tmp := Some(th.pc.raw), pc := Check(th.pc.w)))
                                 .(nodes := Get(s.nodes, th.pc.raw))
  {
    hide Inv;
  }

  lemma TryTurns(s: State, t: nat)
    requires Inv(s) && OnCourseIn(s, t) && s.threads[t].pc.Try?
    ensures TurnsTo(s, t, RunThread(s, t)) && StaysOn(s, t, RunThread(s, t))
  {
    hide Inv, RunThread, GoesOn, Stands, OnCourse, Rank;
    Standing(s, t);
    ReadIsAlive(s, t);
    TryRanks(s.threads[t], s.nodes, s.info, s.signaled);
    TryMoves(s, t);
  }

  lemma CheckMoves(s: State, t: nat)
    requires Inv(s) && OnCourseIn(s, t) && s.threads[t].pc.Check? && Stands(s.threads[t], s.nodes)
    ensures RunThread(s, t) == SetThread(s, t, AfterCheck(s.threads[t]))
  {
    hide Inv, Rank;
  }

  lemma CheckTurns(s: State, t: nat)
    requires Inv(s) && OnCourseIn(s, t) && s.threads[t].pc.Check?
    ensures TurnsTo(s, t, RunThread(s, t)) && StaysOn(s, t, RunThread(s, t))
  {
    hide Inv, RunThread, GoesOn, Stands, OnCourse, Rank;
    Standing(s, t);
    CheckMoves(s, t);
    CheckRanks(s.threads[t], s.nodes, s.info, s.signaled);
  }

  lemma TestMoves(s: State, t: nat)
    requires Inv(s) && t < |s.threads| && s.threads[t].pc.Test?
    requires s.threads[t].prv.Some? && s.threads[t].prv.value < |s.info|
    ensures RunThread(s, t) == SetThread(s, t, AfterTest(s.threads[t], s.info, s.signaled))
  {
    hide Inv;
  }

  lemma TestTurns(s: State, t: nat)
    requires Inv(s) && OnCourseIn(s, t) && s.threads[t].pc.Test?
    ensures TurnsTo(s, t, RunThread(s, t)) && StaysOn(s, t, RunThread(s, t))
  {
    hide Inv, RunThread, GoesOn, OnCourse, Rank;
    Standing(s, t);
    TestMoves(s, t);
    TestRanks(s.threads[t], s.nodes, s.info, s.signaled);
  }

  lemma SwapMoves(s: State, t: nat)
    requires Inv(s) && OnCourseIn(s, t) && s.threads[t].pc.Swap? && Stands(s.threads[t], s.nodes)
    ensures var th, c := s.threads[t], s.threads[t].cur.value;
            RunThread(s, t) == SetThread(s, t, th.(nxt := th.prv, pc := PutNext))
                                 .(nodes := s.nodes[c := s.nodes[c].(prev := th.nxt)])
  {
    hide Inv, Rank;
  }

  lemma SwapTurns(s: State, t: nat)
    requires Inv(s) && OnCourseIn(s, t) && s.threads[t].pc.Swap?
    ensures TurnsTo(s, t, RunThread(s, t)) && StaysOn(s, t, RunThread(s, t))
  {
    hide Inv, RunThread, GoesOn, OnCourse, Rank;
    Standing(s, t);
    SwapMoves(s, t);
    SwapRanks(s.threads[t], s.nodes, s.info, s.signaled);
  }

  predicate Counted(nodes: seq<Node>, x: Option<nat>) {
    x.Some? ==> x.value < |nodes| && nodes[x.value].rc > 0
  }

  /** What a thread holds can be put. */
  lemma LocalsAreCounted(s: State, t: nat)
    requires Inv(s) && t < |s.threads|
    ensures var th := s.threads[t];
            Counted(s.nodes, th.cur) && Counted(s.nodes, th.prv) && Counted(s.nodes, th.nxt)
                && Counted(s.nodes, th.base)
  {
    var th := s.threads[t];
    assert Owns(th, s.nodes);
    PutIsHeld(s, t, th.cur);
    PutIsHeld(s, t, th.prv);
    PutIsHeld(s, t, th.nxt);
    PutIsHeld(s, t, th.base);
  }

  lemma PutSame(info: seq<Info>, nodes: seq<Node>, x: Option<nat>)
    requires |nodes| == |info| && Counted(nodes, x)
    ensures SamePointers(nodes, Put(info, nodes, x))
  {
  }

  /** A put changes no pointer. */
  lemma PutKeepsPointers(s: State, t: nat)
    requires Inv(s) && t < |s.threads|
    requires var pc := s.threads[t].pc; pc.PutNext? || pc.PutPrev? || pc.PutCur? || pc.FindEnd?
    ensures SamePointers(s.nodes, RunThread(s, t).nodes)
    ensures RunThread(s, t).info == s.info && RunThread(s, t).signaled == s.signaled
  {
    LocalsAreCounted(s, t);
    var th := s.threads[t];
    var x := match th.pc case PutNext => th.nxt case PutPrev => th.prv case PutCur => th.cur case _ => th.base;
    PutSame(s.info, s.nodes, x);
    hide Inv, Put, SamePointers;
  }

  lemma PutMoves(s: State, t: nat)
    requires Inv(s) && t < |s.threads|
    ensures var th, r := s.threads[t], RunThread(s, t).threads;
            && (th.pc.PutNext? ==> r == s.threads[t := th.(nxt := None, pc := PutPrev)])
            && (th.pc.PutPrev? ==> r == s.threads[t := th.(prv := None, pc := Read(OfCur))])
            && (th.pc.PutCur? ==> r == s.threads[t := AfterLast(th)])
            && (th.pc.FindEnd? ==> r == s.threads[t := th.(base := None, pc := Found)])
  {
    hide Inv, Put;
  }

  lemma PutTurns(s: State, t: nat)
    requires Inv(s) && OnCourseIn(s, t) && (s.threads[t].pc.PutNext? || s.threads[t].pc.PutPrev?)
    ensures TurnsTo(s, t, RunThread(s, t)) && StaysOn(s, t, RunThread(s, t))
  {
    hide Inv, RunThread, GoesOn, Stands, OnCourse, Rank, SamePointers;
    Standing(s, t);
    PutKeepsPointers(s, t);
    PutMoves(s, t);
    PutRanks(s.threads[t], s.nodes, RunThread(s, t).nodes, s.info, s.signaled);
  }

  /** The walk from c ends: it returns the first unsignaled member below, and that is what c
      points to. */
  ghost predicate EndsAtFirst(s: State, r: State, t: nat, c: nat)
    requires Inv(s) && c < |s.info|
  {
    var first := FirstUnsignaled(s.info, s.info[c].orig, s.signaled);
    && t < |r.threads| && !Walks(r.threads[t].pc) && r.threads[t].cur == first
    && c < |r.nodes| && r.nodes[c].prev == first
  }

  lemma LastTurns(s: State, t: nat)
    requires Inv(s) && OnCourseIn(s, t) && s.threads[t].pc.PutCur?
    ensures TurnsTo(s, t, RunThread(s, t))
    ensures var c := s.threads[t].cur.value; c < |s.info| && EndsAtFirst(s, RunThread(s, t), t, c)
  {
    var th := s.threads[t];
    Standing(s, t);
    BelowIsFirst(s, t);
    PutKeepsPointers(s, t);
    PutMoves(s, t);
    LastRanks(th, s.nodes, RunThread(s, t).nodes, s.info, s.signaled);
    hide Inv, RunThread, GoesOn, OnCourse, Rank;
  }

  lemma BelowIsFirst(s: State, t: nat)
    requires Inv(s) && OnCourseIn(s, t) && s.threads[t].pc.PutCur?
    ensures var th := s.threads[t];
            && th.cur.Some? && th.cur.value < |s.info| == |s.nodes| && s.nodes[th.cur.value].prev == th.prv
            && th.prv == FirstUnsignaled(s.info, s.info[th.cur.value].orig, s.signaled)
  {
    var th := s.threads[t];
    Standing(s, t);
    assert Owns(th, s.nodes);
    var c := th.cur.value;
    assert Skip(s.info, s.info[c].orig, s.nodes[c].prev, s.signaled);
    SkipKeepsFirst(s.info, s.info[c].orig, s.nodes[c].prev, s.signaled);
  }

  lemma FindStands(s: State, t: nat)
    requires Inv(s) && t < |s.threads| && s.threads[t].pc.FindTest?
    ensures var th := s.threads[t];
            && th.goal.Find? && th.goal.head < |s.info| && th.cur.Some? && th.cur.value < |s.info| == |s.nodes|
            && Below(s.nodes[th.cur.value].prev) <= |s.nodes|
  {
    var th := s.threads[t];
    assert ThreadOk(s.info, s.signaled, th) && Owns(th, s.nodes);
    assert NodeOk(s.info, s.nodes, th.cur.value);
  }

  lemma FindMoves(s: State, t: nat)
    requires Inv(s) && t < |s.threads| && s.threads[t].pc.FindTest?
    requires var th := s.threads[t];
             th.goal.Find? && th.goal.head < |s.info| && th.cur.Some? && th.cur.value < |s.info|
    ensures var th := s.threads[t];
            var stops := StopsAt(s.info, th.goal.head, th.goal.request, th.cur.value);
            RunThread(s, t) == SetThread(s, t, th.(pc := if stops then FindEnd else Read(OfCur)))
  {
    hide Inv, StopsAt;
  }

  lemma FindTestTurns(s: State, t: nat)
    requires Inv(s) && OnCourseIn(s, t) && s.threads[t].pc.FindTest?
    ensures TurnsTo(s, t, RunThread(s, t))
  {
    hide Inv, RunThread, GoesOn, Stands, OnCourse, Rank, StopsAt;
    var th := s.threads[t];
    FindStands(s, t);
    FindMoves(s, t);
    FindRanks(th, s.nodes, StopsAt(s.info, th.goal.head, th.goal.request, th.cur.value), s.info, s.signaled);
  }

  lemma FindEndTurns(s: State, t: nat)
    requires Inv(s) && OnCourseIn(s, t) && s.threads[t].pc.FindEnd?
    ensures TurnsTo(s, t, RunThread(s, t))
  {
    hide Inv, RunThread, GoesOn, OnCourse, Rank, SamePointers;
    PutKeepsPointers(s, t);
    PutMoves(s, t);
    FindEndRanks(s.threads[t], s.nodes, RunThread(s, t).nodes, s.info, s.signaled);
  }

  /** Each turn of a thread in an operation leaves it less to do. */
  lemma EachTurnGoesOn(s: State, t: nat)
    requires Inv(s) && OnCourseIn(s, t) && !Ended(s.threads[t].pc)
    ensures TurnsTo(s, t, RunThread(s, t))
    ensures Walks(s.threads[t].pc) ==>
              StaysOn(s, t, RunThread(s, t))
              || (s.threads[t].cur.Some? && s.threads[t].cur.value < |s.info|
                  && EndsAtFirst(s, RunThread(s, t), t, s.threads[t].cur.value))
  {
    match s.threads[t].pc
    case Read(_) => ReadTurns(s, t);
    case Try(_, _) => TryTurns(s, t);
    case Check(_) => CheckTurns(s, t);
    case Test => TestTurns(s, t);
    case Swap => SwapTurns(s, t);
    case PutNext => PutTurns(s, t);
    case PutPrev => PutTurns(s, t);
    case PutCur =>
      Standing(s, t);
      LastTurns(s, t);
    case FindTest => FindTestTurns(s, t);
    case FindEnd => FindEndTurns(s, t);
  }

  // ------------------------------------------------------------ quiet runs

  /** What OnCourse and Rank look at. */
  lemma CourseDependsOn(th: Thread, info: seq<Info>, nodes: seq<Node>, nodes': seq<Node>, signaled: set<nat>)
    requires |nodes'| == |nodes| && PrevOf(nodes', th.cur) == PrevOf(nodes, th.cur)
    requires PrevOf(nodes', th.prv) == PrevOf(nodes, th.prv)
    ensures OnCourse(th, info, nodes', signaled) <==> OnCourse(th, info, nodes, signaled)
    ensures Rank(th, nodes') == Rank(th, nodes)
  {
  }

  ghost predicate SameAlive(s: State, r: State) {
    && r.threads == s.threads && r.info == s.info && r.signaled == s.signaled && |r.nodes| == |s.nodes|
    && forall m :: 0 <= m < |s.nodes| && s.nodes[m].phase == Alive ==> r.nodes[m].prev == s.nodes[m].prev
  }

  lemma PutFromNodeKeepsPointers(s: State, n: nat, node: Node, x: Option<nat>)
    requires Inv(s) && n < |s.nodes| && s.nodes[n].phase != Alive
    requires x.Some? ==> x.value < |s.nodes| && x.value != n && NodeUses(s.nodes[n], x.value) > 0
    ensures SameAlive(s, PutFromNode(s, n, node, x))
  {
    NodePutIsHeld(s, n, x);
    hide Inv;
  }

  /** A release changes no pointer of a node that is alive. */
  lemma ReleaseKeepsPointers(s: State, n: nat)
    requires Inv(s) && n < |s.nodes|
    ensures SameAlive(s, RunRelease(s, n))
  {
    var node := s.nodes[n];
    assert NodeOk(s.info, s.nodes, n);
    match node.phase
    case Cut(p) => PutFromNodeKeepsPointers(s, n, node.(local := None, phase := Loop), node.local);
    case DropPrev => PutFromNodeKeepsPointers(s, n, node.(prev := None, phase := DropFence), node.prev);
    case DropFence => PutFromNodeKeepsPointers(s, n, node.(held := None, phase := Freed), node.held);
    case _ =>
  }

  lemma ReleaseKeepsCourse(s: State, t: nat, n: nat)
    requires Inv(s) && OnCourseIn(s, t) && n < |s.nodes|
    ensures OnCourseIn(RunRelease(s, n), t) && RunRelease(s, n).threads == s.threads
    ensures Rank(s.threads[t], RunRelease(s, n).nodes) == Rank(s.threads[t], s.nodes)
  {
    ReleaseKeepsPointers(s, n);
    assert Owns(s.threads[t], s.nodes);
    CourseDependsOn(s.threads[t], s.info, s.nodes, RunRelease(s, n).nodes, s.signaled);
  }

  /** Only thread t and releases act. */
  predicate Quiet(t: nat, actions: seq<Action>) {
    forall k :: 0 <= k < |actions| ==> actions[k] == Run(t) || actions[k].Release?
  }

  function Turns(t: nat, actions: seq<Action>): (n: nat) {
    if actions == [] then 0 else (if actions[0] == Run(t) then 1 else 0) + Turns(t, actions[1..])
  }

  function Acted(s: State, a: Action): (r: State)
    requires Inv(s)
    ensures Inv(r)
  {
    if Enabled(s, a) then NextKeepsInv(s, a); Next(s, a) else s
  }

  lemma Unroll(s: State, actions: seq<Action>, k: nat)
    requires Inv(s) && 0 < k <= |actions|
    ensures After(s, actions[..k]) == After(Acted(s, actions[0]), actions[1..][..k - 1])
  {
    hide Inv, Enabled, Next;
    assert actions[..k][0] == actions[0] && actions[..k][1..] == actions[1..][..k - 1];
  }

  lemma QuietStep(s: State, t: nat, a: Action)
    requires Inv(s) && OnCourseIn(s, t) && !Ended(s.threads[t].pc) && (a == Run(t) || a.Release?)
    ensures var r := Acted(s, a);
            && t < |r.threads| && r.info == s.info && r.signaled == s.signaled && OnCourseIn(r, t)
            && Rank(r.threads[t], r.nodes) + (if a == Run(t) then 1 else 0) <= Rank(s.threads[t], s.nodes)
            && (a.Release? ==> r.threads == s.threads)
            && (a == Run(t) ==> r == RunThread(s, t))
  {
    if a == Run(t) {
      EachTurnGoesOn(s, t);
    } else if a.n < |s.nodes| {
      ReleaseKeepsCourse(s, t, a.n);
      ReleaseKeepsPointers(s, a.n);
    }
    hide Inv;
  }

  lemma QuietWalkStep(s: State, t: nat, c: nat, a: Action)
    requires Inv(s) && OnCourseIn(s, t) && Walks(s.threads[t].pc) && s.threads[t].cur == Some(c)
    requires a == Run(t) || a.Release?
    ensures var r := Acted(s, a);
            c < |s.info| && t < |r.threads|
            && ((Walks(r.threads[t].pc) && r.threads[t].cur == Some(c)) || EndsAtFirst(s, r, t, c))
  {
    QuietStep(s, t, a);
    Standing(s, t);
    if a == Run(t) {
      EachTurnGoesOn(s, t);
    }
    hide Inv, RunThread, OnCourse, Rank, Acted, FirstUnsignaled;
  }

  lemma EndIsShared(s: State, r: State, x: State, t: nat, c: nat)
    requires Inv(s) && Inv(r) && r.info == s.info && r.signaled == s.signaled && c < |s.info|
    ensures EndsAtFirst(r, x, t, c) <==> EndsAtFirst(s, x, t, c)
  {
    hide Inv, FirstUnsignaled;
  }

  lemma RestIsQuiet(t: nat, actions: seq<Action>)
    requires Quiet(t, actions) && Turns(t, actions) > 0
    ensures actions != [] && (actions[0] == Run(t) || actions[0].Release?) && Quiet(t, actions[1..])
    ensures Turns(t, actions) == (if actions[0] == Run(t) then 1 else 0) + Turns(t, actions[1..])
  {
  }

  lemma StillThere(s: State, actions: seq<Action>)
    requires Inv(s)
    ensures After(s, actions[..0]) == s
  {
  }

  /** A walk that is left alone ends, and returns the first member below that has not signalled;
      the node that it left points to it. Releases may go on meanwhile. */
  lemma {:induction false} QuietWalkEnds(s: State, t: nat, c: nat, actions: seq<Action>) returns (k: nat)
    requires Inv(s) && t < |s.threads| && OnCourseIn(s, t) && Walks(s.threads[t].pc) && s.threads[t].cur == Some(c)
    requires Quiet(t, actions) && Turns(t, actions) >= Rank(s.threads[t], s.nodes)
    ensures k <= |actions| && c < |s.info| && EndsAtFirst(s, After(s, actions[..k]), t, c)
    decreases |actions|
  {
    hide *;
    WalksIsNotEnded(s.threads[t].pc);
    RankIsPositive(s.threads[t], s.nodes);
    RestIsQuiet(t, actions);
    QuietStep(s, t, actions[0]);
    QuietWalkStep(s, t, c, actions[0]);
    var r := Acted(s, actions[0]);
    if EndsAtFirst(s, r, t, c) {
      k := 1;
      StillThere(r, actions[1..]);
    } else {
      k := QuietWalkEnds(r, t, c, actions[1..]);
      EndIsShared(s, r, After(r, actions[1..][..k]), t, c);
      k := k + 1;
    }
    Unroll(s, actions, k);
  }

  /** A lookup that is left alone ends; what it has found then is ChainRuns.LookupIsRight. */
  lemma {:induction false} QuietLookupEnds(s: State, t: nat, actions: seq<Action>) returns (k: nat)
    requires Inv(s) && t < |s.threads| && OnCourseIn(s, t)
    requires Quiet(t, actions) && Turns(t, actions) >= Rank(s.threads[t], s.nodes)
    ensures k <= |actions| && t < |After(s, actions[..k]).threads| && Ended(After(s, actions[..k]).threads[t].pc)
    decreases |actions|
  {
    hide *;
    if Ended(s.threads[t].pc) {
      k := 0;
      StillThere(s, actions);
    } else {
      RankIsPositive(s.threads[t], s.nodes);
      RestIsQuiet(t, actions);
      QuietStep(s, t, actions[0]);
      k := QuietLookupEnds(Acted(s, actions[0]), t, actions[1..]);
      k := k + 1;
      Unroll(s, actions, k);
    }
  }

  lemma WalksIsNotEnded(pc: PC)
    ensures Walks(pc) ==> !Ended(pc)
  {
  }

  lemma RankIsPositive(th: Thread, nodes: seq<Node>)
    requires !Ended(th.pc)
    ensures Rank(th, nodes) > 0
  {
    hide Span;
    assert Span(|nodes|) >= 2 by { SpanIsLarge(|nodes|); }
  }

  lemma SpanIsLarge(nodes: nat)
    ensures Span(nodes) >= 32
  {
  }

  lemma RankIsBounded(th: Thread, nodes: seq<Node>)
    requires Below(th.cur) <= |nodes| && Below(PrevOf(nodes, th.cur)) <= |nodes|
    ensures Rank(th, nodes) <= Span(|nodes|) * (|nodes| + 1)
  {
    var m := Span(|nodes|);
    assert m * Below(th.cur) <= m * |nodes|;
    assert m * (|nodes| + 1) == m * |nodes| + m;
  }

  /** What an idle thread holds is alive and points down. */
  lemma HeadIsAlive(s: State, t: nat)
    requires Inv(s) && IdleWith(s, t)
    ensures var th, c := s.threads[t], s.threads[t].cur.value;
            && c < |s.nodes| == |s.info| && Below(PrevOf(s.nodes, th.cur)) <= |s.nodes|
            && (!s.info[c].chain ==> s.nodes[c].prev.None?) && (s.nodes[c].prev.None? ==> th.prv.None?)
  {
    var th := s.threads[t];
    assert Owns(th, s.nodes) && ThreadOk(s.info, s.signaled, th);
    assert NodeOk(s.info, s.nodes, th.cur.value);
    PrevIsCounted(s, th.cur.value);
  }

  function Begun(s: State, t: nat): (r: Thread)
    requires IdleWith(s, t) && s.threads[t].cur.value < |s.info|
  {
    s.threads[t].(goal := JustWalk, pc := if s.info[s.threads[t].cur.value].chain then Read(OfCur) else PutCur)
  }

  lemma BegunIsOnCourse(s: State, t: nat)
    requires Inv(s) && IdleWith(s, t)
    ensures s.threads[t].cur.value < |s.info| && OnCourse(Begun(s, t), s.info, s.nodes, s.signaled)
    ensures Walks(Begun(s, t).pc) && Begun(s, t).cur == s.threads[t].cur
    ensures Below(s.threads[t].cur) <= |s.nodes| && Below(PrevOf(s.nodes, s.threads[t].cur)) <= |s.nodes|
  {
    HeadIsAlive(s, t);
    hide Inv;
  }

  lemma WalkMoves(s: State, t: nat)
    requires Inv(s) && IdleWith(s, t) && s.threads[t].cur.value < |s.info|
    ensures var r := Next(s, Walk(t));
            && Inv(r) && r.info == s.info && r.signaled == s.signaled && r.nodes == s.nodes
            && t < |r.threads| && r.threads[t] == Begun(s, t)
            && (OnCourse(Begun(s, t), s.info, s.nodes, s.signaled) ==> OnCourseIn(r, t))
  {
    NextKeepsInv(s, Walk(t));
    hide Inv, OnCourse, RunThread, RunRelease;
  }

  lemma LookupMoves(s: State, t: nat, request: nat)
    requires Inv(s) && Enabled(s, Lookup(t, request))
    ensures var r, c := Next(s, Lookup(t, request)), s.threads[t].cur;
            && Inv(r) && |r.nodes| == |s.nodes| && PrevOf(r.nodes, c) == PrevOf(s.nodes, c)
            && t < |r.threads| && r.threads[t].cur == c && r.threads[t].pc.FindTest? && OnCourseIn(r, t)
  {
    NextKeepsInv(s, Lookup(t, request));
    hide Inv, RunThread, RunRelease;
  }

  /** Where operations begin, nothing has been read yet. */
  lemma WalkBegins(s: State, t: nat)
    requires Inv(s) && IdleWith(s, t)
    ensures var r := Next(s, Walk(t));
            && Inv(r) && r.info == s.info && r.signaled == s.signaled && |r.nodes| == |s.nodes|
            && t < |r.threads| && OnCourseIn(r, t) && Walks(r.threads[t].pc) && r.threads[t].cur == s.threads[t].cur
            && Rank(r.threads[t], r.nodes) <= Span(|s.nodes|) * (|s.nodes| + 1)
  {
    hide *;
    BegunIsOnCourse(s, t);
    WalkMoves(s, t);
    RankIsBounded(Begun(s, t), s.nodes);
  }

  lemma LookupBegins(s: State, t: nat, request: nat)
    requires Inv(s) && Enabled(s, Lookup(t, request))
    ensures var r := Next(s, Lookup(t, request));
            && Inv(r) && |r.nodes| == |s.nodes| && t < |r.threads| && OnCourseIn(r, t)
            && Rank(r.threads[t], r.nodes) <= Span(|s.nodes|) * (|s.nodes| + 1)
  {
    BegunIsOnCourse(s, t);
    LookupMoves(s, t, request);
    hide Inv, Next, Rank, OnCourse, Span, PrevOf, Begun;
    RankIsBounded(Next(s, Lookup(t, request)).threads[t], Next(s, Lookup(t, request)).nodes);
  }

  lemma AfterFirst(s: State, a: Action, rest: seq<Action>)
    requires Inv(s) && Enabled(s, a) && Inv(Next(s, a))
    ensures After(s, [a] + rest) == After(Next(s, a), rest)
  {
    hide Inv, Enabled, Next;
    assert ([a] + rest)[1..] == rest;
  }

  lemma MayWalk(s: State, t: nat)
    requires IdleWith(s, t)
    ensures Enabled(s, Walk(t)) && t < |s.threads| && s.threads[t].cur.Some?
  {
  }

  /** In every state that threads can reach: a walk that nobody disturbs from then on returns the
      first member below that has not signalled, or NULL, and cuts the others out. */
  lemma QuietWalk(threads: nat, before: seq<Action>, t: nat, actions: seq<Action>) returns (k: nat)
    requires IdleWith(StateAfter(threads, before), t) && Quiet(t, actions)
    requires var n := |StateAfter(threads, before).nodes|; Turns(t, actions) >= Span(n) * (n + 1)
    ensures k <= |actions|
    ensures var s := StateAfter(threads, before);
            var c := s.threads[t].cur.value;
            c < |s.info| && EndsAtFirst(s, After(s, [Walk(t)] + actions[..k]), t, c)
  {
    var s := StateAfter(threads, before);
    MayWalk(s, t);
    hide *;
    WalkBegins(s, t);
    var r := Next(s, Walk(t));
    k := QuietWalkEnds(r, t, s.threads[t].cur.value, actions);
    AfterFirst(s, Walk(t), actions[..k]);
    EndIsShared(s, r, After(r, actions[..k]), t, s.threads[t].cur.value);
  }

  /** And such a lookup ends. */
  lemma QuietLookup(threads: nat, before: seq<Action>, t: nat, request: nat, actions: seq<Action>) returns (k: nat)
    requires Enabled(StateAfter(threads, before), Lookup(t, request)) && Quiet(t, actions)
    requires var n := |StateAfter(threads, before).nodes|; Turns(t, actions) >= Span(n) * (n + 1)
    ensures k <= |actions|
    ensures var r := After(StateAfter(threads, before), [Lookup(t, request)] + actions[..k]);
            t < |r.threads| && Ended(r.threads[t].pc)
  {
    hide *;
    var s := StateAfter(threads, before);
    LookupBegins(s, t, request);
    k := QuietLookupEnds(Next(s, Lookup(t, request)), t, actions);
    AfterFirst(s, Lookup(t, request), actions[..k]);
  }
}
