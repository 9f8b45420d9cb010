/** Every step of every thread keeps the invariant. */
module ChainWalkInv {
  import opened Fences
  import opened ChainTimeline
  import opened ChainHeap
  import opened ChainWalk

  // ----------------------------------------------------- what is constant

  lemma ThreadOkIsStable(info: seq<Info>, signaled: set<nat>, info': seq<Info>, signaled': set<nat>, th: Thread)
    requires Timelines(info) && Timelines(info') && info <= info' && signaled <= signaled'
    requires ThreadOk(info, signaled, th)
    ensures ThreadOk(info', signaled', th)
  {
    if th.cur.Some? && th.cur.value < |info| && Skip(info, info[th.cur.value].orig, th.prv, signaled) {
      SkipIsStable(info, info[th.cur.value].orig, th.prv, signaled, info', signaled');
    }
    if th.prv.Some? && th.prv.value < |info| && Skip(info, th.prv, th.nxt, signaled) {
      SkipIsStable(info, th.prv, th.nxt, signaled, info', signaled');
    }
    if th.goal.Find? && th.goal.head < |info| && LookupAt(info, th.goal.head, th.goal.request, th.cur, signaled) {
      LookupIsStable(info, info', th.goal.head, th.goal.request, th.cur, signaled, signaled');
    }
  }

  lemma TrimmedRightIsStable(info: seq<Info>, nodes: seq<Node>, signaled: set<nat>, info': seq<Info>,
                             signaled': set<nat>)
    requires WellFormed(info) && |nodes| == |info| && TrimmedRight(info, nodes, signaled)
    requires WellFormed(info') && info <= info' && signaled <= signaled'
    ensures forall n :: 0 <= n < |nodes| && nodes[n].phase == Alive ==>
            Skip(info', info'[n].orig, nodes[n].prev, signaled')
  {
    forall n | 0 <= n < |nodes| && nodes[n].phase == Alive
      ensures Skip(info', info'[n].orig, nodes[n].prev, signaled')
    {
      SkipIsStable(info, info[n].orig, nodes[n].prev, signaled, info', signaled');
    }
  }

  lemma TrimmedRightWithout(info: seq<Info>, nodes: seq<Node>, nodes': seq<Node>, signaled: set<nat>)
    requires WellFormed(info) && |nodes'| == |nodes| == |info| && TrimmedRight(info, nodes, signaled)
    requires forall n :: 0 <= n < |nodes| && nodes'[n].phase == Alive ==>
               nodes[n].phase == Alive && nodes'[n].prev == nodes[n].prev
    ensures TrimmedRight(info, nodes', signaled)
  {
  }

  lemma SameThreadsElsewhere(s: State, t: nat, th: Thread)
    requires Inv(s) && t < |s.threads| && ThreadOk(s.info, s.signaled, th)
    ensures ThreadsOk(s.info, s.signaled, s.threads[t := th])
  {
  }

  // -------------------------------------------------------- thread steps

  /** A thread moves references between its locals. */
  lemma MoveKeepsInv(s: State, t: nat, th: Thread)
    requires Inv(s) && t < |s.threads|
    requires Owns(th, s.nodes) && ThreadOk(s.info, s.signaled, th)
    requires forall x :: ThreadUses(th, x) == ThreadUses(s.threads[t], x)
    ensures Inv(SetThread(s, t, th))
  {
    SetThreadKeepsHeap(s.info, s.nodes, s.threads, t, th, None, None);
    SameThreadsElsewhere(s, t, th);
  }

  lemma PutSlotKeepsInv(s: State, t: nat, th: Thread, x: Option<nat>)
    requires Inv(s) && t < |s.threads|
    requires x.Some? ==> x.value < |s.nodes| && ThreadUses(s.threads[t], x.value) > 0
    requires Owns(th, s.nodes) && ThreadOk(s.info, s.signaled, th)
    requires forall y :: ThreadUses(th, y) + Is(x, y) == ThreadUses(s.threads[t], y)
    ensures Inv(PutSlot(s, t, th, x))
  {
    SetThreadKeepsHeap(s.info, s.nodes, s.threads, t, th, None, x);
    PutKeepsHeap(s.info, s.nodes, s.threads[t := th], x);
    SameThreadsElsewhere(s, t, th);
    TrimmedRightWithout(s.info, s.nodes, Put(s.info, s.nodes, x), s.signaled);
  }

  lemma GetKeepsHeapOfThread(s: State, t: nat, th: Thread, x: nat)
    requires HeapOk(s.info, s.nodes, s.threads, None)
    requires t < |s.threads| && x < |s.nodes| && s.nodes[x].rc > 0 && Owns(th, s.nodes)
    requires forall y :: ThreadUses(th, y) == ThreadUses(s.threads[t], y) + Is(Some(x), y)
    ensures HeapOk(s.info, Get(s.nodes, x), s.threads[t := th], None)
  {
    GetKeepsHeap(s.info, s.nodes, s.threads, x);
    GetKeepsOwns(th, s.nodes, x);
    SetThreadKeepsHeap(s.info, Get(s.nodes, x), s.threads, t, th, Some(x), None);
  }

  lemma GetKeepsInv(s: State, t: nat, th: Thread, x: nat)
    requires Inv(s) && t < |s.threads| && x < |s.nodes| && s.nodes[x].rc > 0
    requires Owns(th, s.nodes) && ThreadOk(s.info, s.signaled, th)
    requires forall y :: ThreadUses(th, y) == ThreadUses(s.threads[t], y) + Is(Some(x), y)
    ensures Inv(SetThread(s, t, th).(nodes := Get(s.nodes, x)))
  {
    GetKeepsHeapOfThread(s, t, th, x);
    SameThreadsElsewhere(s, t, th);
    TrimmedRightWithout(s.info, s.nodes, Get(s.nodes, x), s.signaled);
  }

  lemma ReadKeepsInv(s: State, t: nat)
    requires Inv(s) && t < |s.threads| && s.threads[t].pc.Read?
    ensures Inv(RunThread(s, t))
  {
    var th := s.threads[t];
    var w := th.pc.w;
    assert ThreadOk(s.info, s.signaled, th) && Owns(th, s.nodes);
    var x := Slot(th, w).value;
    assert NodeOk(s.info, s.nodes, x);
    var raw := s.nodes[x].prev;
    var pc := if raw.Some? then Try(w, raw.value) else if w.OfCur? then PutCur else Swap;
    if raw.None? && w.OfPrv? {
      assert Skip(s.info, s.info[x].orig, None, s.signaled);
    }
    MoveKeepsInv(s, t, th.(pc := pc));
  }

  lemma TryKeepsInv(s: State, t: nat)
    requires Inv(s) && t < |s.threads| && s.threads[t].pc.Try?
    ensures Inv(RunThread(s, t))
  {
    var th := s.threads[t];
    var raw := th.pc.raw;
    assert ThreadOk(s.info, s.signaled, th) && Owns(th, s.nodes);
    if s.nodes[raw].rc > 0 {
      GetKeepsInv(s, t, th.(tmp := Some(raw), pc := Check(th.pc.w)), raw);
    } else {
      MoveKeepsInv(s, t, th.(pc := Read(th.pc.w)));
    }
  }

  lemma CheckKeepsInv(s: State, t: nat)
    requires Inv(s) && t < |s.threads| && s.threads[t].pc.Check?
    ensures Inv(RunThread(s, t))
  {
    var th := s.threads[t];
    assert ThreadOk(s.info, s.signaled, th) && Owns(th, s.nodes);
    if s.nodes[Slot(th, th.pc.w).value].prev != th.tmp {
      MoveKeepsInv(s, t, th.(pc := Miss(th.pc.w)));
    } else {
      ConfirmedKeepsInv(s, t);
    }
  }

  /** The reference is where it was read, so it may be used. */
  lemma ConfirmedKeepsInv(s: State, t: nat)
    requires Inv(s) && t < |s.threads| && s.threads[t].pc.Check?
    requires var th := s.threads[t];
             Owns(th, s.nodes) && ThreadOk(s.info, s.signaled, th) && s.nodes[Slot(th, th.pc.w).value].prev == th.tmp
    ensures Inv(RunThread(s, t))
  {
    var th := s.threads[t];
    var x := Slot(th, th.pc.w).value;
    assert NodeOk(s.info, s.nodes, x);
    assert Skip(s.info, s.info[x].orig, th.tmp, s.signaled);
    MoveKeepsInv(s, t, if th.pc.w.OfCur? then th.(prv := th.tmp, tmp := None, pc := Test)
                       else th.(nxt := th.tmp, tmp := None, pc := Swap));
  }

  lemma TestKeepsInv(s: State, t: nat)
    requires Inv(s) && t < |s.threads| && s.threads[t].pc.Test?
    ensures Inv(RunThread(s, t))
  {
    var th := s.threads[t];
    assert ThreadOk(s.info, s.signaled, th) && Owns(th, s.nodes);
    var p := th.prv.value;
    MoveKeepsInv(s, t, th.(pc := if s.info[p].fence !in s.signaled then PutCur
                                 else if s.info[p].chain then Read(OfPrv) else Swap));
  }

  /** The cmpxchg: on success the new pointer passes over a signaled fence only, and the
      references of the old and the new pointer change places. */
  lemma SwapKeepsInv(s: State, t: nat)
    requires Inv(s) && t < |s.threads| && s.threads[t].pc.Swap?
    ensures Inv(RunThread(s, t))
  {
    var th := s.threads[t];
    assert ThreadOk(s.info, s.signaled, th) && Owns(th, s.nodes);
    var c := th.cur.value;
    if s.nodes[c].prev == th.prv {
      var th' := th.(nxt := th.prv, pc := PutNext);
      var nodes' := s.nodes[c := s.nodes[c].(prev := th.nxt)];
      SwapKeepsHeap(s, t, c, th', nodes');
      SkipTransitive(s.info, s.info[c].orig, th.prv, th.nxt, s.signaled);
      assert TrimmedRight(s.info, nodes', s.signaled);
      assert ThreadOk(s.info, s.signaled, th');
      SameThreadsElsewhere(s, t, th');
      assert RunThread(s, t) == SetThread(s, t, th').(nodes := nodes');
    } else {
      MoveKeepsInv(s, t, th.(pc := PutNext));
    }
  }

  lemma SwapKeepsHeap(s: State, t: nat, c: nat, th': Thread, nodes': seq<Node>)
    requires Inv(s) && t < |s.threads| && s.threads[t].pc.Swap? && s.threads[t].cur == Some(c)
    requires c < |s.nodes| && s.nodes[c].prev == s.threads[t].prv
    requires th' == s.threads[t].(nxt := s.threads[t].prv, pc := PutNext)
    requires nodes' == s.nodes[c := s.nodes[c].(prev := s.threads[t].nxt)]
    ensures HeapOk(s.info, nodes', s.threads[t := th'], None)
  {
    var th := s.threads[t];
    assert ThreadOk(s.info, s.signaled, th) && Owns(th, s.nodes);
    SkipGoesDown(s.info, th.prv, th.nxt, s.signaled);
    SkipGoesDown(s.info, s.info[c].orig, th.prv, s.signaled);
    assert NodeOk(s.info, s.nodes, c);
    var without := s.nodes[c := s.nodes[c].(prev := None)];
    SetPrevKeepsHeap(s.info, s.nodes, s.threads, c, None, None, th.prv);
    SetThreadKeepsHeap(s.info, without, s.threads, t, th', th.prv, th.nxt);
    SetPrevKeepsHeap(s.info, without, s.threads[t := th'], c, th.nxt, th.nxt, None);
    assert nodes' == without[c := without[c].(prev := th.nxt)];
  }

  lemma WalkPutsKeepInv(s: State, t: nat)
    requires Inv(s) && t < |s.threads| && (s.threads[t].pc.PutNext? || s.threads[t].pc.PutPrev?)
    ensures Inv(RunThread(s, t))
  {
    var th := s.threads[t];
    assert ThreadOk(s.info, s.signaled, th) && Owns(th, s.nodes);
    if th.pc.PutNext? {
      PutSlotKeepsInv(s, t, th.(nxt := None, pc := PutPrev), th.nxt);
    } else {
      PutSlotKeepsInv(s, t, th.(prv := None, pc := Read(OfCur)), th.prv);
    }
  }

  lemma MissKeepsInv(s: State, t: nat)
    requires Inv(s) && t < |s.threads| && s.threads[t].pc.Miss?
    ensures Inv(RunThread(s, t))
  {
    var th := s.threads[t];
    assert ThreadOk(s.info, s.signaled, th) && Owns(th, s.nodes);
    PutSlotKeepsInv(s, t, th.(tmp := None, pc := Read(th.pc.w)), th.tmp);
  }

  lemma FindEndKeepsInv(s: State, t: nat)
    requires Inv(s) && t < |s.threads| && s.threads[t].pc.FindEnd?
    ensures Inv(RunThread(s, t))
  {
    var th := s.threads[t];
    assert ThreadOk(s.info, s.signaled, th) && Owns(th, s.nodes);
    PutSlotKeepsInv(s, t, th.(base := None, pc := Found), th.base);
  }

  lemma LastIsOk(info: seq<Info>, signaled: set<nat>, th: Thread)
    requires Timelines(info) && ThreadOk(info, signaled, th) && th.pc.PutCur? && Valid(info, th.prv)
    ensures ThreadOk(info, signaled, AfterLast(th))
  {
    hide LookupAt, Skip, Timelines;
    if th.goal.Find? {
      LookupSteps(info, th.goal.head, th.goal.request, th.cur.value, th.prv, signaled);
    }
  }

  /** It lets go of its node only. */
  lemma LastLetsGo(th: Thread, y: nat)
    ensures ThreadUses(AfterLast(th), y) + Is(th.cur, y) == ThreadUses(th, y)
  {
  }

  lemma PutCurKeepsInv(s: State, t: nat)
    requires Inv(s) && t < |s.threads| && s.threads[t].pc.PutCur?
    ensures Inv(RunThread(s, t))
  {
    var th := s.threads[t];
    assert ThreadOk(s.info, s.signaled, th) && Owns(th, s.nodes);
    LastIsOk(s.info, s.signaled, th);
    forall y: nat ensures ThreadUses(AfterLast(th), y) + Is(th.cur, y) == ThreadUses(th, y) {
      LastLetsGo(th, y);
    }
    PutSlotKeepsInv(s, t, AfterLast(th), th.cur);
  }

  lemma FindTestKeepsInv(s: State, t: nat)
    requires Inv(s) && t < |s.threads| && s.threads[t].pc.FindTest?
    ensures Inv(RunThread(s, t))
  {
    var th := s.threads[t];
    assert ThreadOk(s.info, s.signaled, th) && Owns(th, s.nodes);
    var c := th.cur.value;
    if StopsAt(s.info, th.goal.head, th.goal.request, c) {
      MoveKeepsInv(s, t, th.(pc := FindEnd));
    } else {
      GoesOnAtChains(s.info, th.goal.head, th.goal.request, c, s.signaled);
      MoveKeepsInv(s, t, th.(pc := Read(OfCur)));
    }
  }

  /** A fence of the head's context is a chain, so the loop may read its prev_seqno. */
  lemma GoesOnAtChains(info: seq<Info>, head: nat, request: nat, c: nat, signaled: set<nat>)
    requires Timelines(info) && head < |info| && info[head].chain && c < |info|
    requires LookupAt(info, head, request, Some(c), signaled) && info[c].context == info[head].context
    ensures info[c].chain
  {
    var t, f := Target(info, head, request), FirstOf(info, head);
    if Skip(info, Some(t), Some(c), signaled) {
      SkipWithinContext(info, t, Some(c), signaled);
    } else if Lost(info, head, request, Some(c), signaled) {
      assert TimelineAt(info, f);
      SkipGoesDown(info, info[f].orig, Some(c), signaled);
    }
  }

  lemma RunKeepsInv(s: State, t: nat)
    requires Inv(s) && t < |s.threads|
    ensures Inv(RunThread(s, t))
  {
    match s.threads[t].pc
    case Idle =>
    case Read(_) => ReadKeepsInv(s, t);
    case Try(_, _) => TryKeepsInv(s, t);
    case Check(_) => CheckKeepsInv(s, t);
    case Test => TestKeepsInv(s, t);
    case Swap => SwapKeepsInv(s, t);
    case PutCur => PutCurKeepsInv(s, t);
    case FindTest => FindTestKeepsInv(s, t);
    case Found =>
      assert ThreadOk(s.info, s.signaled, s.threads[t]) && Owns(s.threads[t], s.nodes);
      MoveKeepsInv(s, t, s.threads[t].(goal := JustWalk, pc := Idle));
    case Miss(_) => MissKeepsInv(s, t);
    case PutNext => WalkPutsKeepInv(s, t);
    case PutPrev => WalkPutsKeepInv(s, t);
    case FindEnd => FindEndKeepsInv(s, t);
  }

  // ------------------------------------------------------- release steps

  /** A dead node lets go of x. */
  lemma PutFromNodeKeepsHeap(info: seq<Info>, nodes: seq<Node>, threads: seq<Thread>, n: nat, node: Node,
                             x: Option<nat>)
    requires HeapOk(info, nodes, threads, None) && n < |nodes| && Dead(nodes[n]) && Dead(node)
    requires x.Some? ==> x.value < |nodes| && x.value != n && nodes[x.value].rc > 0
    requires NodeOk(info, nodes[n := node], n) && !node.phase.Take? && !node.phase.Cut?
    requires forall y :: NodeUses(node, y) + Is(x, y) == NodeUses(nodes[n], y)
    ensures HeapOk(info, Put(info, nodes[n := node], x), threads, None)
    ensures forall m :: 0 <= m < |nodes| && Put(info, nodes[n := node], x)[m].phase == Alive ==>
              nodes[m].phase == Alive && Put(info, nodes[n := node], x)[m].prev == nodes[m].prev
  {
    SetDeadNodeKeepsHeap(info, nodes, threads, n, node, x);
    PutKeepsHeap(info, nodes[n := node], threads, x);
    PutFromDeadKeepsAlive(info, nodes, n, node, x);
    hide HeapOk, NodeOk, Put;
  }

  lemma PutFromDeadKeepsAlive(info: seq<Info>, nodes: seq<Node>, n: nat, node: Node, x: Option<nat>)
    requires |nodes| == |info| && n < |nodes| && Dead(node)
    requires x.Some? ==> x.value < |nodes| && nodes[n := node][x.value].rc > 0
    ensures var r := Put(info, nodes[n := node], x);
            forall m :: 0 <= m < |nodes| && r[m].phase == Alive ==>
              nodes[m].phase == Alive && r[m].prev == nodes[m].prev
  {
  }

  lemma PutFromNodeKeepsInv(s: State, n: nat, node: Node, x: Option<nat>)
    requires Inv(s) && n < |s.nodes| && Dead(s.nodes[n]) && Dead(node)
    requires x.Some? ==> x.value < |s.nodes| && x.value != n && NodeUses(s.nodes[n], x.value) > 0
    requires NodeOk(s.info, s.nodes[n := node], n) && !node.phase.Take? && !node.phase.Cut?
    requires forall y :: NodeUses(node, y) + Is(x, y) == NodeUses(s.nodes[n], y)
    ensures Inv(PutFromNode(s, n, node, x))
  {
    NodePutIsHeld(s, n, x);
    PutFromNodeKeepsHeap(s.info, s.nodes, s.threads, n, node, x);
    TrimmedRightWithout(s.info, s.nodes, PutFromNode(s, n, node, x).nodes, s.signaled);
  }

  lemma LoopKeepsInv(s: State, n: nat)
    requires Inv(s) && n < |s.nodes| && s.nodes[n].phase == Loop
    ensures Inv(RunRelease(s, n))
  {
    var node := s.nodes[n];
    assert NodeOk(s.info, s.nodes, n);
    if node.prev.Some? && s.nodes[node.prev.value].rc <= 1 && s.info[node.prev.value].chain {
      ClaimKeepsHeap(s.info, s.nodes, s.threads, n, node.prev.value);
    } else {
      SetDeadNodeKeepsHeap(s.info, s.nodes, s.threads, n, node.(phase := DropPrev), None);
    }
  }

  lemma CutKeepsInv(s: State, n: nat)
    requires Inv(s) && n < |s.nodes| && s.nodes[n].phase.Cut?
    ensures Inv(RunRelease(s, n))
  {
    assert NodeOk(s.info, s.nodes, n);
    PutFromNodeKeepsInv(s, n, s.nodes[n].(local := None, phase := Loop), s.nodes[n].local);
  }

  lemma DropPrevKeepsInv(s: State, n: nat)
    requires Inv(s) && n < |s.nodes| && s.nodes[n].phase == DropPrev
    ensures Inv(RunRelease(s, n))
  {
    assert NodeOk(s.info, s.nodes, n);
    PutFromNodeKeepsInv(s, n, s.nodes[n].(prev := None, phase := DropFence), s.nodes[n].prev);
  }

  lemma DropFenceKeepsInv(s: State, n: nat)
    requires Inv(s) && n < |s.nodes| && s.nodes[n].phase == DropFence
    ensures Inv(RunRelease(s, n))
  {
    assert NodeOk(s.info, s.nodes, n);
    PutFromNodeKeepsInv(s, n, s.nodes[n].(held := None, phase := Freed), s.nodes[n].held);
  }

  lemma SpliceKeepsInv(s: State, n: nat)
    requires Inv(s) && n < |s.nodes| && s.nodes[n].phase.Take?
    ensures Inv(RunRelease(s, n))
  {
    assert NodeOk(s.info, s.nodes, n);
    SpliceKeepsHeap(s.info, s.nodes, s.threads, n, s.nodes[n].phase.p);
  }

  lemma ReleaseKeepsInv(s: State, n: nat)
    requires Inv(s) && n < |s.nodes|
    ensures Inv(RunRelease(s, n))
  {
    match s.nodes[n].phase
    case Loop => LoopKeepsInv(s, n);
    case Take(p) => SpliceKeepsInv(s, n);
    case Cut(_) => CutKeepsInv(s, n);
    case DropPrev => DropPrevKeepsInv(s, n);
    case DropFence => DropFenceKeepsInv(s, n);
    case _ =>
  }

  // -------------------------------------------------------- other actions

  lemma SignalKeepsInv(s: State, f: nat)
    requires Inv(s)
    ensures Inv(s.(signaled := s.signaled + {f}))
  {
    var signaled' := s.signaled + {f};
    TrimmedRightIsStable(s.info, s.nodes, s.signaled, s.info, signaled');
    forall t | 0 <= t < |s.threads|
      ensures ThreadOk(s.info, signaled', s.threads[t])
    {
      ThreadOkIsStable(s.info, s.signaled, s.info, signaled', s.threads[t]);
    }
  }

  lemma LookupKeepsInv(s: State, t: nat, request: nat)
    requires Inv(s) && Enabled(s, Lookup(t, request))
    ensures Inv(Next(s, Lookup(t, request)))
  {
    var th := s.threads[t];
    assert ThreadOk(s.info, s.signaled, th) && Owns(th, s.nodes);
    var head := th.cur.value;
    assert NodeOk(s.info, s.nodes, head);
    assert AboveTarget(s.info, head, request, Some(head));
    GetKeepsInv(s, t, th.(goal := Find(head, request), base := Some(head), pc := FindTest), head);
  }

  /** Appending a node that takes over the references its creator gave up. */
  lemma AddNodeKeepsInv(s: State, threads: seq<Thread>, t: nat, i: Info, held: Option<nat>)
    requires Inv(s) && t < |threads| == |s.threads|
    requires threads[t].pc == Idle && threads[t].cur == i.orig
    requires HeapOk(s.info, s.nodes, threads, held)
    requires forall u :: 0 <= u < |threads| ==> ThreadOk(s.info, s.signaled, threads[u])
    requires Timelines(s.info + [i]) && i.context <= s.nextContext
    requires AliveIn(s.nodes, held) && held == (if i.chain then Some(i.fence) else None)
    ensures Inv(AddNode(s.(threads := threads), t, i, held))
  {
    var s' := AddNode(s.(threads := threads), t, i, held);
    assert (s.info + [i])[|s.info|] == i;
    AppendKeepsHeap(s.info, s.nodes, threads, t, i, Node(1, i.orig, held, None, Alive));
    TrimmedRightIsStable(s.info, s.nodes, s.signaled, s'.info, s.signaled);
    forall u | 0 <= u < |s'.threads|
      ensures ThreadOk(s'.info, s'.signaled, s'.threads[u])
    {
      ThreadOkIsStable(s.info, s.signaled, s'.info, s.signaled, threads[u]);
    }
  }

  lemma InitChainKeepsInv(s: State, t: nat, u: nat, seqno: nat, stale: nat)
    requires Inv(s) && Enabled(s, InitChain(t, u, seqno, stale))
    ensures Inv(Next(s, InitChain(t, u, seqno, stale)))
  {
    var f := s.threads[u].cur;
    assert Owns(s.threads[t], s.nodes) && Owns(s.threads[u], s.nodes);
    assert ThreadOk(s.info, s.signaled, s.threads[u]) && ThreadOk(s.info, s.signaled, s.threads[t]);
    var i := InitInfo(s.info, s.threads[t].cur, f.value, seqno, stale, s.nextContext);
    InitKeepsTimelines(s.info, s.threads[t].cur, f.value, seqno, stale, s.nextContext);
    var threads := s.threads[u := s.threads[u].(cur := None)];
    SetThreadKeepsHeap(s.info, s.nodes, s.threads, u, threads[u], None, f);
    forall v | 0 <= v < |threads|
      ensures ThreadOk(s.info, s.signaled, threads[v])
    {
      assert ThreadOk(s.info, s.signaled, s.threads[v]);
    }
    AddNodeKeepsInv(s, threads, t, i, f);
  }

  lemma NewFenceKeepsInv(s: State, t: nat, context: nat, seqno: nat)
    requires Inv(s) && Enabled(s, NewFence(t, context, seqno))
    ensures Inv(Next(s, NewFence(t, context, seqno)))
  {
    PlainFenceKeepsTimelines(s.info, context, seqno);
    AddNodeKeepsInv(s, s.threads, t, Info(false, context, seqno, 0, None, |s.info|), None);
  }

  lemma WalkKeepsInv(s: State, t: nat)
    requires Inv(s) && Enabled(s, Walk(t))
    ensures Inv(Next(s, Walk(t)))
  {
    assert ThreadOk(s.info, s.signaled, s.threads[t]) && Owns(s.threads[t], s.nodes);
    var chain := s.info[s.threads[t].cur.value].chain;
    MoveKeepsInv(s, t, s.threads[t].(goal := JustWalk, pc := if chain then Read(OfCur) else PutCur));
  }

  lemma DupKeepsInv(s: State, t: nat, u: nat)
    requires Inv(s) && Enabled(s, Dup(t, u))
    ensures Inv(Next(s, Dup(t, u)))
  {
    assert Owns(s.threads[t], s.nodes) && Owns(s.threads[u], s.nodes);
    assert ThreadOk(s.info, s.signaled, s.threads[u]);
    var x := s.threads[t].cur.value;
    assert NodeOk(s.info, s.nodes, x);
    GetKeepsInv(s, u, s.threads[u].(cur := s.threads[t].cur), x);
  }

  lemma DropKeepsInv(s: State, t: nat)
    requires Inv(s) && Enabled(s, Drop(t))
    ensures Inv(Next(s, Drop(t)))
  {
    assert ThreadOk(s.info, s.signaled, s.threads[t]) && Owns(s.threads[t], s.nodes);
    PutSlotKeepsInv(s, t, s.threads[t].(cur := None), s.threads[t].cur);
  }

  lemma NextKeepsInv(s: State, a: Action)
    requires Inv(s) && Enabled(s, a)
    ensures Inv(Next(s, a))
  {
    match a
    case Run(t) => RunKeepsInv(s, t);
    case Release(n) => ReleaseKeepsInv(s, n);
    case Walk(t) => WalkKeepsInv(s, t);
    case Lookup(t, request) => LookupKeepsInv(s, t, request);
    case Dup(t, u) => DupKeepsInv(s, t, u);
    case Drop(t) => DropKeepsInv(s, t);
    case Signal(f) => SignalKeepsInv(s, f);
    case AllocContext =>
    case NewFence(t, context, seqno) => NewFenceKeepsInv(s, t, context, seqno);
    case InitChain(t, u, seqno, stale) => InitChainKeepsInv(s, t, u, seqno, stale);
  }
}
