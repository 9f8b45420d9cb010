/** Any number of threads walking, looking up, extending and dropping the chains of one heap,
    one atomic access at a time, in any order (dma-fence-chain.c). */
module ChainWalk {
  import opened Fences
  import opened ChainTimeline
  import opened ChainHeap

  datatype State = State(info: seq<Info>, nodes: seq<Node>, threads: seq<Thread>,
                         signaled: set<nat>, nextContext: nat)

  /** Run: one access of thread t inside walk or find_seqno. Release: one access of the release
      of a dead node, by whichever thread dropped it. The rest start operations or are one
      themselves; InitChain takes the prev of thread t and the fence of thread u. */
  datatype Action =
    | Run(t: nat) | Release(n: nat)
    | Walk(t: nat) | Lookup(t: nat, request: nat)
    | Dup(t: nat, u: nat) | Drop(t: nat) | Signal(f: nat)
    | AllocContext | NewFence(t: nat, context: nat, seqno: nat)
    | InitChain(t: nat, u: nat, seqno: nat, stale: nat)

  // ------------------------------------------------------------ invariant

  /** Trimming has only taken signaled fences out of each live node's list. */
  ghost predicate TrimmedRight(info: seq<Info>, nodes: seq<Node>, signaled: set<nat>)
    requires WellFormed(info) && |nodes| == |info|
  {
    forall n :: 0 <= n < |nodes| && nodes[n].phase == Alive ==> Skip(info, info[n].orig, nodes[n].prev, signaled)
  }

  ghost predicate GoalOk(info: seq<Info>, signaled: set<nat>, th: Thread, c: Option<nat>)
    requires Timelines(info)
  {
    th.goal.Find? ==>
      && th.goal.head < |info| && info[th.goal.head].chain && info[th.goal.head].seqno >= th.goal.request
      && LookupAt(info, th.goal.head, th.goal.request, c, signaled)
  }

  ghost predicate WalkOk(info: seq<Info>, signaled: set<nat>, th: Thread)
    requires Timelines(info)
  {
    && th.cur.Some? && th.cur.value < |info|
    && th.base == (if th.goal.Find? then Some(th.goal.head) else None)
    && GoalOk(info, signaled, th, th.cur)
    && (th.goal.Find? ==> !StopsAt(info, th.goal.head, th.goal.request, th.cur.value))
  }

  /** prv lies below cur with only signaled fences between. */
  ghost predicate PrvOk(info: seq<Info>, signaled: set<nat>, th: Thread)
    requires Timelines(info) && Valid(info, th.cur)
  {
    && th.cur.Some? && th.prv.Some? && th.prv.value < |info|
    && Skip(info, info[th.cur.value].orig, th.prv, signaled)
  }

  ghost predicate Reading(info: seq<Info>, signaled: set<nat>, th: Thread, w: Which)
    requires Timelines(info)
  {
    && WalkOk(info, signaled, th) && info[th.cur.value].chain && th.nxt.None?
    && (if w.OfCur? then th.prv.None?
        else PrvOk(info, signaled, th) && info[th.prv.value].chain && info[th.prv.value].fence in signaled)
  }

  ghost predicate ThreadOk(info: seq<Info>, signaled: set<nat>, th: Thread)
    requires Timelines(info)
  {
    match th.pc
    case Idle => th.prv.None? && th.nxt.None? && th.tmp.None? && th.base.None?
    case Read(w) => th.tmp.None? && Reading(info, signaled, th, w)
    case Try(w, raw) => th.tmp.None? && raw < |info| && Reading(info, signaled, th, w)
    case Check(w) => th.tmp.Some? && Reading(info, signaled, th, w)
    case Miss(w) => th.tmp.Some? && Reading(info, signaled, th, w)
    case Test => WalkOk(info, signaled, th) && info[th.cur.value].chain
                 && PrvOk(info, signaled, th) && th.nxt.None? && th.tmp.None?
    case Swap => WalkOk(info, signaled, th) && info[th.cur.value].chain
                 && PrvOk(info, signaled, th) && th.tmp.None?
                 && info[th.prv.value].fence in signaled && Skip(info, th.prv, th.nxt, signaled)
    case PutNext => WalkOk(info, signaled, th) && info[th.cur.value].chain && th.prv.Some? && th.tmp.None?
    case PutPrev => WalkOk(info, signaled, th) && info[th.cur.value].chain && th.prv.Some? && th.nxt.None?
        && th.tmp.None?
    case PutCur => WalkOk(info, signaled, th) && Skip(info, info[th.cur.value].orig, th.prv, signaled)
                   && th.nxt.None? && th.tmp.None?
    case FindTest => th.goal.Find? && th.base == Some(th.goal.head) && th.cur.Some? && th.cur.value < |info|
                     && GoalOk(info, signaled, th, th.cur) && th.prv.None? && th.nxt.None? && th.tmp.None?
    case FindEnd => th.goal.Find? && th.base == Some(th.goal.head) && ResultOk(info, signaled, th)
                    && th.prv.None? && th.nxt.None? && th.tmp.None?
    case Found => th.goal.Find? && ResultOk(info, signaled, th)
                  && th.prv.None? && th.nxt.None? && th.tmp.None? && th.base.None?
  }

  ghost predicate ResultOk(info: seq<Info>, signaled: set<nat>, th: Thread)
    requires Timelines(info) && th.goal.Find?
  {
    && GoalOk(info, signaled, th, th.cur)
    && LookupDone(info, th.goal.head, th.goal.request, th.cur, signaled)
  }

  ghost predicate ThreadsOk(info: seq<Info>, signaled: set<nat>, threads: seq<Thread>)
    requires Timelines(info)
  {
    forall t :: 0 <= t < |threads| ==> ThreadOk(info, signaled, threads[t])
  }

  ghost predicate Inv(s: State) {
    && HeapOk(s.info, s.nodes, s.threads, None)
    && Timelines(s.info)
    && (forall n :: 0 <= n < |s.info| ==> s.info[n].context < s.nextContext)
    && TrimmedRight(s.info, s.nodes, s.signaled)
    && ThreadsOk(s.info, s.signaled, s.threads)
  }

  // ---------------------------------------------------------------- steps

  function Slot(th: Thread, w: Which): (r: Option<nat>) {
    if w.OfCur? then th.cur else th.prv
  }

  /** The end of a walk, on to what was found below, or past the end. */
  function AfterLast(th: Thread): (r: Thread) {
    th.(cur := th.prv, prv := None,
        pc := if th.goal.JustWalk? then Idle else if th.prv.Some? then FindTest else FindEnd)
  }

  /** One atomic access of a thread inside dma_fence_chain_walk or dma_fence_chain_find_seqno. */
  function RunThread(s: State, t: nat): (r: State)
    requires Inv(s) && t < |s.threads|
  {
    var th := s.threads[t];
    assert ThreadOk(s.info, s.signaled, th) && Owns(th, s.nodes);
    match th.pc
    case Idle => s
    case Read(w) =>
      var raw := s.nodes[Slot(th, w).value].prev;
      assert NodeOk(s.info, s.nodes, Slot(th, w).value);
      if raw.Some? then SetThread(s, t, th.(pc := Try(w, raw.value)))
      else SetThread(s, t, th.(pc := if w.OfCur? then PutCur else Swap))
    case Try(w, raw) =>
      if s.nodes[raw].rc > 0
      then SetThread(s, t, th.(tmp := Some(raw), pc := Check(w))).(nodes := Get(s.nodes, raw))
      else SetThread(s, t, th.(pc := Read(w)))
    case Check(w) =>
      if s.nodes[Slot(th, w).value].prev != th.tmp then SetThread(s, t, th.(pc := Miss(w)))
      else if w.OfCur? then SetThread(s, t, th.(prv := th.tmp, tmp := None, pc := Test))
      else SetThread(s, t, th.(nxt := th.tmp, tmp := None, pc := Swap))
    case Miss(w) =>
      PutSlot(s, t, th.(tmp := None, pc := Read(w)), th.tmp)
    case Test =>
      SetThread(s, t, th.(pc := if s.info[th.prv.value].fence !in s.signaled then PutCur
                                else if s.info[th.prv.value].chain then Read(OfPrv) else Swap))
    case Swap =>
      var c := th.cur.value;
      if s.nodes[c].prev == th.prv
      then SetThread(s, t, th.(nxt := th.prv, pc := PutNext)).(nodes := s.nodes[c := s.nodes[c].(prev := th.nxt)])
      else SetThread(s, t, th.(pc := PutNext))
    case PutNext => PutSlot(s, t, th.(nxt := None, pc := PutPrev), th.nxt)
    case PutPrev => PutSlot(s, t, th.(prv := None, pc := Read(OfCur)), th.prv)
    case PutCur => PutSlot(s, t, AfterLast(th), th.cur)
    case FindTest =>
      SetThread(s, t, th.(pc := if StopsAt(s.info, th.goal.head, th.goal.request, th.cur.value) then FindEnd
                                else Read(OfCur)))
    case FindEnd => PutSlot(s, t, th.(base := None, pc := Found), th.base)
    case Found => SetThread(s, t, th.(goal := JustWalk, pc := Idle))
  }

  function SetThread(s: State, t: nat, th: Thread): (r: State)
    requires t < |s.threads|
  {
    s.(threads := s.threads[t := th])
  }

  /** The thread lets go of x, which its new locals th no longer hold, and puts it. */
  function PutSlot(s: State, t: nat, th: Thread, x: Option<nat>): (r: State)
    requires Inv(s) && t < |s.threads|
    requires x.Some? ==> x.value < |s.nodes| && ThreadUses(s.threads[t], x.value) > 0
  {
    PutIsHeld(s, t, x);
    s.(threads := s.threads[t := th], nodes := Put(s.info, s.nodes, x))
  }

  lemma PutIsHeld(s: State, t: nat, x: Option<nat>)
    requires Inv(s) && t < |s.threads|
    requires x.Some? ==> x.value < |s.nodes| && ThreadUses(s.threads[t], x.value) > 0
    ensures x.Some? ==> s.nodes[x.value].rc > 0
  {
    if x.Some? {
      ThreadIsCounted(s.threads, t, x.value);
    }
  }

  /** One access of dma_fence_chain_release of node n. The two stores that splice a claimed node
      out are one step: the node that is released is dead and the claimed one has no other
      owner, so no thread can read either field in between. */
  function RunRelease(s: State, n: nat): (r: State)
    requires Inv(s) && n < |s.nodes|
  {
    var node := s.nodes[n];
    assert NodeOk(s.info, s.nodes, n);
    match node.phase
    case Loop =>
      if node.prev.Some? && s.nodes[node.prev.value].rc <= 1 && s.info[node.prev.value].chain
      then var p := node.prev.value;
           s.(nodes := Claim(s.nodes, n, p))
      else s.(nodes := s.nodes[n := node.(phase := DropPrev)])
    case Take(p) => s.(nodes := Splice(s.nodes, n, p))
    case Cut(p) => PutFromNode(s, n, node.(local := None, phase := Loop), node.local)
    case DropPrev => PutFromNode(s, n, node.(prev := None, phase := DropFence), node.prev)
    case DropFence => PutFromNode(s, n, node.(held := None, phase := Freed), node.held)
    case _ => s
  }

  function PutFromNode(s: State, n: nat, node: Node, x: Option<nat>): (r: State)
    requires Inv(s) && n < |s.nodes|
    requires x.Some? ==> x.value < |s.nodes| && x.value != n && NodeUses(s.nodes[n], x.value) > 0
  {
    NodePutIsHeld(s, n, x);
    s.(nodes := Put(s.info, s.nodes[n := node], x))
  }

  lemma NodePutIsHeld(s: State, n: nat, x: Option<nat>)
    requires Inv(s) && n < |s.nodes|
    requires x.Some? ==> x.value < |s.nodes| && NodeUses(s.nodes[n], x.value) > 0
    ensures x.Some? ==> s.nodes[x.value].rc > 0
  {
    if x.Some? {
      NodeIsCounted(s.nodes, n, x.value);
    }
  }

  function NoThread(): (r: Thread) {
    Thread(Idle, JustWalk, None, None, None, None, None)
  }

  predicate IdleWith(s: State, t: nat) {
    t < |s.threads| && s.threads[t].pc == Idle && s.threads[t].cur.Some?
  }

  predicate IdleWithout(s: State, t: nat) {
    t < |s.threads| && s.threads[t].pc == Idle && s.threads[t].cur.None?
  }

  /** When the action may start. find_seqno returns at once for request 0, for a head that is
      not a chain and for a head older than the request. */
  predicate Enabled(s: State, a: Action) {
    match a
    case Run(t) => t < |s.threads|
    case Release(n) => n < |s.nodes|
    case Walk(t) => IdleWith(s, t)
    case Lookup(t, request) =>
      IdleWith(s, t) && request > 0 && s.threads[t].cur.value < |s.info|
      && s.info[s.threads[t].cur.value].chain && s.info[s.threads[t].cur.value].seqno >= request
    case Dup(t, u) => t != u && IdleWith(s, t) && IdleWithout(s, u)
    case Drop(t) => IdleWith(s, t)
    case Signal(f) => f < |s.info|
    case AllocContext => true
    case NewFence(t, context, seqno) => IdleWithout(s, t) && context < s.nextContext
    case InitChain(t, u, seqno, stale) => t != u && t < |s.threads| && s.threads[t].pc == Idle && IdleWith(s, u)
  }

  function Next(s: State, a: Action): (r: State)
    requires Inv(s) && Enabled(s, a)
  {
    match a
    case Run(t) => RunThread(s, t)
    case Release(n) => RunRelease(s, n)
    case Walk(t) =>
      assert Owns(s.threads[t], s.nodes);
      SetThread(s, t, s.threads[t].(goal := JustWalk,
                                    pc := if s.info[s.threads[t].cur.value].chain then Read(OfCur) else PutCur))
    case Lookup(t, request) =>
      var head := s.threads[t].cur.value;
      SetThread(s, t, s.threads[t].(goal := Find(head, request), base := Some(head), pc := FindTest))
        .(nodes := Get(s.nodes, head))
    case Dup(t, u) =>
      assert Owns(s.threads[t], s.nodes);
      SetThread(s, u, s.threads[u].(cur := s.threads[t].cur)).(nodes := Get(s.nodes, s.threads[t].cur.value))
    case Drop(t) =>
      assert Owns(s.threads[t], s.nodes);
      PutSlot(s, t, s.threads[t].(cur := None), s.threads[t].cur)
    case Signal(f) => s.(signaled := s.signaled + {f})
    case AllocContext => s.(nextContext := s.nextContext + 1)
    case NewFence(t, context, seqno) => AddNode(s, t, Info(false, context, seqno, 0, None, |s.info|), None)
    case InitChain(t, u, seqno, stale) => StartChain(s, t, u, seqno, stale)
  }

  /** A new fence, held by thread t. */
  function AddNode(s: State, t: nat, info: Info, held: Option<nat>): (r: State)
    requires t < |s.threads|
  {
    State(s.info + [info], s.nodes + [Node(1, info.orig, held, None, Alive)],
          s.threads[t := s.threads[t].(cur := Some(|s.info|))], s.signaled,
          if info.context == s.nextContext then s.nextContext + 1 else s.nextContext)
  }

  /** dma_fence_chain_init takes over the caller's references on prev and fence. */
  function StartChain(s: State, t: nat, u: nat, seqno: nat, stale: nat): (r: State)
    requires Inv(s) && Enabled(s, InitChain(t, u, seqno, stale))
  {
    assert Owns(s.threads[t], s.nodes) && Owns(s.threads[u], s.nodes);
    var f := s.threads[u].cur.value;
    AddNode(SetThread(s, u, s.threads[u].(cur := None)), t,
            InitInfo(s.info, s.threads[t].cur, f, seqno, stale, s.nextContext), Some(f))
  }
}
