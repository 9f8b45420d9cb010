/** What holds in every run of any number of threads over shared chains. */
module ChainRuns {
  import opened Fences
  import opened ChainTimeline
  import opened ChainHeap
  import opened ChainWalk
  import opened ChainWalkInv

  function Start(threads: nat): (r: State) {
    State([], [], seq(threads, _ => NoThread()), {}, 1)
  }

  lemma StartIsOk(threads: nat)
    ensures Inv(Start(threads))
  {
  }

  /** A run: the actions in the order in which the scheduler lets them happen. */
  function After(s: State, actions: seq<Action>): (r: State)
    requires Inv(s)
    ensures Inv(r)
    decreases |actions|
  {
    if actions == [] then s
    else if Enabled(s, actions[0])
    then NextKeepsInv(s, actions[0]); After(Next(s, actions[0]), actions[1..])
    else After(s, actions[1..])
  }

  function StateAfter(threads: nat, actions: seq<Action>): (r: State)
    ensures Inv(r)
  {
    StartIsOk(threads);
    After(Start(threads), actions)
  }

  predicate IsAlive(s: State, n: nat) {
    n < |s.nodes| && s.nodes[n].phase == Alive
  }

  /** The unsignaled contained fences that following the prev pointers from a finds now. */
  ghost function FoundByWalking(info: seq<Info>, nodes: seq<Node>, a: Option<nat>, signaled: set<nat>): (r: set<nat>)
    requires NodesOk(info, nodes) && Valid(info, a)
    decreases if a.Some? then a.value + 1 else 0
  {
    if a.None? then {}
    else
      assert NodeOk(info, nodes, a.value);
      ({info[a.value].fence} - signaled) + FoundByWalking(info, nodes, nodes[a.value].prev, signaled)
  }

  lemma {:induction false} WalkingFindsAll(s: State, a: Option<nat>)
    requires Inv(s) && AliveIn(s.nodes, a)
    ensures Valid(s.info, a)
    ensures FoundByWalking(s.info, s.nodes, a, s.signaled) == Unsignaled(s.info, a, s.signaled)
    decreases if a.Some? then a.value + 1 else 0
  {
    if a.Some? {
      assert NodeOk(s.info, s.nodes, a.value);
      SkipKeepsUnsignaled(s.info, s.info[a.value].orig, s.nodes[a.value].prev, s.signaled);
      WalkingFindsAll(s, s.nodes[a.value].prev);
    }
  }

  /** Trimming is sound in every interleaving: from a live node the prev pointers lead to exactly
      the unsignaled fences of the timeline as it was built. */
  lemma TrimmingIsSound(threads: nat, actions: seq<Action>, n: nat)
    requires IsAlive(StateAfter(threads, actions), n)
    ensures var s := StateAfter(threads, actions);
            FoundByWalking(s.info, s.nodes, Some(n), s.signaled) == Unsignaled(s.info, Some(n), s.signaled)
  {
    WalkingFindsAll(StateAfter(threads, actions), Some(n));
  }

  /** A fence with a reference anywhere: in a thread's locals, in the prev pointer or as the
      contained fence of a node. */
  ghost predicate Referenced(s: State, x: nat) {
    NodeRefs(s.nodes, x) + ThreadRefs(s.threads, x) > 0
  }

  /** References are conserved in every interleaving: each count is the number of pointers and
      locals that hold one, and whatever is referenced has not been freed. */
  lemma ReferencesAreConserved(threads: nat, actions: seq<Action>, x: nat)
    requires x < |StateAfter(threads, actions).nodes|
    ensures var s := StateAfter(threads, actions);
            && s.nodes[x].rc == NodeRefs(s.nodes, x) + ThreadRefs(s.threads, x)
            && (Referenced(s, x) <==> s.nodes[x].phase == Alive || s.nodes[x].phase.Doomed?)
  {
    var s := StateAfter(threads, actions);
    assert NodeOk(s.info, s.nodes, x);
  }

  /** What a thread can use, it can use safely: its handles and everything that walking from
      them reaches are alive. */
  lemma HandlesAreAlive(threads: nat, actions: seq<Action>, t: nat, n: nat)
    requires t < threads
    requires var s := StateAfter(threads, actions); t < |s.threads|
    ensures var s := StateAfter(threads, actions);
            var th := s.threads[t];
            && AliveIn(s.nodes, th.cur) && AliveIn(s.nodes, th.prv)
            && AliveIn(s.nodes, th.nxt) && AliveIn(s.nodes, th.base)
            && (IsAlive(s, n) ==> AliveIn(s.nodes, s.nodes[n].prev) && IsAlive(s, s.info[n].fence))
  {
    var s := StateAfter(threads, actions);
    assert Owns(s.threads[t], s.nodes);
    if IsAlive(s, n) {
      assert NodeOk(s.info, s.nodes, n);
    }
  }

  predicate Settled(phase: Phase) {
    phase.Alive? || phase.Doomed? || phase.Freed?
  }

  /** Nothing leaks: when no thread holds anything and no release is under way, every fence
      has been freed. */
  lemma NothingLeaks(threads: nat, actions: seq<Action>)
    requires var s := StateAfter(threads, actions);
             && (forall t :: 0 <= t < |s.threads| ==> s.threads[t].pc == Idle && s.threads[t].cur == None)
             && (forall n :: 0 <= n < |s.nodes| ==> Settled(s.nodes[n].phase))
    ensures var s := StateAfter(threads, actions);
            forall n :: 0 <= n < |s.nodes| ==> s.nodes[n].phase == Freed
  {
    var s := StateAfter(threads, actions);
    AllFreedFrom(s, 0);
  }

  lemma {:induction false} AllFreedFrom(s: State, m: nat)
    requires Inv(s) && m <= |s.nodes|
    requires forall t :: 0 <= t < |s.threads| ==> s.threads[t].pc == Idle && s.threads[t].cur == None
    requires forall n :: 0 <= n < |s.nodes| ==> Settled(s.nodes[n].phase)
    ensures forall n :: m <= n < |s.nodes| ==> s.nodes[n].phase == Freed
    decreases |s.nodes| - m
  {
    if m < |s.nodes| {
      AllFreedFrom(s, m + 1);
      FreedWhenUnused(s, m);
    }
  }

  /** With everything above it freed and no thread holding it, a fence has no references. */
  lemma FreedWhenUnused(s: State, m: nat)
    requires Inv(s) && m < |s.nodes| && Settled(s.nodes[m].phase)
    requires forall t :: 0 <= t < |s.threads| ==> s.threads[t].pc == Idle && s.threads[t].cur == None
    requires forall n :: m < n < |s.nodes| ==> s.nodes[n].phase == Freed
    ensures s.nodes[m].phase == Freed
  {
    forall i | 0 <= i < |s.nodes|
      ensures NodeUses(s.nodes[i], m) == 0
    {
      assert NodeOk(s.info, s.nodes, i);
    }
    forall t | 0 <= t < |s.threads|
      ensures ThreadUses(s.threads[t], m) == 0
    {
      assert ThreadOk(s.info, s.signaled, s.threads[t]);
    }
    NobodyUses(s.nodes, s.threads, m);
    assert NodeOk(s.info, s.nodes, m);
  }

  /** A finished dma_fence_chain_find_seqno returned 0 with a fence, or NULL, from which walking
      finds exactly the unsignaled fences of the oldest node of the head's context that is late
      enough. It does so unless the context's first node was initialised with a prev_seqno of at
      least the request left in its memory, and that node's own fence is unsignaled. It can
      then go past that node and find only what lies below it; when that node is the one that
      was asked for, it always does. Otherwise, if the node asked for has an unsignaled fence, that
      node is what it finds. */
  lemma LookupIsRight(threads: nat, actions: seq<Action>, t: nat)
    requires var s := StateAfter(threads, actions); t < |s.threads| && s.threads[t].pc == Found
    ensures var s := StateAfter(threads, actions);
            var th := s.threads[t];
            && th.goal.Find? && th.goal.head < |s.info| && Valid(s.info, th.cur)
            && var target := Target(s.info, th.goal.head, th.goal.request);
            && var first := FirstOf(s.info, th.goal.head);
            && var found := FoundByWalking(s.info, s.nodes, th.cur, s.signaled);
            && var lost := s.info[first].prevSeqno >= th.goal.request && s.info[first].fence !in s.signaled;
            && (!lost ==> found == Unsignaled(s.info, Some(target), s.signaled))
            && (lost && target == first ==>
                  && found == Unsignaled(s.info, s.info[first].orig, s.signaled)
                  && s.info[first].fence in Unsignaled(s.info, Some(target), s.signaled))
            && (found == Unsignaled(s.info, Some(target), s.signaled)
                || (&& lost
                    && Unsignaled(s.info, Some(target), s.signaled) == Unsignaled(s.info, Some(first), s.signaled)
                    && found == Unsignaled(s.info, s.info[first].orig, s.signaled)))
            && (s.info[target].fence !in s.signaled && !(lost && target == first) ==> th.cur == Some(target))
  {
    var s := StateAfter(threads, actions);
    var th := s.threads[t];
    assert ThreadOk(s.info, s.signaled, th) && Owns(th, s.nodes);
    LookupMeansTarget(s.info, th.goal.head, th.goal.request, th.cur, s.signaled);
    WalkingFindsAll(s, th.cur);
  }

  // ------------------------------------------------------- stale memory

  /** A thread that makes a fence, starts a context over memory that holds stale, and looks the
      new node up. */
  function StaleRun(seqno: nat, stale: nat): (actions: seq<Action>) {
    [NewFence(1, 0, 0)] + ([InitChain(0, 1, seqno, stale)] + LookupRun(seqno))
  }

  function LookupRun(seqno: nat): (actions: seq<Action>) {
    [Lookup(0, seqno)] + ([Run(0)] + ([Run(0)] + ([Run(0)] + ([Run(0)] + []))))
  }

  /** The shared part of the run: one fence, alone in a chain that starts a context. */
  predicate OneLink(s: State, seqno: nat, stale: nat) {
    && s.info == [Info(false, 0, 0, 0, None, 0), Info(true, 1, seqno, stale, None, 0)]
    && |s.nodes| == 2 && s.nodes[1].prev.None? && |s.threads| == 2 && s.signaled == {}
  }

  lemma Unfold(s: State, a: Action, rest: seq<Action>) returns (r: State)
    requires Inv(s) && Enabled(s, a)
    ensures r == Next(s, a) && Inv(r) && After(s, [a] + rest) == After(r, rest)
  {
    hide Inv, Next, Enabled;
    NextKeepsInv(s, a);
    r := Next(s, a);
    assert ([a] + rest)[1..] == rest;
  }

  lemma MakesTheChain(seqno: nat, stale: nat) returns (s: State)
    requires 0 < seqno
    ensures Inv(s) && StateAfter(2, StaleRun(seqno, stale)) == After(s, LookupRun(seqno))
    ensures OneLink(s, seqno, stale) && s.threads[0] == NoThread().(cur := Some(1))
  {
    s := MakesTheFence(seqno, stale);
    hide Inv;
    s := Unfold(s, InitChain(0, 1, seqno, stale), LookupRun(seqno));
  }

  lemma MakesTheFence(seqno: nat, stale: nat) returns (s: State)
    ensures Inv(s) && StateAfter(2, StaleRun(seqno, stale))
            == After(s, [InitChain(0, 1, seqno, stale)] + LookupRun(seqno))
    ensures s == State([Info(false, 0, 0, 0, None, 0)], [Node(1, None, None, None, Alive)],
                       [NoThread(), NoThread().(cur := Some(0))], {}, 1)
  {
    StartIsOk(2);
    hide Inv, After, LookupRun;
    s := Unfold(Start(2), NewFence(1, 0, 0), [InitChain(0, 1, seqno, stale)] + LookupRun(seqno));
    assert s.threads == [NoThread(), NoThread().(cur := Some(0))];
  }

  lemma PassesTheFirst(s: State, seqno: nat, stale: nat) returns (r: State)
    requires Inv(s) && 0 < seqno <= stale
    requires OneLink(s, seqno, stale) && s.threads[0] == NoThread().(cur := Some(1))
    ensures Inv(r) && After(s, LookupRun(seqno)) == After(r, [Run(0)] + ([Run(0)] + ([Run(0)] + [])))
    ensures OneLink(r, seqno, stale)
    ensures r.threads[0] == Thread(Read(OfCur), Find(1, seqno), Some(1), None, None, None, Some(1))
  {
    hide Inv;
    r := Unfold(s, Lookup(0, seqno), [Run(0)] + ([Run(0)] + ([Run(0)] + ([Run(0)] + []))));
    r := Unfold(r, Run(0), [Run(0)] + ([Run(0)] + ([Run(0)] + [])));
  }

  lemma FindsNull(s: State, seqno: nat, stale: nat)
    requires Inv(s) && OneLink(s, seqno, stale)
    requires s.threads[0] == Thread(Read(OfCur), Find(1, seqno), Some(1), None, None, None, Some(1))
    ensures var r := After(s, [Run(0)] + ([Run(0)] + ([Run(0)] + [])));
            OneLink(r, seqno, stale) && r.threads[0] == NoThread().(goal := Find(1, seqno), pc := Found)
  {
    hide Inv;
    var r := Unfold(s, Run(0), [Run(0)] + ([Run(0)] + []));
    r := Unfold(r, Run(0), [Run(0)] + []);
    r := Unfold(r, Run(0), []);
    assert After(r, []) == r;
  }

  /** The stale prev_seqno does lose a fence: over memory that holds at least the sequence
      number, the lookup of a new chain's own sequence number ends with NULL, although the
      chain's fence is unsignaled. */
  lemma StaleMemoryLosesAFence(seqno: nat, stale: nat)
    requires 0 < seqno <= stale
    ensures var s := StateAfter(2, StaleRun(seqno, stale));
            && |s.threads| == 2 && s.threads[0].pc == Found && s.threads[0].goal == Find(1, seqno)
            && s.threads[0].cur == None
            && 1 < |s.info| && Unsignaled(s.info, Some(Target(s.info, 1, seqno)), s.signaled) == {0}
  {
    var s := MakesTheChain(seqno, stale);
    var r := PassesTheFirst(s, seqno, stale);
    FindsNull(r, seqno, stale);
    var end := StateAfter(2, StaleRun(seqno, stale));
    assert TimelineAt(end.info, 1);
    assert Unsignaled(end.info, Some(1), {}) == {0} + Unsignaled(end.info, None, {});
  }
}
