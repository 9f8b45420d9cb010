/** Releases end: each access of a release leaves less to do, and once nobody holds anything and
    the releases have run, everything has been freed (dma-fence-chain.c, dma_fence_chain_release). */
module ChainFreeing {
  import opened Lists
  import opened Fences
  import opened ChainTimeline
  import opened ChainHeap
  import opened ChainWalk
  import opened ChainWalkInv
  import opened ChainRuns

  /** How far a fence is from its release. */
  function Life(n: Node): (r: nat) {
    if n.phase == Alive then 2 else if n.phase.Doomed? then 1 else 0
  }

  function Lower(a: Option<nat>): (r: nat) {
    if a.Some? then a.value + 1 else 0
  }

  /** What a release has still to do on a dead node. */
  function Todo(n: Node): (r: nat) {
    match n.phase
    case Loop => 4 * Lower(n.prev) + 3
    case Take(_) => 4 * Lower(n.prev) + 2
    case Cut(_) => 4 * Lower(n.prev) + 4
    case DropPrev => 2
    case DropFence => 1
    case _ => 0
  }

  function Lives(nodes: seq<Node>): (r: seq<nat>) {
    seq(|nodes|, i requires 0 <= i < |nodes| => Life(nodes[i]))
  }

  function Todos(nodes: seq<Node>): (r: seq<nat>) {
    seq(|nodes|, i requires 0 <= i < |nodes| => Todo(nodes[i]))
  }

  predicate Releasing(s: State, n: nat) {
    n < |s.nodes| && !Settled(s.nodes[n].phase)
  }

  /** Fewer lives, or as many and less to do. */
  ghost predicate Lessens(nodes: seq<Node>, nodes': seq<Node>) {
    || Sum(Lives(nodes')) < Sum(Lives(nodes))
    || (Sum(Lives(nodes')) == Sum(Lives(nodes)) && Sum(Todos(nodes')) < Sum(Todos(nodes)))
  }

  lemma SetNode(nodes: seq<Node>, n: nat, node: Node)
    requires n < |nodes|
    ensures Sum(Lives(nodes[n := node])) == Sum(Lives(nodes)) - Life(nodes[n]) + Life(node)
    ensures Sum(Todos(nodes[n := node])) == Sum(Todos(nodes)) - Todo(nodes[n]) + Todo(node)
  {
    SumUpdate(Lives(nodes), n, Life(node));
    SumUpdate(Todos(nodes), n, Todo(node));
    assert Lives(nodes[n := node]) == Lives(nodes)[n := Life(node)];
    assert Todos(nodes[n := node]) == Todos(nodes)[n := Todo(node)];
  }

  /** A put leaves things as they are or takes a life. */
  lemma PutTakesLife(info: seq<Info>, nodes: seq<Node>, x: Option<nat>)
    requires |nodes| == |info| && (x.Some? ==> x.value < |nodes| && nodes[x.value].rc > 0)
    requires x.Some? ==> Life(nodes[x.value]) > 0
    ensures var r := Put(info, nodes, x);
            || Sum(Lives(r)) < Sum(Lives(nodes))
            || (Sum(Lives(r)) == Sum(Lives(nodes)) && Sum(Todos(r)) == Sum(Todos(nodes)))
  {
    if x.Some? {
      SetNode(nodes, x.value, Put(info, nodes, x)[x.value]);
    }
  }

  lemma PutFromNodeLessens(s: State, n: nat, node: Node, x: Option<nat>)
    requires Inv(s) && n < |s.nodes| && Life(s.nodes[n]) == 0 == Life(node) && Todo(node) < Todo(s.nodes[n])
    requires x.Some? ==> x.value < |s.nodes| && x.value != n && NodeUses(s.nodes[n], x.value) > 0
    ensures Lessens(s.nodes, PutFromNode(s, n, node, x).nodes)
  {
    NodePutIsHeld(s, n, x);
    if x.Some? {
      assert NodeOk(s.info, s.nodes, x.value);
    }
    SetNode(s.nodes, n, node);
    PutTakesLife(s.info, s.nodes[n := node], x);
    hide Inv, Put, Lives, Todos;
  }

  /** Each access of a release that is under way lessens what all releases have to do. */
  lemma ReleaseLessens(s: State, n: nat)
    requires Inv(s) && Releasing(s, n)
    ensures Lessens(s.nodes, RunRelease(s, n).nodes)
  {
    var node := s.nodes[n];
    assert NodeOk(s.info, s.nodes, n);
    match node.phase
    case Loop => LoopLessens(s, n);
    case Take(p) => SpliceLessens(s, n);
    case Cut(p) => PutFromNodeLessens(s, n, node.(local := None, phase := Loop), node.local);
    case DropPrev => PutFromNodeLessens(s, n, node.(prev := None, phase := DropFence), node.prev);
    case DropFence => PutFromNodeLessens(s, n, node.(held := None, phase := Freed), node.held);
  }

  /** To claim the node below takes its life. */
  lemma ClaimLessens(s: State, n: nat, p: nat)
    requires n < |s.nodes| && p < |s.nodes| && p != n && s.nodes[n].phase == Loop && s.nodes[p].phase == Alive
    ensures Lessens(s.nodes, Claim(s.nodes, n, p))
  {
    var node := s.nodes[n].(phase := Take(p));
    SetNode(s.nodes, n, node);
    SetNode(s.nodes[n := node], p, s.nodes[p].(phase := Doomed(n)));
    hide Lives, Todos;
  }

  lemma LoopLessens(s: State, n: nat)
    requires Inv(s) && n < |s.nodes| && s.nodes[n].phase == Loop
    ensures Lessens(s.nodes, RunRelease(s, n).nodes)
  {
    var node := s.nodes[n];
    assert NodeOk(s.info, s.nodes, n);
    hide Inv, Lessens;
    if node.prev.Some? && s.nodes[node.prev.value].rc <= 1 && s.info[node.prev.value].chain {
      ClaimLessens(s, n, node.prev.value);
    } else {
      LoopLeaves(s, n);
    }
  }

  lemma LoopLeaves(s: State, n: nat)
    requires n < |s.nodes| && s.nodes[n].phase == Loop
    ensures Lessens(s.nodes, s.nodes[n := s.nodes[n].(phase := DropPrev)])
  {
    SetNode(s.nodes, n, s.nodes[n].(phase := DropPrev));
    hide Lives, Todos;
  }

  lemma SpliceLessens(s: State, n: nat)
    requires Inv(s) && n < |s.nodes| && s.nodes[n].phase.Take?
    ensures Lessens(s.nodes, RunRelease(s, n).nodes)
  {
    var node, p := s.nodes[n], s.nodes[n].phase.p;
    assert NodeOk(s.info, s.nodes, n) && NodeOk(s.info, s.nodes, p);
    var node' := node.(prev := s.nodes[p].prev, local := Some(p), phase := Cut(p));
    SetNode(s.nodes, n, node');
    SetNode(s.nodes[n := node'], p, s.nodes[p].(prev := None));
    hide Inv, Lives, Todos;
  }

  predicate OnlyReleases(actions: seq<Action>) {
    forall k :: 0 <= k < |actions| ==> actions[k].Release?
  }

  lemma AfterRelease(s: State, n: nat, rest: seq<Action>)
    requires Inv(s) && n < |s.nodes|
    ensures Inv(RunRelease(s, n)) && After(s, [Release(n)] + rest) == After(RunRelease(s, n), rest)
  {
    NextKeepsInv(s, Release(n));
    hide Inv, RunRelease;
    assert ([Release(n)] + rest)[1..] == rest;
  }

  ghost predicate AllSettled(s: State) {
    forall n :: 0 <= n < |s.nodes| ==> Settled(s.nodes[n].phase)
  }

  /** So releases end, and leave what threads hold alone. */
  lemma ReleasesEnd(s: State) returns (actions: seq<Action>)
    requires Inv(s)
    ensures OnlyReleases(actions) && AllSettled(After(s, actions)) && After(s, actions).threads == s.threads
    decreases Sum(Lives(s.nodes)), Sum(Todos(s.nodes))
  {
    if AllSettled(s) {
      actions := [];
      assert After(s, []) == s;
    } else {
      var n: nat :| n < |s.nodes| && !Settled(s.nodes[n].phase);
      ReleaseLessens(s, n);
      ReleaseKeepsThreads(s, n);
      NextKeepsInv(s, Release(n));
      hide RunRelease;
      var rest := ReleasesEnd(RunRelease(s, n));
      actions := [Release(n)] + rest;
      AfterRelease(s, n, rest);
    }
  }

  lemma ReleaseKeepsThreads(s: State, n: nat)
    requires Inv(s) && n < |s.nodes|
    ensures RunRelease(s, n).threads == s.threads
  {
    hide Inv;
  }

  predicate NobodyHolds(s: State) {
    forall t :: 0 <= t < |s.threads| ==> s.threads[t].pc == Idle && s.threads[t].cur == None
  }

  /** From every state that threads can reach and in which nobody holds anything, the releases
      free everything. */
  lemma EverythingIsFreed(threads: nat, actions: seq<Action>) returns (releases: seq<Action>)
    requires NobodyHolds(StateAfter(threads, actions))
    ensures OnlyReleases(releases)
    ensures var s := After(StateAfter(threads, actions), releases);
            forall n :: 0 <= n < |s.nodes| ==> s.nodes[n].phase == Freed
  {
    releases := ReleasesEnd(StateAfter(threads, actions));
    AllFreedFrom(After(StateAfter(threads, actions), releases), 0);
  }
}
