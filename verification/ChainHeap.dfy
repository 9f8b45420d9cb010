/** The heap a set of threads shares when they walk, trim, extend and release chains: prev
    pointers, reference counts, and who holds each reference (dma-fence-chain.c, dma-fence.c). */
module ChainHeap {
  import opened Fences
  import opened ChainTimeline

  /** A node in the life of a fence. Doomed(n): claimed by the release of n, which held the only
      reference to it. The release of a dead node walks Loop, Take, Cut and back, then
      DropPrev and DropFence. */
  datatype Phase = Alive | Doomed(owner: nat) | Loop | Take(p: nat) | Cut(p: nat) | DropPrev | DropFence | Freed

  /** prev is the pointer; held is the reference on the contained fence; local is the
      reference that a release holds between unlinking a node and putting it. */
  datatype Node = Node(rc: nat, prev: Option<nat>, held: Option<nat>, local: Option<nat>, phase: Phase)

  /** The pointer a get_rcu_safe reads: prev of the node in cur or of the node in prv. */
  datatype Which = OfCur | OfPrv

  /** A plain walk, or the loop of find_seqno from a head. */
  datatype Goal = JustWalk | Find(head: nat, request: nat)

  datatype PC = Idle | Read(w: Which) | Try(w: Which, raw: nat) | Check(w: Which) | Miss(w: Which)
              | Test | Swap | PutNext | PutPrev | PutCur | FindTest | FindEnd | Found

  /** The locals of a thread; each is a reference it holds. tmp is one it got on a fence that
      it has not yet confirmed to be where it read it. base is find_seqno's chain->base. */
  datatype Thread = Thread(pc: PC, goal: Goal, cur: Option<nat>, prv: Option<nat>, nxt: Option<nat>,
                           tmp: Option<nat>, base: Option<nat>)

  // ------------------------------------------------------------ counting

  function NodeUses(n: Node, x: nat): (r: nat) {
    Is(n.prev, x) + Is(n.held, x) + Is(n.local, x)
  }

  function ThreadUses(t: Thread, x: nat): (r: nat) {
    Is(t.cur, x) + Is(t.prv, x) + Is(t.nxt, x) + Is(t.tmp, x) + Is(t.base, x)
  }

  function NodeRefs(nodes: seq<Node>, x: nat): (r: nat) {
    if nodes == [] then 0 else NodeUses(nodes[0], x) + NodeRefs(nodes[1..], x)
  }

  function ThreadRefs(threads: seq<Thread>, x: nat): (r: nat) {
    if threads == [] then 0 else ThreadUses(threads[0], x) + ThreadRefs(threads[1..], x)
  }

  lemma {:induction false} NodeRefsUpdate(nodes: seq<Node>, i: nat, n: Node, x: nat)
    requires i < |nodes|
    ensures NodeRefs(nodes[i := n], x) + NodeUses(nodes[i], x) == NodeRefs(nodes, x) + NodeUses(n, x)
  {
    if i == 0 {
      assert nodes[0 := n][1..] == nodes[1..];
    } else {
      assert nodes[i := n][1..] == nodes[1..][i - 1 := n];
      NodeRefsUpdate(nodes[1..], i - 1, n, x);
    }
  }

  lemma {:induction false} ThreadRefsUpdate(threads: seq<Thread>, i: nat, t: Thread, x: nat)
    requires i < |threads|
    ensures ThreadRefs(threads[i := t], x) + ThreadUses(threads[i], x) == ThreadRefs(threads, x) + ThreadUses(t, x)
  {
    if i == 0 {
      assert threads[0 := t][1..] == threads[1..];
    } else {
      assert threads[i := t][1..] == threads[1..][i - 1 := t];
      ThreadRefsUpdate(threads[1..], i - 1, t, x);
    }
  }

  lemma {:induction false} NodeRefsAppend(nodes: seq<Node>, n: Node, x: nat)
    ensures NodeRefs(nodes + [n], x) == NodeRefs(nodes, x) + NodeUses(n, x)
  {
    if nodes != [] {
      assert (nodes + [n])[1..] == nodes[1..] + [n];
      NodeRefsAppend(nodes[1..], n, x);
    }
  }

  lemma {:induction false} NodeIsCounted(nodes: seq<Node>, i: nat, x: nat)
    requires i < |nodes|
    ensures NodeUses(nodes[i], x) <= NodeRefs(nodes, x)
  {
    if i > 0 {
      NodeIsCounted(nodes[1..], i - 1, x);
    }
  }

  lemma {:induction false} TwoNodesAreCounted(nodes: seq<Node>, i: nat, j: nat, x: nat)
    requires i < j < |nodes|
    ensures NodeUses(nodes[i], x) + NodeUses(nodes[j], x) <= NodeRefs(nodes, x)
  {
    if i == 0 {
      NodeIsCounted(nodes[1..], j - 1, x);
    } else {
      TwoNodesAreCounted(nodes[1..], i - 1, j - 1, x);
    }
  }

  lemma {:induction false} ThreadIsCounted(threads: seq<Thread>, i: nat, x: nat)
    requires i < |threads|
    ensures ThreadUses(threads[i], x) <= ThreadRefs(threads, x)
  {
    if i > 0 {
      ThreadIsCounted(threads[1..], i - 1, x);
    }
  }

  lemma {:induction false} NobodyUses(nodes: seq<Node>, threads: seq<Thread>, x: nat)
    requires forall i :: 0 <= i < |nodes| ==> NodeUses(nodes[i], x) == 0
    requires forall i :: 0 <= i < |threads| ==> ThreadUses(threads[i], x) == 0
    ensures NodeRefs(nodes, x) == 0 && ThreadRefs(threads, x) == 0
  {
    if nodes != [] {
      NobodyUses(nodes[1..], threads, x);
    } else if threads != [] {
      NobodyUses(nodes, threads[1..], x);
    }
  }

  // ------------------------------------------------------------ invariant

  ghost predicate AliveIn(nodes: seq<Node>, a: Option<nat>) {
    a.Some? ==> a.value < |nodes| && nodes[a.value].phase == Alive
  }

  ghost predicate NodeOk(info: seq<Info>, nodes: seq<Node>, m: nat)
    requires WellFormed(info) && |nodes| == |info| && m < |nodes|
  {
    var n := nodes[m];
    && (n.rc > 0 <==> n.phase == Alive || n.phase.Doomed?)
    && (n.prev.Some? ==> info[m].chain && n.prev.value < m)
    && (n.prev.Some? && n.phase != Take(n.prev.value) ==> AliveIn(nodes, n.prev))
    && n.held == (if info[m].chain && n.phase != Freed then Some(info[m].fence) else None)
    && AliveIn(nodes, n.held)
    && n.local == (if n.phase.Cut? then Some(n.phase.p) else None)
    && (n.phase == DropFence || n.phase == Freed ==> n.prev == None)
    && (!info[m].chain ==> n.phase == Alive || n.phase == Freed)
    && (n.phase.Take? ==> n.prev == Some(n.phase.p))
    && (n.phase.Take? || n.phase.Cut? ==>
          n.phase.p < |nodes| && nodes[n.phase.p].phase == Doomed(m) && n.phase.p < m)
    && (n.phase.Cut? ==> nodes[n.phase.p].prev == None)
  }

  ghost predicate Owns(t: Thread, nodes: seq<Node>) {
    && AliveIn(nodes, t.cur) && AliveIn(nodes, t.prv) && AliveIn(nodes, t.nxt) && AliveIn(nodes, t.base)
    && (t.tmp.Some? ==> t.tmp.value < |nodes|)
  }

  /** Every count is the number of references that exist, plus one for a loose reference that
      the current step is passing on. */
  ghost predicate Counts(nodes: seq<Node>, threads: seq<Thread>, loose: Option<nat>) {
    forall x :: 0 <= x < |nodes| ==> nodes[x].rc == NodeRefs(nodes, x) + ThreadRefs(threads, x) + Is(loose, x)
  }

  ghost predicate NodesOk(info: seq<Info>, nodes: seq<Node>) {
    && WellFormed(info) && |nodes| == |info|
    && forall m :: 0 <= m < |nodes| ==> NodeOk(info, nodes, m)
  }

  ghost predicate ThreadsOwn(threads: seq<Thread>, nodes: seq<Node>) {
    forall t :: 0 <= t < |threads| ==> Owns(threads[t], nodes)
  }

  ghost predicate HeapOk(info: seq<Info>, nodes: seq<Node>, threads: seq<Thread>, loose: Option<nat>) {
    && NodesOk(info, nodes)
    && ThreadsOwn(threads, nodes)
    && Counts(nodes, threads, loose)
    && Valid(info, loose)
  }

  // ----------------------------------------------------------- operations

  function Get(nodes: seq<Node>, x: nat): (r: seq<Node>)
    requires x < |nodes|
  {
    nodes[x := nodes[x].(rc := nodes[x].rc + 1)]
  }

  /** dma_fence_put: the last reference starts the release of a chain and frees a plain fence. */
  function Put(info: seq<Info>, nodes: seq<Node>, x: Option<nat>): (r: seq<Node>)
    requires |nodes| == |info|
    requires x.Some? ==> x.value < |nodes| && nodes[x.value].rc > 0
  {
    if x.None? then nodes
    else
      var n := nodes[x.value];
      nodes[x.value := n.(rc := n.rc - 1,
                          phase := if n.rc > 1 then n.phase else if info[x.value].chain then Loop else Freed)]
  }

  /** A node changes; the counts follow what it now holds and what is loose. */
  lemma SetNodeKeepsCounts(nodes: seq<Node>, threads: seq<Thread>, i: nat, node: Node, loose: Option<nat>,
                           loose': Option<nat>)
    requires Counts(nodes, threads, loose) && i < |nodes|
    requires forall x :: 0 <= x < |nodes| ==>
      (if x == i then node.rc else nodes[x].rc) + NodeUses(nodes[i], x) + Is(loose, x)
      == nodes[x].rc + NodeUses(node, x) + Is(loose', x)
    ensures Counts(nodes[i := node], threads, loose')
  {
    forall x | 0 <= x < |nodes|
      ensures nodes[i := node][x].rc == NodeRefs(nodes[i := node], x) + ThreadRefs(threads, x) + Is(loose', x)
    {
      NodeRefsUpdate(nodes, i, node, x);
    }
  }

  lemma SetThreadKeepsCounts(nodes: seq<Node>, threads: seq<Thread>, t: nat, th: Thread, loose: Option<nat>,
                             loose': Option<nat>)
    requires Counts(nodes, threads, loose) && t < |threads|
    requires forall x :: 0 <= x < |nodes| ==>
      ThreadUses(th, x) + Is(loose', x) == ThreadUses(threads[t], x) + Is(loose, x)
    ensures Counts(nodes, threads[t := th], loose')
  {
    forall x | 0 <= x < |nodes|
      ensures nodes[x].rc == NodeRefs(nodes, x) + ThreadRefs(threads[t := th], x) + Is(loose', x)
    {
      ThreadRefsUpdate(threads, t, th, x);
    }
  }

  lemma GetKeepsNodes(info: seq<Info>, nodes: seq<Node>, x: nat)
    requires NodesOk(info, nodes) && x < |nodes| && nodes[x].rc > 0
    ensures NodesOk(info, Get(nodes, x))
  {
    var nodes' := Get(nodes, x);
    forall m | 0 <= m < |nodes'|
      ensures NodeOk(info, nodes', m)
    {
      assert NodeOk(info, nodes, m);
    }
  }

  lemma GetKeepsOwns(th: Thread, nodes: seq<Node>, x: nat)
    requires Owns(th, nodes) && x < |nodes|
    ensures Owns(th, Get(nodes, x))
  {
  }

  lemma GetKeepsHeap(info: seq<Info>, nodes: seq<Node>, threads: seq<Thread>, x: nat)
    requires HeapOk(info, nodes, threads, None) && x < |nodes| && nodes[x].rc > 0
    ensures HeapOk(info, Get(nodes, x), threads, Some(x))
  {
    GetKeepsNodes(info, nodes, x);
    SetNodeKeepsCounts(nodes, threads, x, Get(nodes, x)[x], None, Some(x));
  }

  lemma PutKeepsHeap(info: seq<Info>, nodes: seq<Node>, threads: seq<Thread>, x: Option<nat>)
    requires HeapOk(info, nodes, threads, x)
    ensures x.Some? ==> nodes[x.value].rc > 0
    ensures HeapOk(info, Put(info, nodes, x), threads, None)
  {
    if x.Some? {
      var z := x.value;
      SetNodeKeepsCounts(nodes, threads, z, Put(info, nodes, x)[z], x, None);
      if nodes[z].rc > 1 {
        PutKeepsNodes(info, nodes, z);
      } else {
        LastPutKeepsNodes(info, nodes, threads, z);
      }
    }
  }

  lemma PutKeepsNodes(info: seq<Info>, nodes: seq<Node>, z: nat)
    requires NodesOk(info, nodes) && z < |nodes| && nodes[z].rc > 1
    ensures NodesOk(info, Put(info, nodes, Some(z)))
  {
    var nodes' := Put(info, nodes, Some(z));
    forall m | 0 <= m < |nodes|
      ensures NodeOk(info, nodes', m)
    {
      assert NodeOk(info, nodes, m);
    }
  }

  /** Nothing refers to a fence whose last reference is being put. */
  lemma LastPutKeepsNodes(info: seq<Info>, nodes: seq<Node>, threads: seq<Thread>, z: nat)
    requires HeapOk(info, nodes, threads, Some(z)) && nodes[z].rc == 1
    ensures var nodes' := Put(info, nodes, Some(z));
            NodesOk(info, nodes') && ThreadsOwn(threads, nodes')
  {
    var nodes' := Put(info, nodes, Some(z));
    assert NodeRefs(nodes, z) == ThreadRefs(threads, z) == 0;
    assert NodeOk(info, nodes, z);
    forall m | 0 <= m < |nodes|
      ensures NodeOk(info, nodes', m)
    {
      assert NodeOk(info, nodes, m);
      NodeIsCounted(nodes, m, z);
    }
    forall t | 0 <= t < |threads|
      ensures Owns(threads[t], nodes')
    {
      assert Owns(threads[t], nodes);
      ThreadIsCounted(threads, t, z);
    }
  }

  /** A thread changes its locals; what it lets go of or takes up is the loose reference. */
  lemma SetThreadKeepsHeap(info: seq<Info>, nodes: seq<Node>, threads: seq<Thread>, t: nat, th: Thread,
                           loose: Option<nat>, loose': Option<nat>)
    requires HeapOk(info, nodes, threads, loose) && t < |threads| && Valid(info, loose')
    requires Owns(th, nodes)
    requires forall x :: ThreadUses(th, x) + Is(loose', x) == ThreadUses(threads[t], x) + Is(loose, x)
    ensures HeapOk(info, nodes, threads[t := th], loose')
  {
    SetThreadKeepsCounts(nodes, threads, t, th, loose, loose');
  }

  lemma SetPrevKeepsNodes(info: seq<Info>, nodes: seq<Node>, c: nat, q: Option<nat>)
    requires NodesOk(info, nodes) && c < |nodes| && nodes[c].phase == Alive && info[c].chain
    requires AliveIn(nodes, q) && (q.Some? ==> q.value < c)
    ensures NodesOk(info, nodes[c := nodes[c].(prev := q)])
  {
    var nodes' := nodes[c := nodes[c].(prev := q)];
    forall m | 0 <= m < |nodes|
      ensures NodeOk(info, nodes', m)
    {
      assert NodeOk(info, nodes, m);
    }
  }

  /** A live node changes its prev pointer, with the reference that goes with it. */
  lemma SetPrevKeepsHeap(info: seq<Info>, nodes: seq<Node>, threads: seq<Thread>, c: nat, q: Option<nat>,
                         loose: Option<nat>, loose': Option<nat>)
    requires HeapOk(info, nodes, threads, loose) && c < |nodes| && nodes[c].phase == Alive && info[c].chain
    requires AliveIn(nodes, q) && (q.Some? ==> q.value < c) && Valid(info, loose')
    requires forall x :: Is(q, x) + Is(loose', x) == Is(nodes[c].prev, x) + Is(loose, x)
    ensures HeapOk(info, nodes[c := nodes[c].(prev := q)], threads, loose')
  {
    SetPrevKeepsNodes(info, nodes, c, q);
    SetNodeKeepsCounts(nodes, threads, c, nodes[c].(prev := q), loose, loose');
  }

  /** An owner of the only reference to a node is the only one who can reach it. */
  lemma SoleOwner(info: seq<Info>, nodes: seq<Node>, threads: seq<Thread>, n: nat, p: nat)
    requires HeapOk(info, nodes, threads, None) && n < |nodes| && p < |nodes|
    requires nodes[n].prev == Some(p) && nodes[p].rc == 1
    ensures NodeUses(nodes[n], p) == 1
    ensures forall m :: 0 <= m < |nodes| && m != n ==> NodeUses(nodes[m], p) == 0
    ensures forall t :: 0 <= t < |threads| ==> ThreadUses(threads[t], p) == 0
  {
    NodeIsCounted(nodes, n, p);
    forall m | 0 <= m < |nodes| && m != n
      ensures NodeUses(nodes[m], p) == 0
    {
      if m < n { TwoNodesAreCounted(nodes, m, n, p); } else { TwoNodesAreCounted(nodes, n, m, p); }
    }
    forall t | 0 <= t < |threads|
      ensures ThreadUses(threads[t], p) == 0
    {
      ThreadIsCounted(threads, t, p);
    }
  }

  // ---------------------------------------------------- release of a node

  predicate Dead(n: Node) {
    n.rc == 0 && n.phase != Alive && !n.phase.Doomed?
  }

  /** A dead node changes in the course of its release and hands on one reference. */
  lemma SetDeadNodeKeepsNodes(info: seq<Info>, nodes: seq<Node>, n: nat, node: Node)
    requires NodesOk(info, nodes) && n < |nodes| && Dead(nodes[n]) && Dead(node)
    requires NodeOk(info, nodes[n := node], n)
    ensures NodesOk(info, nodes[n := node])
  {
    var nodes' := nodes[n := node];
    forall m | 0 <= m < |nodes'|
      ensures NodeOk(info, nodes', m)
    {
      assert NodeOk(info, nodes, m);
    }
  }

  lemma DeadNodesAreNotOwned(nodes: seq<Node>, threads: seq<Thread>, n: nat, node: Node)
    requires ThreadsOwn(threads, nodes) && n < |nodes| && Dead(nodes[n])
    ensures ThreadsOwn(threads, nodes[n := node])
  {
    forall t | 0 <= t < |threads|
      ensures Owns(threads[t], nodes[n := node])
    {
      assert Owns(threads[t], nodes);
    }
  }

  lemma SetDeadNodeKeepsHeap(info: seq<Info>, nodes: seq<Node>, threads: seq<Thread>, n: nat, node: Node,
                             loose: Option<nat>)
    requires HeapOk(info, nodes, threads, None) && n < |nodes| && Dead(nodes[n]) && Dead(node)
    requires NodeOk(info, nodes[n := node], n) && Valid(info, loose)
    requires !node.phase.Take? && !node.phase.Cut?
    requires forall y :: NodeUses(node, y) + Is(loose, y) == NodeUses(nodes[n], y)
    ensures HeapOk(info, nodes[n := node], threads, loose)
  {
    SetDeadNodeKeepsNodes(info, nodes, n, node);
    SetNodeKeepsCounts(nodes, threads, n, node, None, loose);
    DeadNodesAreNotOwned(nodes, threads, n, node);
  }

  /** Node n claims the node below it, whose only reference it holds. */
  function Claim(nodes: seq<Node>, n: nat, p: nat): (r: seq<Node>)
    requires n < |nodes| && p < |nodes|
  {
    nodes[n := nodes[n].(phase := Take(p))][p := nodes[p].(phase := Doomed(n))]
  }

  lemma ClaimKeepsNodes(info: seq<Info>, nodes: seq<Node>, n: nat, p: nat)
    requires NodesOk(info, nodes) && n < |nodes| && p < n && Dead(nodes[n]) && nodes[n].phase == Loop
    requires nodes[n].prev == Some(p) && nodes[p].phase == Alive && info[p].chain
    requires forall m :: 0 <= m < |nodes| && m != n ==> NodeUses(nodes[m], p) == 0
    requires NodeUses(nodes[n], p) == 1
    ensures NodesOk(info, Claim(nodes, n, p))
  {
    var nodes' := Claim(nodes, n, p);
    assert NodeOk(info, nodes, n);
    forall m | 0 <= m < |nodes'|
      ensures NodeOk(info, nodes', m)
    {
      assert NodeOk(info, nodes, m);
      assert m != n ==> NodeUses(nodes[m], p) == 0;
    }
  }

  lemma ClaimKeepsHeap(info: seq<Info>, nodes: seq<Node>, threads: seq<Thread>, n: nat, p: nat)
    requires HeapOk(info, nodes, threads, None) && n < |nodes| && p < n && nodes[n].phase == Loop
    requires nodes[n].prev == Some(p) && nodes[p].rc <= 1 && info[p].chain
    ensures HeapOk(info, Claim(nodes, n, p), threads, None)
  {
    var nodes' := Claim(nodes, n, p);
    assert NodeOk(info, nodes, n) && NodeOk(info, nodes, p);
    SoleOwner(info, nodes, threads, n, p);
    ClaimKeepsNodes(info, nodes, n, p);
    forall t | 0 <= t < |threads|
      ensures Owns(threads[t], nodes')
    {
      assert Owns(threads[t], nodes) && ThreadUses(threads[t], p) == 0;
    }
    SetNodeKeepsCounts(nodes, threads, n, nodes'[n], None, None);
    SetNodeKeepsCounts(nodes[n := nodes'[n]], threads, p, nodes'[p], None, None);
  }

  /** The claimed node's list moves up to node n, which still holds the reference on it. */
  function Splice(nodes: seq<Node>, n: nat, p: nat): (r: seq<Node>)
    requires n < |nodes| && p < |nodes|
  {
    nodes[n := nodes[n].(prev := nodes[p].prev, local := Some(p), phase := Cut(p))][p := nodes[p].(prev := None)]
  }

  lemma SpliceKeepsNodes(info: seq<Info>, nodes: seq<Node>, n: nat, p: nat)
    requires NodesOk(info, nodes) && n < |nodes| && nodes[n].phase == Take(p) && p < n
    ensures NodesOk(info, Splice(nodes, n, p))
  {
    var nodes' := Splice(nodes, n, p);
    assert NodeOk(info, nodes, n) && NodeOk(info, nodes, p);
    forall m | 0 <= m < |nodes'|
      ensures NodeOk(info, nodes', m)
    {
      assert NodeOk(info, nodes, m);
    }
  }

  lemma SpliceKeepsCounts(nodes: seq<Node>, threads: seq<Thread>, n: nat, p: nat)
    requires Counts(nodes, threads, None) && n < |nodes| && p < n
    requires nodes[n].prev == Some(p) && nodes[n].local == None
    ensures Counts(Splice(nodes, n, p), threads, None)
  {
    var q, nodes' := nodes[p].prev, Splice(nodes, n, p);
    var without := nodes[p := nodes'[p]];
    SetNodeKeepsCounts(nodes, threads, p, nodes'[p], None, q);
    SetNodeKeepsCounts(without, threads, n, nodes'[n], q, None);
    assert without[n := nodes'[n]] == nodes';
  }

  lemma SpliceKeepsHeap(info: seq<Info>, nodes: seq<Node>, threads: seq<Thread>, n: nat, p: nat)
    requires HeapOk(info, nodes, threads, None) && n < |nodes| && nodes[n].phase == Take(p) && p < n
    ensures HeapOk(info, Splice(nodes, n, p), threads, None)
  {
    var nodes' := Splice(nodes, n, p);
    assert NodeOk(info, nodes, n) && NodeOk(info, nodes, p);
    SpliceKeepsNodes(info, nodes, n, p);
    forall t | 0 <= t < |threads|
      ensures Owns(threads[t], nodes')
    {
      assert Owns(threads[t], nodes);
    }
    SpliceKeepsCounts(nodes, threads, n, p);
  }

  // ---------------------------------------------------------- a new node

  lemma AppendKeepsNodes(info: seq<Info>, nodes: seq<Node>, i: Info, node: Node)
    requires NodesOk(info, nodes) && WellFormed(info + [i])
    requires node.rc == 1 && node.phase == Alive && node.local == None && AliveIn(nodes, node.prev)
    requires AliveIn(nodes, node.held) && node.held == (if i.chain then Some(i.fence) else None)
    requires node.prev.Some? ==> i.chain
    ensures NodesOk(info + [i], nodes + [node])
  {
    var info', nodes' := info + [i], nodes + [node];
    forall m | 0 <= m < |nodes'|
      ensures NodeOk(info', nodes', m)
    {
      assert m < |nodes| ==> NodeOk(info, nodes, m);
    }
  }

  lemma NewNodeIsUnused(info: seq<Info>, nodes: seq<Node>, threads: seq<Thread>)
    requires NodesOk(info, nodes) && ThreadsOwn(threads, nodes)
    ensures NodeRefs(nodes, |nodes|) == 0 && ThreadRefs(threads, |nodes|) == 0
  {
    forall m | 0 <= m < |nodes|
      ensures NodeUses(nodes[m], |nodes|) == 0
    {
      assert NodeOk(info, nodes, m);
    }
    forall u | 0 <= u < |threads|
      ensures ThreadUses(threads[u], |nodes|) == 0
    {
      assert Owns(threads[u], nodes);
    }
    NobodyUses(nodes, threads, |nodes|);
  }

  lemma AppendKeepsCounts(info: seq<Info>, nodes: seq<Node>, threads: seq<Thread>, t: nat, node: Node)
    requires NodesOk(info, nodes) && ThreadsOwn(threads, nodes) && Counts(nodes, threads, node.held)
    requires t < |threads| && node.rc == 1 && node.local == None && node.prev == threads[t].cur
    requires AliveIn(nodes, node.held)
    ensures Counts(nodes + [node], threads[t := threads[t].(cur := Some(|nodes|))], None)
  {
    var n, th := |nodes|, threads[t].(cur := Some(|nodes|));
    assert Owns(threads[t], nodes);
    NewNodeIsUnused(info, nodes, threads);
    forall x | 0 <= x <= n
      ensures (nodes + [node])[x].rc == NodeRefs(nodes + [node], x) + ThreadRefs(threads[t := th], x) + Is(None, x)
    {
      NodeRefsAppend(nodes, node, x);
      ThreadRefsUpdate(threads, t, th, x);
      assert ThreadUses(th, x) + Is(threads[t].cur, x) == ThreadUses(threads[t], x) + (if x == n then 1 else 0);
    }
  }

  /** Thread t trades the reference in cur for one on a new node that takes it over. */
  lemma AppendKeepsHeap(info: seq<Info>, nodes: seq<Node>, threads: seq<Thread>, t: nat, i: Info, node: Node)
    requires HeapOk(info, nodes, threads, node.held) && WellFormed(info + [i]) && t < |threads|
    requires node.rc == 1 && node.phase == Alive && node.local == None && node.prev == threads[t].cur
    requires AliveIn(nodes, node.held) && node.held == (if i.chain then Some(i.fence) else None)
    requires node.prev.Some? ==> i.chain
    ensures HeapOk(info + [i], nodes + [node], threads[t := threads[t].(cur := Some(|nodes|))], None)
  {
    var nodes', threads' := nodes + [node], threads[t := threads[t].(cur := Some(|nodes|))];
    AppendKeepsNodes(info, nodes, i, node);
    AppendKeepsCounts(info, nodes, threads, t, node);
    forall u | 0 <= u < |threads'|
      ensures Owns(threads'[u], nodes')
    {
      assert Owns(threads[u], nodes);
    }
  }
}
