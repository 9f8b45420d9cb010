/** In any run, what a walk returns was unsignaled when it was tested (dma-fence-chain.c). */
module ChainReturns {
  import opened Fences
  import opened ChainTimeline
  import opened ChainHeap
  import opened ChainWalk
  import opened ChainWalkInv
  import opened ChainRuns
  import opened ChainTurns
  import opened ChainProgress

  // ------------------------------------------------------------- any run

  /** The states of a run, one for each action done. */
  function StateAt(threads: nat, actions: seq<Action>, k: nat): (r: State)
    requires k <= |actions|
    ensures Inv(r)
  {
    StateAfter(threads, actions[..k])
  }

  lemma {:induction false} AfterPush(s: State, actions: seq<Action>, a: Action)
    requires Inv(s)
    ensures After(s, actions + [a]) == Acted(After(s, actions), a)
    decreases |actions|
  {
    hide Inv, Enabled, Next;
    if actions == [] {
      assert ([] + [a])[1..] == [];
      assert After(Acted(s, a), []) == Acted(s, a);
    } else {
      assert (actions + [a])[0] == actions[0] && (actions + [a])[1..] == actions[1..] + [a];
      AfterPush(Acted(s, actions[0]), actions[1..], a);
    }
  }

  lemma StateAtNext(threads: nat, actions: seq<Action>, k: nat)
    requires k < |actions|
    ensures StateAt(threads, actions, k + 1) == Acted(StateAt(threads, actions, k), actions[k])
  {
    StartIsOk(threads);
    hide Inv, Enabled, Next, After;
    assert actions[..k + 1] == actions[..k] + [actions[k]];
    AfterPush(Start(threads), actions[..k], actions[k]);
  }

  predicate MovesOnly(s: State, u: nat, r: State) {
    |r.threads| == |s.threads| && forall v :: 0 <= v < |s.threads| && v != u ==> r.threads[v] == s.threads[v]
  }

  lemma MissMovesOne(s: State, u: nat)
    requires Inv(s) && u < |s.threads| && s.threads[u].pc.Miss?
    ensures MovesOnly(s, u, RunThread(s, u)) && !RunThread(s, u).threads[u].pc.PutCur?
  {
    hide Inv, Put;
  }

  lemma PutNextMovesOne(s: State, u: nat)
    requires Inv(s) && u < |s.threads| && s.threads[u].pc.PutNext?
    ensures MovesOnly(s, u, RunThread(s, u)) && !RunThread(s, u).threads[u].pc.PutCur?
  {
    hide Inv, Put;
  }

  lemma PutPrevMovesOne(s: State, u: nat)
    requires Inv(s) && u < |s.threads| && s.threads[u].pc.PutPrev?
    ensures MovesOnly(s, u, RunThread(s, u)) && !RunThread(s, u).threads[u].pc.PutCur?
  {
    hide Inv, Put;
  }

  lemma PutCurMovesOne(s: State, u: nat)
    requires Inv(s) && u < |s.threads| && s.threads[u].pc.PutCur?
    ensures MovesOnly(s, u, RunThread(s, u)) && !RunThread(s, u).threads[u].pc.PutCur?
  {
    hide Inv, Put;
  }

  lemma FindEndMovesOne(s: State, u: nat)
    requires Inv(s) && u < |s.threads| && s.threads[u].pc.FindEnd?
    ensures MovesOnly(s, u, RunThread(s, u)) && !RunThread(s, u).threads[u].pc.PutCur?
  {
    hide Inv, Put;
  }

  lemma PutTurnMovesOne(s: State, u: nat)
    requires Inv(s) && u < |s.threads|
    requires var pc := s.threads[u].pc; pc.Miss? || pc.PutNext? || pc.PutPrev? || pc.PutCur? || pc.FindEnd?
    ensures MovesOnly(s, u, RunThread(s, u)) && !RunThread(s, u).threads[u].pc.PutCur?
  {
    hide RunThread, Inv;
    match s.threads[u].pc
    case Miss(_) => MissMovesOne(s, u);
    case PutNext => PutNextMovesOne(s, u);
    case PutPrev => PutPrevMovesOne(s, u);
    case PutCur => PutCurMovesOne(s, u);
    case FindEnd => FindEndMovesOne(s, u);
  }

  lemma OtherTurnMovesOne(s: State, u: nat)
    requires Inv(s) && u < |s.threads|
    requires var pc := s.threads[u].pc; !(pc.Miss? || pc.PutNext? || pc.PutPrev? || pc.PutCur? || pc.FindEnd?)
    ensures MovesOnly(s, u, RunThread(s, u))
  {
    hide Inv;
  }

  lemma StartMovesIdle(s: State, t: nat, a: Action)
    requires Inv(s) && t < |s.threads| && Walks(s.threads[t].pc) && Enabled(s, a) && !a.Run? && !a.Release?
    ensures t < |Next(s, a).threads| && Next(s, a).threads[t] == s.threads[t]
  {
    hide Inv;
  }

  /** A thread in a walk is moved by its own turns only. */
  lemma OthersLeaveAlone(s: State, t: nat, a: Action)
    requires Inv(s) && t < |s.threads| && Walks(s.threads[t].pc) && a != Run(t)
    ensures t < |Acted(s, a).threads| && Acted(s, a).threads[t] == s.threads[t]
  {
    hide RunThread, RunRelease;
    if !Enabled(s, a) {
    } else if a.Release? {
      ReleaseKeepsPointers(s, a.n);
    } else if a.Run? {
      TurnMovesOne(s, a.t);
    } else {
      StartMovesIdle(s, t, a);
    }
    hide Inv;
  }

  lemma TurnMovesOne(s: State, u: nat)
    requires Inv(s) && u < |s.threads|
    ensures MovesOnly(s, u, RunThread(s, u))
  {
    hide Inv, RunThread;
    var pc := s.threads[u].pc;
    if pc.Miss? || pc.PutNext? || pc.PutPrev? || pc.PutCur? || pc.FindEnd? {
      PutTurnMovesOne(s, u);
    } else {
      OtherTurnMovesOne(s, u);
    }
  }

  lemma SameThreads(s: State, a: Action)
    requires Inv(s)
    ensures |Acted(s, a).threads| == |s.threads|
  {
    if a.Run? && a.t < |s.threads| {
      TurnMovesOne(s, a.t);
    } else if a.Release? && a.n < |s.nodes| {
      ReleaseKeepsPointers(s, a.n);
    }
    hide Inv, RunThread, RunRelease;
  }

  lemma StartIsNotLast(s: State, t: nat, a: Action)
    requires Inv(s) && t < |s.threads| && !Walks(s.threads[t].pc) && Enabled(s, a) && !a.Run? && !a.Release?
    requires t < |Next(s, a).threads|
    ensures var th := Next(s, a).threads[t]; !(th.pc.PutCur? && th.prv.Some?)
  {
    IdleHoldsNothingBelow(s, t);
    if a.Walk? || a.Lookup? || a.Signal? || a.AllocContext? {
      CallsKeepPrv(s, t, a);
    } else {
      OwnersKeepPrv(s, t, a);
    }
    hide *;
  }

  lemma CallsKeepPrv(s: State, t: nat, a: Action)
    requires Inv(s) && t < |s.threads| && Enabled(s, a) && (a.Walk? || a.Lookup? || a.Signal? || a.AllocContext?)
    ensures t < |Next(s, a).threads| && Next(s, a).threads[t].prv == s.threads[t].prv
  {
    hide Inv, Get, RunThread, RunRelease;
  }

  lemma OwnersKeepPrv(s: State, t: nat, a: Action)
    requires Inv(s) && t < |s.threads| && Enabled(s, a) && (a.Dup? || a.Drop? || a.NewFence? || a.InitChain?)
    ensures t < |Next(s, a).threads| && Next(s, a).threads[t].prv == s.threads[t].prv
  {
    hide Inv, Get, Put, InitInfo, RunThread, RunRelease;
  }

  /** A thread outside a walk has no node below in hand. */
  lemma IdleHoldsNothingBelow(s: State, t: nat)
    requires Inv(s) && t < |s.threads| && !Walks(s.threads[t].pc)
    ensures s.threads[t].prv.None?
  {
    assert ThreadOk(s.info, s.signaled, s.threads[t]);
  }

  /** A thread comes to the end of a walk by its own turns only. */
  lemma ArrivesByTurns(s: State, t: nat, a: Action)
    requires Inv(s) && t < |s.threads| == |Acted(s, a).threads| && a != Run(t)
    requires var th := Acted(s, a).threads[t]; th.pc.PutCur? && th.prv.Some?
    ensures s.threads[t] == Acted(s, a).threads[t]
  {
    hide RunThread, RunRelease;
    if Walks(s.threads[t].pc) {
      OthersLeaveAlone(s, t, a);
    } else if !Enabled(s, a) {
    } else if a.Release? {
      ReleaseKeepsPointers(s, a.n);
    } else if a.Run? {
      TurnMovesOne(s, a.t);
    } else {
      StartIsNotLast(s, t, a);
    }
    hide Inv;
  }

  /** A thread about to return p has found its fence unsignaled. */
  lemma TurnToPutCur(s: State, t: nat)
    requires Inv(s) && t < |s.threads|
    requires var th := RunThread(s, t).threads; t < |th| && th[t].pc.PutCur? && th[t].prv.Some?
    ensures var th := s.threads[t];
            && th.pc.Test? && th.prv == RunThread(s, t).threads[t].prv && th.cur == RunThread(s, t).threads[t].cur
            && !IsSignaled(s.info, th.prv, s.signaled)
  {
    hide RunThread, Inv;
    var pc := s.threads[t].pc;
    if pc.Miss? || pc.PutNext? || pc.PutPrev? || pc.PutCur? || pc.FindEnd? {
      PutTurnMovesOne(s, t);
    } else {
      OtherTurnToPutCur(s, t);
    }
  }

  lemma OtherTurnToPutCur(s: State, t: nat)
    requires Inv(s) && t < |s.threads|
    requires var pc := s.threads[t].pc; !(pc.Miss? || pc.PutNext? || pc.PutPrev? || pc.PutCur? || pc.FindEnd?)
    requires var th := RunThread(s, t).threads; t < |th| && th[t].pc.PutCur? && th[t].prv.Some?
    ensures var th := s.threads[t];
            && th.pc.Test? && th.prv == RunThread(s, t).threads[t].prv && th.cur == RunThread(s, t).threads[t].cur
            && !IsSignaled(s.info, th.prv, s.signaled)
  {
    if s.threads[t].pc.Read? {
      ReadIsNotLast(s, t);
    } else if !s.threads[t].pc.Test? {
      RestIsNotLast(s, t);
    }
    hide Inv;
  }

  lemma ReadIsNotLast(s: State, t: nat)
    requires Inv(s) && t < |s.threads| && s.threads[t].pc.Read?
    ensures var th := RunThread(s, t).threads; t < |th| && !(th[t].pc.PutCur? && th[t].prv.Some?)
  {
    assert ThreadOk(s.info, s.signaled, s.threads[t]);
    hide Inv;
  }

  lemma RestIsNotLast(s: State, t: nat)
    requires Inv(s) && t < |s.threads|
    requires var pc := s.threads[t].pc;
             pc.Idle? || pc.Try? || pc.Check? || pc.Swap? || pc.FindTest? || pc.Found?
    ensures var th := RunThread(s, t).threads; t < |th| && (th[t].pc.PutCur? ==> s.threads[t].pc.PutCur?)
  {
    hide Inv;
  }

  /** The walk of a thread at state k has found at state j that p, which it is to return, had not
      signalled, and has done nothing since. */
  ghost predicate FoundUnsignaled(threads: nat, actions: seq<Action>, t: nat, j: nat, k: nat) {
    && j < k <= |actions| && t < |StateAt(threads, actions, j).threads|
    && var s, r := StateAt(threads, actions, j), StateAt(threads, actions, k);
       && t < |r.threads| && s.threads[t].pc.Test?
       && s.threads[t].prv == r.threads[t].prv && s.threads[t].cur == r.threads[t].cur
       && !IsSignaled(s.info, s.threads[t].prv, s.signaled)
       && forall i :: j < i <= k ==> t < |StateAt(threads, actions, i).threads|
                                     && StateAt(threads, actions, i).threads[t] == r.threads[t]
  }

  lemma {:induction false} ReturnsUnsignaled(threads: nat, actions: seq<Action>, t: nat, k: nat) returns (j: nat)
    requires k <= |actions| && t < |StateAt(threads, actions, k).threads|
    requires var th := StateAt(threads, actions, k).threads[t]; th.pc.PutCur? && th.prv.Some?
    ensures FoundUnsignaled(threads, actions, t, j, k)
  {
    hide Inv, StateAt, Acted, RunThread;
    assert k > 0 by { NobodyWalksAtFirst(threads, actions); }
    StateAtNext(threads, actions, k - 1);
    var s := StateAt(threads, actions, k - 1);
    SameThreads(s, actions[k - 1]);
    if actions[k - 1] == Run(t) {
      ActedRun(s, t);
      TurnToPutCur(s, t);
      j := k - 1;
    } else {
      ArrivesByTurns(s, t, actions[k - 1]);
      j := ReturnsUnsignaled(threads, actions, t, k - 1);
    }
  }

  lemma NobodyWalksAtFirst(threads: nat, actions: seq<Action>)
    ensures forall t :: 0 <= t < threads ==> StateAt(threads, actions, 0).threads[t].pc == Idle
    ensures |StateAt(threads, actions, 0).threads| == threads
  {
    assert actions[..0] == [];
  }

  lemma ActedRun(s: State, t: nat)
    requires Inv(s) && t < |s.threads|
    ensures Acted(s, Run(t)) == RunThread(s, t)
  {
    hide Inv;
  }

  lemma LeavesFromPutCur(s: State, t: nat)
    requires Inv(s) && t < |s.threads| && Walks(s.threads[t].pc) && !s.threads[t].pc.PutCur?
    ensures t < |RunThread(s, t).threads| && Walks(RunThread(s, t).threads[t].pc)
  {
    hide Inv, Put;
  }

  lemma LastReturns(s: State, t: nat)
    requires Inv(s) && t < |s.threads| && s.threads[t].pc.PutCur?
    ensures RunThread(s, t).threads == s.threads[t := AfterLast(s.threads[t])]
  {
    PutMoves(s, t);
    hide Inv, RunThread;
  }

  /** In every run, whatever else happens: when a walk ends with a member, it had found that
      member's fence unsignaled, at state j, and had done nothing since. */
  lemma WalkReturnsUnsignaled(threads: nat, actions: seq<Action>, t: nat, k: nat) returns (j: nat)
    requires k < |actions| && t < |StateAt(threads, actions, k).threads|
    requires t < |StateAt(threads, actions, k + 1).threads|
    requires Walks(StateAt(threads, actions, k).threads[t].pc) && !Walks(StateAt(threads, actions, k + 1).threads[t].pc)
    ensures var p := StateAt(threads, actions, k + 1).threads[t].cur;
            p.Some? ==> FoundUnsignaled(threads, actions, t, j, k) && StateAt(threads, actions, j).threads[t].prv == p
  {
    hide Inv, StateAt, Acted, RunThread, FoundUnsignaled;
    var s := StateAt(threads, actions, k);
    StateAtNext(threads, actions, k);
    if actions[k] != Run(t) {
      OthersLeaveAlone(s, t, actions[k]);
      assert false;
    }
    ActedRun(s, t);
    if !s.threads[t].pc.PutCur? {
      LeavesFromPutCur(s, t);
      assert false;
    }
    LastReturns(s, t);
    j := 0;
    if s.threads[t].prv.Some? {
      j := ReturnsUnsignaled(threads, actions, t, k);
      SamePrv(threads, actions, t, j, k);
    }
  }

  lemma SamePrv(threads: nat, actions: seq<Action>, t: nat, j: nat, k: nat)
    requires FoundUnsignaled(threads, actions, t, j, k)
    ensures StateAt(threads, actions, j).threads[t].prv == StateAt(threads, actions, k).threads[t].prv
  {
    hide StateAt;
  }
}
