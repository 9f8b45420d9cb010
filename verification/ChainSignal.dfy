/** Signalling of a chain (dma-fence-chain.c): the first caller arms one callback on a contained
    fence that has not signalled; when it runs it queues work that arms the next one, until
    every contained fence has signalled. */
module ChainSignal {

  /** A call of dma_fence_chain_enable_signaling: not running, at a node of the chain, or past
      the last one. */
  datatype Call = Off | At(pos: nat) | Past

  /** The one callback of the chain: free, armed on the fence of a node, or running. */
  datatype Callback = Free | Armed(pos: nat) | Firing

  /** done tells which contained fences have signalled, from the head down. first is the call
      that enables signalling, work the one made by queued work. puts counts references that
      finished calls and works have still to put, refs the references of the chain, others
      those of everybody else. last is one past the node that was armed last, arms how often
      a callback was armed. */
  datatype State = State(
    done: seq<bool>, started: bool, first: Call, work: Call, callback: Callback, queued: nat, puts: nat,
    signaled: bool, refs: int, others: nat, last: nat, arms: nat)

  datatype Who = First | Work

  datatype Action =
    | FenceSignals(i: nat)
    | CallbackRuns
    | StartFirst
    | StartWork
    | CallSteps(who: Who, next: nat)
    | PutLater
    | Asked
    | OtherGets
    | OtherPuts

  ghost predicate Start(s: State) {
    && |s.done| > 0
    && !s.started && s.first.Off? && s.work.Off? && s.callback.Free? && s.queued == s.puts == 0
    && !s.signaled && s.refs == s.others && s.last == s.arms == 0
  }

  function CallOf(s: State, who: Who): (r: Call) {
    if who.First? then s.first else s.work
  }

  function SetCall(s: State, who: Who, call: Call): (r: State) {
    if who.First? then s.(first := call) else s.(work := call)
  }

  predicate DoneBetween(done: seq<bool>, from: nat, to: nat) {
    forall i :: from <= i < to && i < |done| ==> done[i]
  }

  predicate Enabled(s: State, a: Action) {
    match a
    case FenceSignals(i) => i < |s.done|
    case CallbackRuns => s.callback.Firing?
    case StartFirst => !s.started && s.others > 0
    case StartWork => s.queued > 0 && s.work.Off?
    case CallSteps(who, next) =>
      (match CallOf(s, who)
       case Off => false
       case At(pos) => pos < |s.done| && (s.done[pos] ==> pos < next <= |s.done| && DoneBetween(s.done, pos, next))
       case Past => true)
    case PutLater => s.puts > 0
    case Asked => DoneBetween(s.done, 0, |s.done|) && s.first.Off?
    case OtherGets => s.others > 0
    case OtherPuts => s.others > (if s.first.Off? then 0 else 1)
  }

  function Step(s: State, a: Action): (r: State)
    requires Enabled(s, a)
  {
    match a
    case FenceSignals(i) =>
      s.(done := s.done[i := true], callback := if s.callback == Armed(i) then Firing else s.callback)
    case CallbackRuns => s.(callback := Free, queued := s.queued + 1)
    case StartFirst => if s.signaled then s.(started := true) else Enter(s.(started := true), First)
    case StartWork => Enter(s.(queued := s.queued - 1), Work)
    case CallSteps(who, next) =>
      (match CallOf(s, who)
       case At(pos) => if s.done[pos] then Walk(s, who, pos, next) else Arm(s, who, pos)
       case _ => Leave(s, who))
    case PutLater => s.(puts := s.puts - 1, refs := s.refs - 1)
    case Asked => s.(signaled := true)
    case OtherGets => s.(others := s.others + 1, refs := s.refs + 1)
    case OtherPuts => s.(others := s.others - 1, refs := s.refs - 1)
  }

  /** One reference for the callback, one for the walk, which starts at the chain itself. */
  function Enter(s: State, who: Who): (r: State) {
    SetCall(s, who, At(0)).(refs := s.refs + 2)
  }

  /** dma_fence_add_callback succeeds: the call ends. The walk's reference is put if it is one
      on the chain; work then puts its own. */
  function Arm(s: State, who: Who, pos: nat): (r: State) {
    SetCall(s, who, Off).(callback := Armed(pos), last := pos + 1, arms := s.arms + 1,
      puts := s.puts + (if pos == 0 then 1 else 0) + (if who.Work? then 1 else 0))
  }

  /** It fails: on to a node that is not passed over, or past the end. */
  function Walk(s: State, who: Who, pos: nat, next: nat): (r: State) {
    SetCall(s, who, if next < |s.done| then At(next) else Past).(refs := s.refs - (if pos == 0 then 1 else 0))
  }

  /** No fence to wait for: the call fails and its caller signals the chain. */
  function Leave(s: State, who: Who): (r: State) {
    SetCall(s, who, Off).(refs := s.refs - 1, signaled := true, puts := s.puts + (if who.Work? then 1 else 0))
  }

  // --------------------------------------------------------------- invariant

  function One(b: bool): (r: nat) {
    if b then 1 else 0
  }

  /** Whoever is in charge of the chain: a call, the callback, or queued work. */
  function Tokens(s: State): (r: nat) {
    One(!s.first.Off?) + One(!s.work.Off?) + One(!s.callback.Free?) + s.queued
  }

  function CallRefs(c: Call): (r: nat) {
    if c.Off? then 0 else if c == At(0) then 2 else 1
  }

  ghost predicate CallOk(s: State, c: Call) {
    && (c.At? ==> c.pos < |s.done| && DoneBetween(s.done, 0, c.pos))
    && (c.Past? ==> DoneBetween(s.done, 0, |s.done|))
  }

  ghost predicate Inv(s: State) {
    && |s.done| > 0
    && Tokens(s) <= 1
    && (Tokens(s) == 0 ==> !s.started || s.signaled)
    && (!s.started ==> Tokens(s) == 0)
    && CallOk(s, s.first) && CallOk(s, s.work)
    && (s.callback.Armed? ==> s.callback.pos < |s.done| && !s.done[s.callback.pos] && s.last == s.callback.pos + 1)
    && DoneBetween(s.done, 0, if s.callback.Armed? then s.callback.pos else s.last)
    && (s.signaled ==> DoneBetween(s.done, 0, |s.done|))
    && s.arms <= s.last <= |s.done|
    && s.refs == s.others + CallRefs(s.first) + CallRefs(s.work) + One(!s.work.Off?) + One(!s.callback.Free?)
        + s.queued + s.puts
    && (!s.first.Off? ==> s.others > 0)
  }

  lemma StartIsOk(s: State)
    requires Start(s)
    ensures Inv(s)
  {
  }

  lemma CallKeepsInv(s: State, who: Who, next: nat)
    requires Inv(s) && Enabled(s, CallSteps(who, next))
    ensures Inv(Step(s, CallSteps(who, next)))
  {
    match CallOf(s, who)
    case At(pos) =>
      if s.done[pos] {
        assert DoneBetween(s.done, 0, next);
      } else {
        assert pos >= s.last;
      }
    case Past =>
  }

  lemma StepKeepsInv(s: State, a: Action)
    requires Inv(s) && Enabled(s, a)
    ensures Inv(Step(s, a))
  {
    if a.CallSteps? {
      CallKeepsInv(s, a.who, a.next);
    } else if a.FenceSignals? {
      SignalKeepsInv(s, a.i);
    } else if a.CallbackRuns? || a.StartFirst? || a.StartWork? {
      StartsKeepInv(s, a);
    } else {
      OthersKeepInv(s, a);
    }
  }

  lemma SignalKeepsInv(s: State, i: nat)
    requires Inv(s) && Enabled(s, FenceSignals(i))
    ensures Inv(Step(s, FenceSignals(i)))
  {
  }

  lemma StartsKeepInv(s: State, a: Action)
    requires Inv(s) && Enabled(s, a) && (a.CallbackRuns? || a.StartFirst? || a.StartWork?)
    ensures Inv(Step(s, a))
  {
  }

  lemma OthersKeepInv(s: State, a: Action)
    requires Inv(s) && Enabled(s, a) && (a.PutLater? || a.Asked? || a.OtherGets? || a.OtherPuts?)
    ensures Inv(Step(s, a))
  {
  }

  // -------------------------------------------------------------- whole runs

  ghost predicate Run(states: seq<State>, acts: seq<Action>) {
    && |states| == |acts| + 1
    && Start(states[0])
    && forall k :: 0 <= k < |acts| ==> Enabled(states[k], acts[k]) && states[k + 1] == Step(states[k], acts[k])
  }

  lemma {:induction false} RunKeepsInv(states: seq<State>, acts: seq<Action>, k: nat)
    requires Run(states, acts) && k <= |acts|
    ensures Inv(states[k])
  {
    if k == 0 {
      StartIsOk(states[0]);
    } else {
      RunKeepsInv(states, acts, k - 1);
      assert states[k - 1 + 1] == Step(states[k - 1], acts[k - 1]);
      StepKeepsInv(states[k - 1], acts[k - 1]);
    }
  }

  /** In every run the chain is signaled only when every contained fence is, and once enabled
      it is never left unsignaled with nobody in charge. */
  lemma SignalsExactlyWhenDone(states: seq<State>, acts: seq<Action>, k: nat)
    requires Run(states, acts) && k <= |acts|
    ensures states[k].signaled ==> forall i :: 0 <= i < |states[k].done| ==> states[k].done[i]
    ensures states[k].started && Tokens(states[k]) == 0 ==> states[k].signaled
  {
    RunKeepsInv(states, acts, k);
  }

  /** The callback is armed by one call at a time and only while it is free; a call never meets
      queued work or another call. So callback and queued work can share their memory, as they
      do in struct dma_fence_chain. */
  lemma OneInCharge(states: seq<State>, acts: seq<Action>, k: nat)
    requires Run(states, acts) && k <= |acts|
    ensures Tokens(states[k]) <= 1
    ensures states[k].queued > 0 ==> states[k].work.Off?
    ensures k < |acts| && acts[k].CallSteps? && states[k + 1].callback.Armed? ==> states[k].callback.Free?
  {
    RunKeepsInv(states, acts, k);
    if k < |acts| {
      assert states[k + 1] == Step(states[k], acts[k]);
    }
  }

  /** Each time it is armed, it is armed further down than before, on a fence that has not
      signalled behind fences that all have; so it is armed at most once for each node. */
  lemma EachArmIsProgress(states: seq<State>, acts: seq<Action>, k: nat)
    requires Run(states, acts) && k < |acts| && states[k + 1].arms > states[k].arms
    ensures states[k + 1].callback.Armed? && states[k + 1].callback.pos >= states[k].last
    ensures forall i :: 0 <= i < states[k + 1].callback.pos ==> states[k].done[i]
    ensures states[k + 1].arms <= |states[k].done|
  {
    RunKeepsInv(states, acts, k);
    RunKeepsInv(states, acts, k + 1);
    assert states[k + 1] == Step(states[k], acts[k]);
  }

  /** The chain cannot be freed while a callback is armed or running, work is queued, or a call
      is under way. */
  lemma FreedChainIsIdle(states: seq<State>, acts: seq<Action>, k: nat)
    requires Run(states, acts) && k <= |acts|
    ensures states[k].refs >= states[k].others + Tokens(states[k]) + states[k].puts
    ensures states[k].refs == 0 ==> Tokens(states[k]) == 0
  {
    RunKeepsInv(states, acts, k);
  }

  // ---------------------------------------------------------------- progress

  ghost predicate AllDone(s: State) {
    forall i :: 0 <= i < |s.done| ==> s.done[i]
  }

  function CallRank(s: State, c: Call): (r: nat) {
    match c
    case Off => 0
    case At(pos) => if pos < |s.done| then |s.done| - pos + 1 else 1
    case Past => 1
  }

  /** The steps left until the chain signals, once every contained fence has. */
  function Rank(s: State): (r: nat) {
    if s.signaled then 0
    else CallRank(s, s.first) + CallRank(s, s.work)
         + (if s.queued > 0 then |s.done| + 2 else 0) + (if s.callback.Free? then 0 else |s.done| + 3)
  }

  /** The steps of whoever is in charge. */
  predicate IsTurn(a: Action) {
    a.CallbackRuns? || a.StartWork? || a.CallSteps?
  }

  /** Each of them brings the signal nearer, and no other step puts it off. */
  lemma TurnIsProgress(s: State, a: Action)
    requires Inv(s) && s.started && AllDone(s) && Enabled(s, a)
    ensures Rank(Step(s, a)) <= Rank(s)
    ensures IsTurn(a) && !s.signaled ==> Rank(Step(s, a)) < Rank(s)
    ensures Step(s, a).started && AllDone(Step(s, a)) && (s.signaled ==> Step(s, a).signaled)
  {
    if a.CallSteps? {
      CallIsProgress(s, a.who, a.next);
    }
  }

  lemma CallIsProgress(s: State, who: Who, next: nat)
    requires Inv(s) && s.started && AllDone(s) && Enabled(s, CallSteps(who, next))
    ensures Rank(Step(s, CallSteps(who, next))) <= Rank(s)
    ensures !s.signaled ==> Rank(Step(s, CallSteps(who, next))) < Rank(s)
  {
    match CallOf(s, who)
    case At(pos) => assert s.done[pos];
    case Past =>
  }

  /** Until it signals, one of them can be taken. */
  lemma TurnIsEnabled(s: State) returns (a: Action)
    requires Inv(s) && s.started && AllDone(s) && !s.signaled
    ensures IsTurn(a) && Enabled(s, a)
  {
    if s.callback.Firing? {
      a := CallbackRuns;
    } else if s.queued > 0 {
      a := StartWork;
    } else if !s.first.Off? {
      a := CallSteps(First, |s.done|);
    } else {
      a := CallSteps(Work, |s.done|);
    }
  }

  function TurnsIn(acts: seq<Action>): (n: nat) {
    if acts == [] then 0 else TurnsIn(acts[..|acts| - 1]) + (if IsTurn(acts[|acts| - 1]) then 1 else 0)
  }

  lemma TurnsPush(acts: seq<Action>, k: nat)
    requires k < |acts|
    ensures TurnsIn(acts[..k + 1]) == TurnsIn(acts[..k]) + (if IsTurn(acts[k]) then 1 else 0)
  {
    assert acts[..k + 1][..k] == acts[..k];
  }

  lemma RunSteps(states: seq<State>, acts: seq<Action>, k: nat)
    requires Run(states, acts) && k < |acts|
    ensures Inv(states[k]) && Enabled(states[k], acts[k]) && states[k + 1] == Step(states[k], acts[k])
  {
    RunKeepsInv(states, acts, k);
    hide Inv, Enabled, Step;
  }

  lemma {:induction false} RankFalls(states: seq<State>, acts: seq<Action>, k: nat, n: nat)
    requires |states| == |acts| + 1 && Run(states, acts) && k <= n <= |acts|
    requires states[k].started && AllDone(states[k])
    ensures states[n].started && AllDone(states[n])
    ensures states[n].signaled || Rank(states[n]) + TurnsIn(acts[..n]) - TurnsIn(acts[..k]) <= Rank(states[k])
    decreases n - k
  {
    hide *;
    if k < n {
      RankFalls(states, acts, k, n - 1);
      RunSteps(states, acts, n - 1);
      assert n - 1 + 1 == n;
      TurnIsProgress(states[n - 1], acts[n - 1]);
      TurnsPush(acts, n - 1);
    }
  }

  /** No chain is left behind: in every run, once every contained fence has signalled in state k
      and signalling is enabled, a chain of n has signalled after n + 4 turns of whoever is in
      charge, whatever else happens in between. */
  lemma FinishedChainSignals(states: seq<State>, acts: seq<Action>, k: nat, n: nat)
    requires Run(states, acts) && k <= n <= |acts| && states[k].started && AllDone(states[k])
    ensures states[n].started && AllDone(states[n])
    ensures TurnsIn(acts[..n]) - TurnsIn(acts[..k]) > |states[k].done| + 3 ==> states[n].signaled
    ensures states[n].signaled || Rank(states[n]) + TurnsIn(acts[..n]) - TurnsIn(acts[..k]) <= Rank(states[k])
  {
    RankIsSmall(states, acts, k);
    RankFalls(states, acts, k, n);
    hide Run, Rank, AllDone;
  }

  lemma RankIsSmall(states: seq<State>, acts: seq<Action>, k: nat)
    requires Run(states, acts) && k <= |acts|
    ensures Rank(states[k]) <= |states[k].done| + 3
  {
    RunKeepsInv(states, acts, k);
  }
}
