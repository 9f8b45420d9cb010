/** A fence over an array of fences (dma-fence-array.c): the loop that arms a callback on each
    child, racing with the children, their callbacks, the queued work and readers. */
module ArrayProtocol {

  /** A child as seen by the array: nothing done yet; the base reference for its callback
      taken; the callback armed; running; refused because the child had signalled; the
      reference for it put back; the child counted off. */
  datatype Phase = Untouched | Taken | Armed | Firing | Refused | Dropped | Counted

  datatype Enable = Never | Loop(i: nat) | Failing | Finished

  /** The queued work: idle, queued, or about to put the base after having signalled it. */
  datatype Work = Idle | Queued | Putting

  datatype State = State(
    any: bool, done: seq<bool>, phases: seq<Phase>, pending: int,
    enable: Enable, work: Work, signaled: bool, refs: int, others: nat, zeroed: nat)

  datatype Action =
    | ChildSignals(i: nat)
    | CallbackRuns(i: nat)
    | StartEnable
    | EnableSteps
    | WorkSteps
    | Asked
    | OtherGets
    | OtherPuts

  ghost predicate Start(s: State) {
    && |s.phases| == |s.done|
    && (forall i :: 0 <= i < |s.phases| ==> s.phases[i] == Untouched)
    && s.pending == Initial(s)
    && s.enable == Never && s.work == Idle && !s.signaled
    && s.refs == s.others && s.zeroed == 0
  }

  /** The count that dma_fence_array_create starts with. */
  function Initial(s: State): (r: nat) {
    if s.any then 1 else |s.phases|
  }

  /** The base's lock is held while callbacks are armed. */
  predicate Locked(s: State) {
    s.enable.Loop? || s.enable.Failing?
  }

  predicate Enabled(s: State, a: Action) {
    match a
    case ChildSignals(i) => i < |s.done| == |s.phases|
    case CallbackRuns(i) => i < |s.phases| && s.phases[i] == Firing
    case StartEnable => s.enable.Never? && s.others > 0
    case EnableSteps => Locked(s) && |s.done| == |s.phases| && (s.enable.Loop? ==> s.enable.i <= |s.phases|)
    case WorkSteps => !s.work.Idle? && (s.work.Queued? ==> !Locked(s))
    case Asked => s.pending <= 0 && !Locked(s)
    case OtherGets => s.others > 0
    case OtherPuts => s.others > (if Locked(s) then 1 else 0)
  }

  function Step(s: State, a: Action): (r: State)
    requires Enabled(s, a)
  {
    match a
    case ChildSignals(i) =>
      s.(done := s.done[i := true], phases := if s.phases[i].Armed? then s.phases[i := Firing] else s.phases)
    case CallbackRuns(i) => CallbackStep(s, i)
    case StartEnable => s.(enable := if s.signaled then Finished else Loop(0))
    case EnableSteps => if s.enable.Failing? then s.(enable := Finished, signaled := true) else LoopStep(s)
    case WorkSteps =>
      if s.work.Queued? then s.(work := Putting, signaled := true)
      else s.(work := Idle, refs := s.refs - 1)
    case Asked => s.(signaled := true)
    case OtherGets => s.(others := s.others + 1, refs := s.refs + 1)
    case OtherPuts => s.(others := s.others - 1, refs := s.refs - 1)
  }

  /** atomic_dec_and_test. */
  function Decrement(s: State): (r: State) {
    s.(pending := s.pending - 1, zeroed := s.zeroed + (if s.pending == 1 then 1 else 0))
  }

  /** dma_fence_array_cb_func: the last one leaves its reference to the work. */
  function CallbackStep(s: State, i: nat): (r: State)
    requires i < |s.phases|
  {
    var t := Decrement(s).(phases := s.phases[i := Counted]);
    if t.pending == 0 then t.(work := Queued) else t.(refs := s.refs - 1)
  }

  /** dma_fence_array_enable_signaling, one shared access at a time. */
  function LoopStep(s: State): (r: State)
    requires s.enable.Loop? && s.enable.i <= |s.phases| == |s.done|
  {
    var i := s.enable.i;
    if i == |s.phases| then s.(enable := Finished)
    else match s.phases[i]
      case Untouched => s.(phases := s.phases[i := Taken], refs := s.refs + 1)
      case Taken =>
        if s.done[i] then s.(phases := s.phases[i := Refused])
        else s.(phases := s.phases[i := Armed], enable := Loop(i + 1))
      case Refused => s.(phases := s.phases[i := Dropped], refs := s.refs - 1)
      case Dropped =>
        var t := Decrement(s).(phases := s.phases[i := Counted]);
        t.(enable := if t.pending == 0 then Failing else Loop(i + 1))
      case _ => s
  }

  // ---------------------------------------------------------------- counting

  /** The base references that stand for children. */
  function Weight(p: Phase): (r: nat) {
    if p.Taken? || p.Armed? || p.Firing? || p.Refused? then 1 else 0
  }

  function Weights(ps: seq<Phase>): (r: nat) {
    if ps == [] then 0 else Weights(ps[..|ps| - 1]) + Weight(ps[|ps| - 1])
  }

  function CountedOff(ps: seq<Phase>): (r: nat) {
    if ps == [] then 0 else CountedOff(ps[..|ps| - 1]) + (if ps[|ps| - 1].Counted? then 1 else 0)
  }

  lemma {:induction false} SetPhase(ps: seq<Phase>, i: nat, p: Phase)
    requires i < |ps|
    ensures Weights(ps[i := p]) == Weights(ps) - Weight(ps[i]) + Weight(p)
    ensures CountedOff(ps[i := p]) == CountedOff(ps) - (if ps[i].Counted? then 1 else 0) + (if p.Counted? then 1 else 0)
  {
    var last := |ps| - 1;
    if i == last {
      assert ps[i := p][..last] == ps[..last];
    } else {
      SetPhase(ps[..last], i, p);
      assert ps[i := p][..last] == ps[..last][i := p];
    }
  }

  lemma {:induction false} AllCounted(ps: seq<Phase>)
    ensures CountedOff(ps) <= |ps|
    ensures CountedOff(ps) == |ps| <==> forall i :: 0 <= i < |ps| ==> ps[i].Counted?
    ensures CountedOff(ps) == 0 <==> forall i :: 0 <= i < |ps| ==> !ps[i].Counted?
  {
    if ps != [] {
      AllCounted(ps[..|ps| - 1]);
    }
  }

  lemma {:induction false} WeightAt(ps: seq<Phase>, i: nat)
    requires i < |ps|
    ensures Weight(ps[i]) <= Weights(ps)
  {
    if i < |ps| - 1 {
      WeightAt(ps[..|ps| - 1], i);
    }
  }

  lemma {:induction false} StartCounts(ps: seq<Phase>)
    requires forall i :: 0 <= i < |ps| ==> ps[i] == Untouched
    ensures Weights(ps) == 0 == CountedOff(ps)
  {
    if ps != [] {
      StartCounts(ps[..|ps| - 1]);
    }
  }

  // --------------------------------------------------------------- invariant

  predicate Settling(p: Phase) {
    p.Armed? || p.Firing? || p.Counted?
  }

  /** How far the loop has come, child by child. */
  predicate PhaseOk(s: State, i: nat)
    requires i < |s.phases| == |s.done|
  {
    var p := s.phases[i];
    && (p.Firing? || p.Refused? || p.Dropped? || p.Counted? ==> s.done[i])
    && (p.Armed? ==> !s.done[i])
    && match s.enable
       case Never => p.Untouched?
       case Loop(k) => if i < k then Settling(p) else if i == k then !Settling(p) else p.Untouched?
       case Failing => p.Untouched? || Settling(p)
       case Finished => if s.signaled then p.Untouched? || Settling(p) else Settling(p)
  }

  ghost predicate Shape(s: State) {
    && |s.phases| == |s.done|
    && (s.enable.Loop? ==> s.enable.i <= |s.phases|)
    && forall i :: 0 <= i < |s.phases| ==> PhaseOk(s, i)
  }

  /** Extra references of the base: one for each callback that is armed, running or being
      armed, and one for the queued work. */
  ghost predicate RefsOk(s: State) {
    s.refs == s.others + Weights(s.phases) + (if s.work.Idle? then 0 else 1)
  }

  /** The count goes down once for each child counted off, and passes zero once. */
  ghost predicate CountOk(s: State) {
    && s.pending == Initial(s) - CountedOff(s.phases)
    && (s.zeroed == if Initial(s) > 0 && s.pending <= 0 then 1 else 0)
    && (s.zeroed == 0 ==> s.work.Idle? && !s.enable.Failing?)
    && (s.zeroed == 1 ==> s.signaled || s.work.Queued? || s.enable.Failing?)
    && (s.signaled ==> s.pending <= 0)
    && (s.work.Putting? ==> s.signaled)
  }

  ghost predicate Inv(s: State) {
    Shape(s) && RefsOk(s) && CountOk(s) && (Locked(s) ==> s.others > 0)
  }

  lemma StartIsOk(s: State)
    requires Start(s)
    ensures Inv(s)
  {
    StartCounts(s.phases);
  }

  lemma ChildSignalsKeeps(s: State, i: nat)
    requires Inv(s) && Enabled(s, ChildSignals(i))
    ensures Inv(Step(s, ChildSignals(i)))
  {
    var t := Step(s, ChildSignals(i));
    assert PhaseOk(s, i);
    SetPhase(s.phases, i, Firing);
    forall j | 0 <= j < |t.phases|
      ensures PhaseOk(t, j)
    {
      assert PhaseOk(s, j);
    }
  }

  lemma CallbackRunsKeeps(s: State, i: nat)
    requires Inv(s) && Enabled(s, CallbackRuns(i))
    ensures Inv(Step(s, CallbackRuns(i)))
  {
    var t := Step(s, CallbackRuns(i));
    assert PhaseOk(s, i);
    SetPhase(s.phases, i, Counted);
    AllCounted(s.phases);
    forall j | 0 <= j < |t.phases|
      ensures PhaseOk(t, j)
    {
      assert PhaseOk(s, j);
    }
  }

  lemma LoopKeepsShape(s: State)
    requires Shape(s) && s.enable.Loop?
    ensures Shape(LoopStep(s))
  {
    var t := LoopStep(s);
    forall j | 0 <= j < |t.phases|
      ensures PhaseOk(t, j)
    {
      assert PhaseOk(s, j);
      assert s.enable.i < |s.phases| ==> PhaseOk(s, s.enable.i);
    }
  }

  lemma LoopKeepsCounts(s: State)
    requires Inv(s) && s.enable.Loop?
    ensures RefsOk(LoopStep(s)) && CountOk(LoopStep(s)) && (Locked(LoopStep(s)) ==> s.others > 0)
  {
    AllCounted(s.phases);
    if s.enable.i < |s.phases| {
      assert PhaseOk(s, s.enable.i);
      LoopCounts(s);
    }
  }

  lemma LoopCounts(s: State)
    requires s.enable.Loop? && s.enable.i < |s.phases| == |s.done| && !Settling(s.phases[s.enable.i])
    ensures var t, p := LoopStep(s), s.phases[s.enable.i];
            Weights(t.phases) - t.refs == Weights(s.phases) - s.refs
            && CountedOff(t.phases) == CountedOff(s.phases) + (if p.Dropped? then 1 else 0)
  {
    var i := s.enable.i;
    SetPhase(s.phases, i, LoopStep(s).phases[i]);
  }

  lemma OthersKeep(s: State, a: Action)
    requires Inv(s) && Enabled(s, a) && !a.ChildSignals? && !a.CallbackRuns? && !(a.EnableSteps? && s.enable.Loop?)
    ensures Inv(Step(s, a))
  {
    AllCounted(s.phases);
    OthersKeepShape(s, a);
  }

  lemma OthersKeepShape(s: State, a: Action)
    requires Shape(s) && Enabled(s, a) && !a.ChildSignals? && !a.CallbackRuns? && !(a.EnableSteps? && s.enable.Loop?)
    ensures Shape(Step(s, a))
  {
    var t := Step(s, a);
    forall j | 0 <= j < |t.phases|
      ensures PhaseOk(t, j)
    {
      assert PhaseOk(s, j);
    }
  }

  lemma StepKeepsInv(s: State, a: Action)
    requires Inv(s) && Enabled(s, a)
    ensures Inv(Step(s, a))
  {
    if a.ChildSignals? {
      ChildSignalsKeeps(s, a.i);
    } else if a.CallbackRuns? {
      CallbackRunsKeeps(s, a.i);
    } else if a.EnableSteps? && s.enable.Loop? {
      LoopKeepsShape(s);
      LoopKeepsCounts(s);
    } else {
      OthersKeep(s, a);
    }
  }

  // -------------------------------------------------------------- whole runs

  ghost predicate Run(states: seq<State>, acts: seq<Action>) {
    && |states| == |acts| + 1
    && Start(states[0])
    && forall k :: 0 <= k < |acts| ==> Enabled(states[k], acts[k]) && states[k + 1] == Step(states[k], acts[k])
  }

  lemma {:induction false} RunKeepsInv(states: seq<State>, acts: seq<Action>, k: nat)
    requires Run(states, acts) && k <= |acts|
    ensures Inv(states[k])
  {
    if k == 0 {
      StartIsOk(states[0]);
    } else {
      RunKeepsInv(states, acts, k - 1);
      assert states[k - 1 + 1] == Step(states[k - 1], acts[k - 1]);
      StepKeepsInv(states[k - 1], acts[k - 1]);
    }
  }

  /** What dma_fence_is_signaled would answer. */
  predicate Reports(s: State) {
    s.signaled || s.pending <= 0
  }

  /** The children that the array stands for have signalled. */
  ghost predicate Settled(s: State) {
    if s.any then exists i :: 0 <= i < |s.done| && s.done[i]
    else forall i :: 0 <= i < |s.done| ==> s.done[i]
  }

  /** In every run the array reports signaled only after all its children have, or one of them
      for an "any" array; and the count passes from one to zero at most once. */
  lemma ReportsOnlyWhenSettled(states: seq<State>, acts: seq<Action>, k: nat)
    requires Run(states, acts) && k <= |acts|
    ensures Reports(states[k]) ==> Settled(states[k])
    ensures states[k].zeroed <= 1
  {
    RunKeepsInv(states, acts, k);
    var s := states[k];
    AllCounted(s.phases);
    if Reports(s) && s.any {
      var i :| 0 <= i < |s.phases| && s.phases[i].Counted?;
      assert PhaseOk(s, i);
    } else if Reports(s) {
      forall i | 0 <= i < |s.done|
        ensures s.done[i]
      {
        assert PhaseOk(s, i);
      }
    }
  }

  /** Without children an array has signalled from the start, or never will if it waits for any. */
  lemma WithoutChildrenAtOnceOrNever(states: seq<State>, acts: seq<Action>, k: nat)
    requires Run(states, acts) && k <= |acts| && states[k].done == []
    ensures Reports(states[k]) <==> !states[k].any
  {
    RunKeepsInv(states, acts, k);
  }

  /** No signal is lost: once signalling has been enabled and nothing is running or queued, an
      array with children is signaled exactly when they are settled. */
  lemma QuietArrayIsExact(states: seq<State>, acts: seq<Action>, k: nat)
    requires Run(states, acts) && k <= |acts|
    requires states[k].enable.Finished? && states[k].work.Idle? && |states[k].done| > 0
    requires forall i :: 0 <= i < |states[k].phases| ==> !states[k].phases[i].Firing?
    ensures states[k].signaled <==> Settled(states[k])
  {
    ReportsOnlyWhenSettled(states, acts, k);
    RunKeepsInv(states, acts, k);
    if Settled(states[k]) {
      SettledIsCounted(states[k]);
    }
  }

  lemma SettledIsCounted(s: State)
    requires Shape(s) && s.enable.Finished? && Settled(s) && |s.done| > 0
    requires s.pending == Initial(s) - CountedOff(s.phases)
    requires forall i :: 0 <= i < |s.phases| ==> !s.phases[i].Firing?
    ensures s.signaled || s.pending <= 0
  {
    AllCounted(s.phases);
    forall i | 0 <= i < |s.phases| && s.done[i]
      ensures s.signaled || s.phases[i].Counted?
    {
      assert PhaseOk(s, i);
    }
  }

  /** The base carries one reference per armed or running callback and one for queued work
      beside those of others; so none of them is left when it is freed. */
  lemma FreedArrayIsIdle(states: seq<State>, acts: seq<Action>, k: nat)
    requires Run(states, acts) && k <= |acts|
    ensures states[k].refs == states[k].others + Weights(states[k].phases) + (if states[k].work.Idle? then 0 else 1)
    ensures states[k].refs == 0 ==> states[k].work.Idle? && !Locked(states[k])
    ensures states[k].refs == 0 ==>
              forall i :: 0 <= i < |states[k].phases| ==> !states[k].phases[i].Armed? && !states[k].phases[i].Firing?
  {
    RunKeepsInv(states, acts, k);
    forall i | 0 <= i < |states[k].phases|
      ensures Weight(states[k].phases[i]) <= Weights(states[k].phases)
    {
      WeightAt(states[k].phases, i);
    }
  }

  // ---------------------------------------------------------------- progress

  /** The steps that are left for a child, until it is counted off or waited for. */
  function Left(p: Phase): (r: nat) {
    match p
    case Untouched => 9
    case Taken => 8
    case Refused => 7
    case Dropped => 6
    case Armed => 5
    case Firing => 4
    case Counted => 0
  }

  function LeftIn(ps: seq<Phase>): (r: nat) {
    if ps == [] then 0 else LeftIn(ps[..|ps| - 1]) + Left(ps[|ps| - 1])
  }

  lemma {:induction false} SetLeft(ps: seq<Phase>, i: nat, p: Phase)
    requires i < |ps|
    ensures LeftIn(ps[i := p]) == LeftIn(ps) - Left(ps[i]) + Left(p)
  {
    var last := |ps| - 1;
    if i == last {
      assert ps[i := p][..last] == ps[..last];
    } else {
      SetLeft(ps[..last], i, p);
      assert ps[i := p][..last] == ps[..last][i := p];
    }
  }

  function EnableLeft(e: Enable): (r: nat) {
    match e case Never => 3 case Loop(_) => 2 case Failing => 1 case Finished => 0
  }

  function WorkLeft(w: Work): (r: nat) {
    match w case Idle => 0 case Queued => 2 case Putting => 1
  }

  /** The steps left until nothing is under way. */
  function Rank(s: State): (r: nat) {
    LeftIn(s.phases) + EnableLeft(s.enable) + WorkLeft(s.work)
  }

  /** The steps that belong to the array itself. */
  predicate IsTurn(a: Action) {
    a.CallbackRuns? || a.EnableSteps? || a.WorkSteps?
  }

  lemma LoopIsProgress(s: State)
    requires Inv(s) && s.enable.Loop?
    ensures Rank(LoopStep(s)) < Rank(s)
  {
    var i := s.enable.i;
    if i < |s.phases| {
      assert PhaseOk(s, i);
      SetLeft(s.phases, i, LoopStep(s).phases[i]);
    }
  }

  lemma StepIsProgress(s: State, a: Action)
    requires Inv(s) && Enabled(s, a)
    ensures Rank(Step(s, a)) <= Rank(s)
    ensures IsTurn(a) ==> Rank(Step(s, a)) < Rank(s)
  {
    match a
    case ChildSignals(i) =>
      if s.phases[i].Armed? {
        SetLeft(s.phases, i, Firing);
      }
    case CallbackRuns(i) => SetLeft(s.phases, i, Counted);
    case EnableSteps =>
      if s.enable.Loop? {
        LoopIsProgress(s);
      }
    case _ =>
  }

  /** Nothing is under way: no callback running, the loop over, no work. */
  predicate AtRest(s: State) {
    !Locked(s) && s.work.Idle? && forall i :: 0 <= i < |s.phases| ==> !s.phases[i].Firing?
  }

  lemma TurnIsEnabled(s: State) returns (a: Action)
    requires Inv(s) && !AtRest(s)
    ensures IsTurn(a) && Enabled(s, a)
  {
    if Locked(s) {
      a := EnableSteps;
    } else if !s.work.Idle? {
      a := WorkSteps;
    } else {
      var i: nat :| i < |s.phases| && s.phases[i].Firing?;
      a := CallbackRuns(i);
    }
  }

  function TurnsIn(acts: seq<Action>): (n: nat) {
    if acts == [] then 0 else TurnsIn(acts[..|acts| - 1]) + (if IsTurn(acts[|acts| - 1]) then 1 else 0)
  }

  lemma TurnsPush(acts: seq<Action>, k: nat)
    requires k < |acts|
    ensures TurnsIn(acts[..k + 1]) == TurnsIn(acts[..k]) + (if IsTurn(acts[k]) then 1 else 0)
  {
    assert acts[..k + 1][..k] == acts[..k];
  }

  lemma {:induction false} LeftAtFirst(ps: seq<Phase>)
    requires forall i :: 0 <= i < |ps| ==> ps[i] == Untouched
    ensures LeftIn(ps) == 9 * |ps|
  {
    if ps != [] {
      LeftAtFirst(ps[..|ps| - 1]);
    }
  }

  /** No array keeps itself busy: a run has at most 9n + 3 turns of the array over n children; so it
      comes to rest, where QuietArrayIsExact says what it reports. */
  lemma {:induction false} TurnsAreFew(states: seq<State>, acts: seq<Action>, k: nat)
    requires Run(states, acts) && k <= |acts|
    ensures TurnsIn(acts[..k]) + Rank(states[k]) <= 9 * |states[0].done| + 3
  {
    if k == 0 {
      LeftAtFirst(states[0].phases);
    } else {
      TurnsAreFew(states, acts, k - 1);
      RunKeepsInv(states, acts, k - 1);
      assert Enabled(states[k - 1], acts[k - 1]) && states[k - 1 + 1] == Step(states[k - 1], acts[k - 1]);
      hide Step, Enabled, Inv, Rank;
      StepIsProgress(states[k - 1], acts[k - 1]);
      TurnsPush(acts, k - 1);
    }
  }

  /** And when it has come to rest, enabled and with a child at least, it has signalled exactly if
      its children have settled it. */
  lemma RestIsExact(states: seq<State>, acts: seq<Action>, k: nat)
    requires Run(states, acts) && k <= |acts| && AtRest(states[k])
    requires !states[k].enable.Never? && |states[k].done| > 0
    ensures states[k].signaled <==> Settled(states[k])
  {
    QuietArrayIsExact(states, acts, k);
  }
}
