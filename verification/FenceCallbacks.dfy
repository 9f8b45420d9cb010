/** Signalling of one fence and the callbacks that wait for it (dma-fence.c). */
module FenceCallbacks {
  import opened Lists

  const EINVAL: int := 22
  const ENOENT: int := 2

  /** What happens to a callback: added to the list, refused, run, removed, or found to be on
      no list. */
  datatype Event = Added(cb: nat) | Refused(cb: nat) | Ran(cb: nat) | Removed(cb: nat) | NotRemoved(cb: nat)

  /** The fence's bits, its list of callbacks, and everything that has happened so far. */
  datatype State = State(signaled: bool, enabled: bool, queue: seq<nat>, log: seq<Event>)

  /** The driver's enable_signaling: there is none, it succeeds, or it finds the fence done. */
  datatype Hook = Absent | Succeeds | FindsDone

  function RanAll(queue: seq<nat>): (r: seq<Event>) {
    if queue == [] then [] else RanAll(queue[..|queue| - 1]) + [Ran(queue[|queue| - 1])]
  }

  function Log(s: State, e: Event): (r: State) {
    s.(log := s.log + [e])
  }

  /** dma_fence_signal_timestamp_locked. */
  function SignalStep(s: State): (r: State) {
    if s.signaled then s else s.(signaled := true, queue := [], log := s.log + RanAll(s.queue))
  }

  /** The part that enabling a fence has in common. */
  function EnableStep(s: State, hook: Hook): (r: State) {
    var t := s.(enabled := true);
    if !s.signaled && !s.enabled && hook.FindsDone? then SignalStep(t) else t
  }

  /** The part of dma_fence_add_callback under the lock. */
  function AddStep(s: State, cb: nat, hook: Hook): (r: State) {
    var t := EnableStep(s, hook);
    if t.signaled then Log(t, Refused(cb)) else Log(t.(queue := t.queue + [cb]), Added(cb))
  }

  function RemoveStep(s: State, cb: nat): (r: State) {
    if cb in s.queue then Log(s.(queue := Without(s.queue, cb)), Removed(cb)) else Log(s, NotRemoved(cb))
  }

  class FenceObject {
    var signaled: bool
    var enabled: bool
    var queue: seq<nat>
    ghost var log: seq<Event>

    ghost function Now(): (result: State)
      reads this
    {
      State(signaled, enabled, queue, log)
    }

    /** dma_fence_init. */
    constructor ()
      ensures Now() == State(false, false, [], [])
    {
      signaled, enabled, queue, log := false, false, [], [];
    }

    /** dma_fence_signal_locked. */
    method Signal() returns (rv: int)
      modifies this
      ensures Now() == SignalStep(old(Now()))
      ensures rv == if old(signaled) then -EINVAL else 0
      ensures signaled && (!old(signaled) ==> queue == [])
    {
      if signaled {
        return -EINVAL;
      }
      signaled := true;
      var list := queue;
      queue := [];
      var i := 0;
      while i < |list|
        invariant i <= |list|
        invariant Now() == State(true, old(enabled), [], old(log) + RanAll(list[..i]))
      {
        log := log + [Ran(list[i])];
        assert list[..i + 1][..i] == list[..i];
        i := i + 1;
      }
      assert list[..i] == list;
      return 0;
    }

    /** dma_fence_enable_sw_signaling. */
    method EnableSwSignaling(hook: Hook)
      modifies this
      ensures Now() == EnableStep(old(Now()), hook)
      ensures enabled && signaled == (old(signaled) || (!old(enabled) && hook.FindsDone?))
    {
      var wasEnabled := enabled;
      enabled := true;
      if signaled {
        return;
      }
      if !wasEnabled && !hook.Absent? {
        if hook.FindsDone? {
          var _ := Signal();
        }
      }
    }

    /** dma_fence_add_callback, with a function or NULL. The test ahead of the lock leaves the
        enable bit alone. */
    method AddCallback(cb: nat, hasFunction: bool, hook: Hook) returns (rv: int)
      modifies this
      ensures Now() == if !hasFunction then old(Now())
                       else if old(signaled) then Log(old(Now()), Refused(cb))
                       else AddStep(old(Now()), cb, hook)
      ensures rv == if !hasFunction then -EINVAL else if signaled then -ENOENT else 0
      ensures hasFunction ==> signaled == (old(signaled) || (!old(enabled) && hook.FindsDone?))
      ensures rv == 0 ==> enabled && queue == old(queue) + [cb] && log == old(log) + [Added(cb)]
      ensures rv != 0 && hasFunction ==> |log| > |old(log)| && log[|log| - 1] == Refused(cb)
    {
      if !hasFunction {
        return -EINVAL;
      }
      rv := 0;
      if signaled {
        log := log + [Refused(cb)];
        return -ENOENT;
      }
      var wasEnabled := enabled;
      enabled := true;
      if signaled {
        rv := -ENOENT;
      } else if !wasEnabled && !hook.Absent? {
        if hook.FindsDone? {
          var _ := Signal();
          rv := -ENOENT;
        }
      }
      if rv == 0 {
        queue := queue + [cb];
        log := log + [Added(cb)];
      } else {
        log := log + [Refused(cb)];
      }
    }

    /** dma_fence_remove_callback, for a callback that has been passed to add before. */
    method RemoveCallback(cb: nat) returns (rv: bool)
      modifies this
      ensures Now() == RemoveStep(old(Now()), cb)
      ensures rv == (cb in old(queue))
      ensures cb !in queue && (forall x :: x in queue <==> x in old(queue) && x != cb)
    {
      rv := cb in queue;
      if rv {
        queue := Without(queue, cb);
        log := log + [Removed(cb)];
      } else {
        log := log + [NotRemoved(cb)];
      }
    }

    /** dma_fence_is_signaled, with the answer of the driver's own test. */
    method IsSignaled(driverSays: bool) returns (r: bool)
      modifies this
      ensures Now() == if driverSays then SignalStep(old(Now())) else old(Now())
      ensures r == signaled && r == (old(signaled) || driverSays)
    {
      if signaled {
        return true;
      }
      if driverSays {
        var _ := Signal();
        return true;
      }
      return false;
    }
  }

  // -------------------------------------------------------------- whole runs

  /** The steps of all threads: each is taken under the fence's lock or reads one bit. */
  datatype Op =
    | Signals
    | Enables(hook: Hook)
    | Adds(cb: nat, hook: Hook)
    | SeesSignaled(cb: nat)
    | Removes(cb: nat)

  /** Callers do not add a callback that is on the list. */
  predicate Allowed(s: State, op: Op) {
    match op
    case Adds(cb, hook) => cb !in s.queue
    case SeesSignaled(cb) => s.signaled
    case _ => true
  }

  function Step(s: State, op: Op): (r: State) {
    match op
    case Signals => SignalStep(s)
    case Enables(hook) => EnableStep(s, hook)
    case Adds(cb, hook) => AddStep(s, cb, hook)
    case SeesSignaled(cb) => Log(s, Refused(cb))
    case Removes(cb) => RemoveStep(s, cb)
  }

  ghost predicate Run(states: seq<State>, ops: seq<Op>) {
    && |states| == |ops| + 1
    && states[0] == State(false, false, [], [])
    && forall k :: 0 <= k < |ops| ==> Allowed(states[k], ops[k]) && states[k + 1] == Step(states[k], ops[k])
  }

  function Times(log: seq<Event>, e: Event): (r: nat) {
    if log == [] then 0 else Times(log[..|log| - 1], e) + (if log[|log| - 1] == e then 1 else 0)
  }

  function On(queue: seq<nat>, cb: nat): (r: nat) {
    if cb in queue then 1 else 0
  }

  /** Each time a callback was added it has been run, or removed, or is still waiting. */
  ghost predicate Balanced(s: State, cb: nat) {
    Times(s.log, Added(cb)) == Times(s.log, Ran(cb)) + Times(s.log, Removed(cb)) + On(s.queue, cb)
  }

  ghost predicate Inv(s: State) {
    && Distinct(s.queue)
    && (s.signaled ==> s.queue == [])
    && forall cb: nat :: Balanced(s, cb)
  }

  lemma TimesPush(log: seq<Event>, e: Event, x: Event)
    ensures Times(log + [e], x) == Times(log, x) + (if e == x then 1 else 0)
  {
    assert (log + [e])[..|log|] == log;
  }

  lemma {:induction false} TimesRanAll(log: seq<Event>, queue: seq<nat>, x: Event)
    requires Distinct(queue)
    ensures Times(log + RanAll(queue), x) == Times(log, x) + (if x.Ran? then On(queue, x.cb) else 0)
  {
    if queue == [] {
      assert log + [] == log;
    } else {
      var last := |queue| - 1;
      TimesRanAll(log, queue[..last], x);
      TimesPush(log + RanAll(queue[..last]), Ran(queue[last]), x);
      assert log + RanAll(queue) == log + RanAll(queue[..last]) + [Ran(queue[last])];
      assert queue == queue[..last] + [queue[last]];
    }
  }

  lemma SignalKeepsInv(s: State)
    requires Inv(s)
    ensures Inv(SignalStep(s))
  {
    if !s.signaled {
      forall cb: nat
        ensures Balanced(SignalStep(s), cb)
      {
        assert Balanced(s, cb);
        TimesRanAll(s.log, s.queue, Added(cb));
        TimesRanAll(s.log, s.queue, Ran(cb));
        TimesRanAll(s.log, s.queue, Removed(cb));
      }
    }
  }

  lemma LogKeepsBalance(s: State, e: Event, cb: nat)
    requires Balanced(s, cb)
    ensures Times(Log(s, e).log, Added(cb)) == Times(s.log, Added(cb)) + (if e == Added(cb) then 1 else 0)
    ensures Times(Log(s, e).log, Ran(cb)) == Times(s.log, Ran(cb)) + (if e == Ran(cb) then 1 else 0)
    ensures Times(Log(s, e).log, Removed(cb)) == Times(s.log, Removed(cb)) + (if e == Removed(cb) then 1 else 0)
  {
    TimesPush(s.log, e, Added(cb));
    TimesPush(s.log, e, Ran(cb));
    TimesPush(s.log, e, Removed(cb));
  }

  lemma EnableKeepsInv(s: State, hook: Hook)
    requires Inv(s)
    ensures Inv(EnableStep(s, hook))
  {
    var t := s.(enabled := true);
    assert forall cb: nat :: Balanced(s, cb) ==> Balanced(t, cb);
    SignalKeepsInv(t);
  }

  lemma AddKeepsInv(s: State, cb: nat, hook: Hook)
    requires Inv(s) && cb !in s.queue
    ensures Inv(AddStep(s, cb, hook))
  {
    EnableKeepsInv(s, hook);
    var t := EnableStep(s, hook);
    var e := if t.signaled then Refused(cb) else Added(cb);
    forall x: nat
      ensures Balanced(AddStep(s, cb, hook), x)
    {
      assert Balanced(t, x);
      LogKeepsBalance(t, e, x);
    }
  }

  lemma RemoveKeepsInv(s: State, cb: nat)
    requires Inv(s)
    ensures Inv(RemoveStep(s, cb))
  {
    WithoutDistinct(s.queue, cb);
    var e := if cb in s.queue then Removed(cb) else NotRemoved(cb);
    forall x: nat
      ensures Balanced(RemoveStep(s, cb), x)
    {
      assert Balanced(s, x);
      LogKeepsBalance(s, e, x);
    }
  }

  lemma StepKeepsInv(s: State, op: Op)
    requires Inv(s) && Allowed(s, op)
    ensures Inv(Step(s, op))
  {
    match op
    case Signals => SignalKeepsInv(s);
    case Enables(hook) => EnableKeepsInv(s, hook);
    case Adds(cb, hook) => AddKeepsInv(s, cb, hook);
    case SeesSignaled(cb) =>
      forall x: nat
        ensures Balanced(Step(s, op), x)
      {
        assert Balanced(s, x);
        LogKeepsBalance(s, Refused(cb), x);
      }
    case Removes(cb) => RemoveKeepsInv(s, cb);
  }

  lemma {:induction false} RunKeepsInv(states: seq<State>, ops: seq<Op>, k: nat)
    requires Run(states, ops) && k <= |ops|
    ensures Inv(states[k])
  {
    if k == 0 {
      forall cb: nat
        ensures Balanced(states[0], cb)
      {
      }
    } else {
      RunKeepsInv(states, ops, k - 1);
      assert states[k - 1 + 1] == Step(states[k - 1], ops[k - 1]);
      StepKeepsInv(states[k - 1], ops[k - 1]);
    }
  }

  /** In every run, however the threads interleave: each successful add is matched by exactly
      one run, or one successful removal, or the callback still waits on an unsignaled fence. */
  lemma CallbacksRunExactlyOnce(states: seq<State>, ops: seq<Op>, k: nat, cb: nat)
    requires Run(states, ops) && k <= |ops|
    ensures Times(states[k].log, Added(cb))
            == Times(states[k].log, Ran(cb)) + Times(states[k].log, Removed(cb)) + On(states[k].queue, cb)
    ensures cb in states[k].queue ==> !states[k].signaled
  {
    RunKeepsInv(states, ops, k);
    assert Balanced(states[k], cb);
  }

  ghost predicate Idle(log: seq<Event>, from: nat) {
    forall i :: from <= i < |log| ==> log[i].Refused? || log[i].NotRemoved?
  }

  /** A signaled fence stays signaled, and from then on callbacks are only refused. */
  lemma {:induction false} SignaledForGood(states: seq<State>, ops: seq<Op>, j: nat, k: nat)
    requires Run(states, ops) && j <= k <= |ops| && states[j].signaled
    ensures states[k].signaled
    ensures |states[j].log| <= |states[k].log| && states[k].log[..|states[j].log|] == states[j].log
    ensures Idle(states[k].log, |states[j].log|)
  {
    if j < k {
      SignaledForGood(states, ops, j, k - 1);
      RunKeepsInv(states, ops, k - 1);
      assert states[k - 1 + 1] == Step(states[k - 1], ops[k - 1]);
      SignaledStep(states[k - 1], ops[k - 1]);
    }
  }

  lemma SignaledStep(s: State, op: Op)
    requires s.signaled && s.queue == []
    ensures Step(s, op).signaled
    ensures Step(s, op).log == s.log
         || exists e: Event :: (e.Refused? || e.NotRemoved?) && Step(s, op).log == s.log + [e]
  {
    match op
    case Adds(cb, hook) => assert Step(s, op).log == s.log + [Refused(cb)];
    case SeesSignaled(cb) => assert Step(s, op).log == s.log + [Refused(cb)];
    case Removes(cb) => assert Step(s, op).log == s.log + [NotRemoved(cb)];
    case _ =>
  }

  /** An add that fails leaves the fence signaled, and its callback is never run after it. */
  lemma RefusedNeverRuns(states: seq<State>, ops: seq<Op>, j: nat, k: nat, i: nat)
    requires Run(states, ops) && j <= k <= |ops| && i < |states[j].log| && states[j].log[i].Refused?
    ensures states[j].signaled
    ensures forall m :: i <= m < |states[k].log| ==> !states[k].log[m].Ran?
  {
    RefusedOnlyWhenSignaled(states, ops, j, i);
    SignaledForGood(states, ops, j, k);
    forall m | i <= m < |states[k].log|
      ensures !states[k].log[m].Ran?
    {
      if m < |states[j].log| {
        assert states[k].log[m] == states[k].log[..|states[j].log|][m];
      }
    }
  }

  lemma {:induction false} RefusedOnlyWhenSignaled(states: seq<State>, ops: seq<Op>, j: nat, i: nat)
    requires Run(states, ops) && j <= |ops| && i < |states[j].log| && states[j].log[i].Refused?
    ensures states[j].signaled && Idle(states[j].log, i)
  {
    if j > 0 {
      var s, t := states[j - 1], states[j - 1 + 1];
      assert t == Step(s, ops[j - 1]);
      if i < |s.log| {
        LogGrows(s, ops[j - 1]);
        assert s.log[i] == t.log[..|s.log|][i];
        RefusedOnlyWhenSignaled(states, ops, j - 1, i);
        SignaledForGood(states, ops, j - 1, j);
      } else {
        RefusedIsLast(s, ops[j - 1], i);
      }
    }
  }

  lemma LogGrows(s: State, op: Op)
    ensures |s.log| <= |Step(s, op).log| && Step(s, op).log[..|s.log|] == s.log
  {
  }

  lemma {:induction false} RanAllIsRan(queue: seq<nat>)
    ensures |RanAll(queue)| == |queue|
    ensures forall i :: 0 <= i < |queue| ==> RanAll(queue)[i] == Ran(queue[i])
  {
    if queue != [] {
      RanAllIsRan(queue[..|queue| - 1]);
    }
  }

  lemma RefusedIsLast(s: State, op: Op, i: nat)
    requires Allowed(s, op) && |s.log| <= i < |Step(s, op).log| && Step(s, op).log[i].Refused?
    ensures Step(s, op).signaled && i == |Step(s, op).log| - 1
  {
    RanAllIsRan(s.queue);
  }

  /** The callbacks that wait when the fence signals are run then, in the order they were
      added. */
  lemma SignalRunsInOrder(s: State, op: Op)
    requires !s.signaled && Step(s, op).signaled
    ensures var log := Step(s, op).log;
            |log| >= |s.log| + |s.queue|
            && forall i :: 0 <= i < |s.queue| ==> log[|s.log| + i] == Ran(s.queue[i])
    ensures Step(s, op).queue == []
  {
    RanAllIsRan(s.queue);
  }
}
