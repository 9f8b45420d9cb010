/** What every run of the merge loop keeps, and a run in which fences signal out of order
    (dma-fence-unwrap.c, __dma_fence_unwrap_merge). */
module MergeRuns {
  import opened Fences
  import opened FenceUnwrap
  import opened FenceMerge
  import opened MergeSteps
  import Lists

  // ---------------------------------------------------- what every run keeps

  /** The lowest head among those the scan has met, which was unsignaled. */
  ghost predicate ScanOk(s: State, early: set<nat>) {
    && s.i <= |s.heads|
    && (s.sel.None? ==> forall j :: 0 <= j < s.i ==> s.heads[j].None?)
    && (s.sel.Some? ==> s.sel.value < s.i && LowestHead(s.heads[..s.i], s.heads[s.sel.value], s.sel.value)
                        && s.heads[s.sel.value].value.id !in early)
    && (s.done ==> s.i == |s.heads| && s.sel.None? && s.walk.None?)
  }

  /** Head j may go: something not earlier stays, or it goes to the output as the lowest head. */
  ghost predicate MayLeave(inputs: seq<Input>, heads: seq<Option<Fence>>, out: seq<Fence>, bits: set<nat>,
                           j: nat, emit: bool, plan: Plan)
    requires j < |heads| && heads[j].Some?
  {
    && (plan.windowed ==> exists cover ::
          NotEarlier(heads[j].value, cover)
              && InPoolWithout(j, cover, inputs, heads, OutAfter(heads, out, j, emit), bits))
    && (emit ==> LowestHead(heads, heads[j], j) && heads[j].value.id !in plan.early)
  }

  /** A walk has passed signaled members only. */
  ghost predicate WalkOk(all: seq<Input>, inputs: seq<Input>, s: State, plan: Plan)
    requires Shaped(all, s)
  {
    s.walk.Some? ==>
      var w := s.walk.value;
      && s.iter[w.j].index + 1 >= |all[w.j][s.iter[w.j].chain].leaves|
      && (forall x :: s.iter[w.j].chain < x < w.m ==> all[w.j][x].fence in s.bits)
      && (!w.restart ==> !w.emit)
      && MayLeave(inputs, s.heads, s.out, s.bits, w.j, w.emit, plan)
  }

  ghost predicate RunInv(all: seq<Input>, s: State, never: set<nat>, plan: Plan) {
    var inputs := Reaches(all, never);
    && Shaped(all, s) && PlanFits(plan, inputs) && Underway(all, inputs, never, s.bits)
    && MergeInv(inputs, s.iter, s.heads, s.out, s.bits, plan)
    && ScanOk(s, plan.early) && WalkOk(all, inputs, s, plan)
  }

  /** Where an iterator may go on, given what has signalled. */
  ghost predicate Follows(input: Input, c: Cursor, next: Cursor, bits: set<nat>, never: set<nat>) {
    && IsStep(Reach(input, never), c, next, bits)
    && Current(input, next) == Current(Reach(input, never), next)
    && forall x :: c.chain < x < next.chain ==> input[x].fence in bits
  }

  lemma NextLeafFollows(input: Input, c: Cursor, bits: set<nat>, never: set<nat>)
    requires ValidCursor(Reach(input, never), c) && c.chain < |Reach(input, never)|
    requires c.index + 1 < |input[c.chain].leaves|
    ensures Follows(input, c, Cursor(c.chain, c.index + 1), bits, never)
  {
  }

  lemma NextMemberFollows(input: Input, c: Cursor, m: nat, bits: set<nat>, never: set<nat>)
    requires bits !! never && Decided(input, never, bits)
    requires ValidCursor(Reach(input, never), c) && c.chain < |Reach(input, never)|
    requires c.index + 1 >= |input[c.chain].leaves| && c.chain < m <= |input|
    requires forall x :: c.chain < x < m ==> input[x].fence in bits
    requires m < |input| ==> input[m].fence !in bits
    ensures Follows(input, c, Cursor(m, 0), bits, never)
  {
    WalkStaysInReach(input, never, bits, c.chain, m);
    assert m < EndFrom(input, 0, never) ==> !Ends(input, m, never);
  }

  /** The leaves that the iterators can still get to. */
  ghost function LeavesAhead(all: seq<Input>, iter: seq<Cursor>, never: set<nat>): (n: nat)
    requires |iter| == |all|
  {
    Lists.Sum(LeavesLeftIn(Reaches(all, never), iter))
  }

  lemma ArriveKeepsMerge(all: seq<Input>, s: State, j: nat, emit: bool, next: Cursor, never: set<nat>, plan: Plan)
    requires RunInv(all, s, never, plan) && j < |all| && s.heads[j].Some?
    requires MayLeave(Reaches(all, never), s.heads, s.out, s.bits, j, emit, plan)
    requires Follows(all[j], s.iter[j], next, s.bits, never)
    ensures MergeInv(Reaches(all, never), s.iter[j := next], s.heads[j := Current(all[j], next)],
                     OutAfter(s.heads, s.out, j, emit), s.bits, plan)
    ensures LeavesAhead(all, s.iter[j := next], never) < LeavesAhead(all, s.iter, never)
  {
    var inputs: seq<Input> := Reaches(all, never);
    var out := OutAfter(s.heads, s.out, j, emit);
    var cover := s.heads[j].value;
    if plan.windowed {
      cover :| NotEarlier(s.heads[j].value, cover) && InPoolWithout(j, cover, inputs, s.heads, out, s.bits);
      if cover !in out && !(cover.id in s.bits && IsInput(cover, inputs)) {
        var k :| 0 <= k < |s.heads| && k != j && s.heads[k] == Some(cover);
        assert s.heads[j := Current(inputs[j], next)][k] == Some(cover);
      }
    }
    AdvanceKeepsInv(inputs, s.iter, s.heads, s.out, s.bits, j, next, out, s.bits, cover, plan);
  }

  lemma ArriveKeepsInv(all: seq<Input>, s: State, j: nat, emit: bool, restart: bool, next: Cursor,
                       never: set<nat>, plan: Plan)
    requires RunInv(all, s, never, plan) && !s.done && j < |all| && s.heads[j].Some?
    requires MayLeave(Reaches(all, never), s.heads, s.out, s.bits, j, emit, plan) && (!restart ==> j == s.i)
    requires Follows(all[j], s.iter[j], next, s.bits, never)
    ensures RunInv(all, Arrive(all, s, j, emit, restart, next), never, plan)
  {
    ArriveKeepsMerge(all, s, j, emit, next, never, plan);
    hide MergeInv, Underway, PlanFits, Follows;
    var r := Arrive(all, s, j, emit, restart, next);
    if !restart {
      assert r.heads[..r.i] == s.heads[..s.i];
    }
  }

  lemma LeaveKeepsInv(all: seq<Input>, s: State, j: nat, emit: bool, restart: bool, never: set<nat>, plan: Plan)
    requires RunInv(all, s, never, plan) && !s.done && s.walk.None? && j < |all| && s.heads[j].Some?
    requires MayLeave(Reaches(all, never), s.heads, s.out, s.bits, j, emit, plan) && (!restart ==> j == s.i && !emit)
    ensures RunInv(all, Leave(all, s, j, emit, restart), never, plan)
  {
    hide Arrive;
    var c := s.iter[j];
    if c.index + 1 < |all[j][c.chain].leaves| {
      NextLeafFollows(all[j], c, s.bits, never);
      ArriveKeepsInv(all, s, j, emit, restart, Cursor(c.chain, c.index + 1), never, plan);
    } else {
      hide MergeInv, Underway, PlanFits, MayLeave;
      assert Leave(all, s, j, emit, restart) == s.(walk := Some(Walk(j, c.chain + 1, emit, restart)));
    }
  }

  lemma WalkKeepsInv(all: seq<Input>, s: State, never: set<nat>, plan: Plan)
    requires RunInv(all, s, never, plan) && s.walk.Some?
    ensures RunInv(all, WalkStep(all, s), never, plan)
  {
    var w := s.walk.value;
    if w.m < |all[w.j]| && all[w.j][w.m].fence in s.bits {
      hide MergeInv, Underway, PlanFits, MayLeave;
    } else {
      NextMemberFollows(all[w.j], s.iter[w.j], w.m, s.bits, never);
      ArriveKeepsInv(all, s, w.j, w.emit, w.restart, Cursor(w.m, 0), never, plan);
    }
  }

  /** Two heads of one context: the one that gives way may leave, for the other. */
  lemma TheLaterStays(all: seq<Input>, s: State, never: set<nat>, plan: Plan) returns (j: nat)
    requires RunInv(all, s, never, plan) && s.i < |all| && s.heads[s.i].Some?
    requires s.sel.Some? && s.heads[s.sel.value].value.context == s.heads[s.i].value.context
    ensures j == if IsLater(s.heads[s.sel.value].value, s.heads[s.i].value) then s.i else s.sel.value
    ensures MayLeave(Reaches(all, never), s.heads, s.out, s.bits, j, false, plan)
  {
    var inputs: seq<Input> := Reaches(all, never);
    var tmp, next := s.heads[s.sel.value].value, s.heads[s.i].value;
    HeadIsInput(inputs, s.i, s.iter[s.i]);
    HeadIsInput(inputs, s.sel.value, s.iter[s.sel.value]);
    if plan.windowed {
      IsLaterInWindow(tmp, next);
    }
    var cover;
    if IsLater(tmp, next) {
      j, cover := s.i, tmp;
    } else {
      j, cover := s.sel.value, next;
    }
    assert plan.windowed ==>
        NotEarlier(s.heads[j].value, cover) && InPoolWithout(j, cover, inputs, s.heads, s.out, s.bits);
  }

  lemma SignaledMayLeave(all: seq<Input>, s: State, never: set<nat>, plan: Plan)
    requires RunInv(all, s, never, plan) && s.i < |all| && s.heads[s.i].Some? && s.heads[s.i].value.id in s.bits
    ensures MayLeave(Reaches(all, never), s.heads, s.out, s.bits, s.i, false, plan)
  {
    var inputs: seq<Input> := Reaches(all, never);
    var head := s.heads[s.i].value;
    HeadIsInput(inputs, s.i, s.iter[s.i]);
    assert NotEarlier(head, head) && InPoolWithout(s.i, head, inputs, s.heads, s.out, s.bits);
  }

  lemma LookKeepsInv(all: seq<Input>, s: State, never: set<nat>, plan: Plan)
    requires RunInv(all, s, never, plan) && !s.done && s.walk.None? && s.i < |all| && s.heads[s.i].Some?
    ensures RunInv(all, LookAtHead(all, s), never, plan)
  {
    hide RunInv, Leave, MayLeave;
    assert Shaped(all, s) by { IsShaped(all, s, never, plan); }
    if s.heads[s.i].value.id in s.bits {
      SignaledMayLeave(all, s, never, plan);
      LeaveKeepsInv(all, s, s.i, false, false, never, plan);
    } else if s.sel.Some? && s.heads[s.sel.value].value.context == s.heads[s.i].value.context {
      var j := TheLaterStays(all, s, never, plan);
      LeaveKeepsInv(all, s, j, false, true, never, plan);
    } else {
      ScansOn(all, s, never, plan);
    }
  }

  lemma IsShaped(all: seq<Input>, s: State, never: set<nat>, plan: Plan)
    requires RunInv(all, s, never, plan)
    ensures Shaped(all, s)
  {
  }

  lemma ScansOn(all: seq<Input>, s: State, never: set<nat>, plan: Plan)
    requires RunInv(all, s, never, plan) && !s.done && s.walk.None? && s.i < |all| && s.heads[s.i].Some?
    requires s.heads[s.i].value.id !in s.bits
    requires s.sel.Some? ==> s.heads[s.sel.value].value.context != s.heads[s.i].value.context
    ensures RunInv(all, LookAtHead(all, s), never, plan)
  {
    hide PassedAreCovered, AllInputs, HeadsFollow, OneFencePerContext, UnsignaledIn, Lists.Sum, Underway, PlanFits;
    assert s.heads[..s.i + 1] == s.heads[..s.i] + [s.heads[s.i]];
  }

  lemma EmitMayLeave(all: seq<Input>, s: State, never: set<nat>, plan: Plan)
    requires RunInv(all, s, never, plan) && s.i == |all| && s.sel.Some?
    ensures MayLeave(Reaches(all, never), s.heads, s.out, s.bits, s.sel.value, true, plan)
  {
    var j := s.sel.value;
    var tmp := s.heads[j].value;
    assert s.heads[..s.i] == s.heads;
    assert NotEarlier(tmp, tmp) && tmp in OutAfter(s.heads, s.out, j, true);
    assert InPoolWithout(j, tmp, Reaches(all, never), s.heads, OutAfter(s.heads, s.out, j, true), s.bits);
  }

  lemma EmitKeepsInv(all: seq<Input>, s: State, never: set<nat>, plan: Plan)
    requires RunInv(all, s, never, plan) && !s.done && s.walk.None? && s.i == |all| && s.sel.Some?
    ensures RunInv(all, Leave(all, s, s.sel.value, true, true), never, plan)
  {
    EmitMayLeave(all, s, never, plan);
    LeaveKeepsInv(all, s, s.sel.value, true, true, never, plan);
  }

  lemma StepKeepsInv(all: seq<Input>, s: State, never: set<nat>, plan: Plan)
    requires RunInv(all, s, never, plan)
    ensures RunInv(all, Step(all, s), never, plan)
  {
    if s.walk.Some? {
      WalkKeepsInv(all, s, never, plan);
    } else if s.done {
    } else if s.i == |all| {
      if s.sel.Some? {
        EmitKeepsInv(all, s, never, plan);
      } else {
        hide MergeInv, Underway, PlanFits;
      }
    } else if s.heads[s.i].Some? {
      LookKeepsInv(all, s, never, plan);
    } else {
      hide MergeInv, Underway, PlanFits;
      assert s.heads[..s.i + 1] == s.heads[..s.i] + [s.heads[s.i]];
    }
  }

  lemma SignalKeepsInv(all: seq<Input>, s: State, never: set<nat>, bits: set<nat>, plan: Plan)
    requires RunInv(all, s, never, plan) && s.bits <= bits && bits !! never
    ensures RunInv(all, s.(bits := bits), never, plan)
  {
    var inputs: seq<Input> := Reaches(all, never);
    SignalsKeepInv(inputs, s.iter, s.heads, s.out, s.bits, bits, plan);
    StaysUnderway(all, inputs, never, s.bits, bits);
    hide MergeInv, Underway, PlanFits;
    var r := s.(bits := bits);
    if s.walk.Some? && plan.windowed {
      var w := s.walk.value;
      var cover :| NotEarlier(s.heads[w.j].value, cover)
                   && InPoolWithout(w.j, cover, inputs, s.heads, OutAfter(s.heads, s.out, w.j, w.emit), s.bits);
      assert InPoolWithout(w.j, cover, inputs, r.heads, OutAfter(r.heads, r.out, w.j, w.emit), r.bits);
    }
  }

  lemma {:induction false} RunKeepsInv(all: seq<Input>, s: State, never: set<nat>, actions: seq<Action>, plan: Plan)
    requires RunInv(all, s, never, plan)
    ensures RunInv(all, After(all, s, never, actions), never, plan)
    decreases |actions|
  {
    if actions != [] {
      var r := Act(all, s, never, actions[0]);
      if actions[0].Look? {
        StepKeepsInv(all, s, never, plan);
      } else {
        SignalKeepsInv(all, s, never, r.bits, plan);
      }
      RunKeepsInv(all, r, never, actions[1..], plan);
    }
  }

  /** However the signals fall, between any two tests, a run that ends has settled every leaf,
      with no more fences than the first pass counted. */
  lemma RunSettles(all: seq<Input>, bits: set<nat>, room: nat, never: set<nat>, actions: seq<Action>)
    requires var inputs := Reaches(all, never);
             && Underway(all, inputs, never, bits) && AllInWindow(inputs)
             && Lists.Sum(UnsignaledIn(inputs, Starts(|inputs|), bits)) <= room
    requires After(all, Start(all, bits), never, actions).done
    ensures var r := After(all, Start(all, bits), never, actions);
            && Settled(Reaches(all, never), r.out, r.bits) && |r.out| <= room
            && AllInputs(r.out, Reaches(all, never))
  {
    var inputs: seq<Input> := Reaches(all, never);
    var plan := Plan(bits, room, true, false);
    FirstHeads(all, inputs, never);
    assert Start(all, bits).iter == Starts(|inputs|);
    RunKeepsInv(all, Start(all, bits), never, actions, plan);
    var r := After(all, Start(all, bits), never, actions);
    AllPassed(inputs, r.iter, r.heads, r.out, r.bits, plan);
  }

  // ----------------------------------------------------------------- its end

  function WalkAhead(all: seq<Input>, s: State): (n: nat)
    requires Shaped(all, s)
  {
    if s.walk.Some? then |all[s.walk.value.j]| - s.walk.value.m else if s.done then 0 else |all| - s.i + 1
  }

  /** Fewer leaves ahead, or on a walk for one of them, or further on the walk or in the scan. */
  ghost predicate Nearer(all: seq<Input>, s: State, r: State, never: set<nat>)
    requires Shaped(all, s) && Shaped(all, r)
  {
    || LeavesAhead(all, r.iter, never) < LeavesAhead(all, s.iter, never)
    || (r.iter == s.iter && s.walk.None? && r.walk.Some?)
    || (r.iter == s.iter && (s.walk.Some? <==> r.walk.Some?) && WalkAhead(all, r) < WalkAhead(all, s))
  }

  lemma LeaveIsProgress(all: seq<Input>, s: State, j: nat, emit: bool, restart: bool, never: set<nat>, plan: Plan)
    requires RunInv(all, s, never, plan) && !s.done && s.walk.None? && j < |all| && s.heads[j].Some?
    requires MayLeave(Reaches(all, never), s.heads, s.out, s.bits, j, emit, plan) && (!restart ==> j == s.i && !emit)
    ensures Nearer(all, s, Leave(all, s, j, emit, restart), never)
  {
    var c := s.iter[j];
    if c.index + 1 < |all[j][c.chain].leaves| {
      NextLeafFollows(all[j], c, s.bits, never);
      ArriveKeepsMerge(all, s, j, emit, Cursor(c.chain, c.index + 1), never, plan);
    }
    hide RunInv, MayLeave, LeavesAhead;
  }

  lemma WalkIsProgress(all: seq<Input>, s: State, never: set<nat>, plan: Plan)
    requires RunInv(all, s, never, plan) && s.walk.Some?
    ensures Nearer(all, s, WalkStep(all, s), never)
  {
    var w := s.walk.value;
    if !(w.m < |all[w.j]| && all[w.j][w.m].fence in s.bits) {
      NextMemberFollows(all[w.j], s.iter[w.j], w.m, s.bits, never);
      ArriveKeepsMerge(all, s, w.j, w.emit, Cursor(w.m, 0), never, plan);
    }
    hide RunInv, MayLeave, LeavesAhead;
  }

  lemma HeadIsProgress(all: seq<Input>, s: State, never: set<nat>, plan: Plan)
    requires RunInv(all, s, never, plan) && !s.done && s.walk.None? && s.i < |all| && s.heads[s.i].Some?
    ensures Nearer(all, s, LookAtHead(all, s), never)
  {
    if s.heads[s.i].value.id in s.bits {
      SignaledMayLeave(all, s, never, plan);
      LeaveIsProgress(all, s, s.i, false, false, never, plan);
    } else if s.sel.Some? && s.heads[s.sel.value].value.context == s.heads[s.i].value.context {
      var j := TheLaterStays(all, s, never, plan);
      LeaveIsProgress(all, s, j, false, true, never, plan);
    }
    hide RunInv, MayLeave, LeavesAhead, Leave;
  }

  lemma EmitIsProgress(all: seq<Input>, s: State, never: set<nat>, plan: Plan)
    requires RunInv(all, s, never, plan) && !s.done && s.walk.None? && s.i == |all| && s.sel.Some?
    ensures Nearer(all, s, Leave(all, s, s.sel.value, true, true), never)
  {
    EmitMayLeave(all, s, never, plan);
    LeaveIsProgress(all, s, s.sel.value, true, true, never, plan);
  }

  /** Every test brings the loop nearer to its end. */
  lemma LookIsProgress(all: seq<Input>, s: State, never: set<nat>, plan: Plan)
    requires RunInv(all, s, never, plan) && !s.done
    ensures Nearer(all, s, Step(all, s), never)
  {
    if s.walk.Some? {
      WalkIsProgress(all, s, never, plan);
    } else if s.i == |all| {
      if s.sel.Some? {
        EmitIsProgress(all, s, never, plan);
      }
    } else if s.heads[s.i].Some? {
      HeadIsProgress(all, s, never, plan);
    }
    hide RunInv, LeavesAhead, Leave, LookAtHead, WalkStep;
  }

  function Looks(n: nat, rest: seq<Action>): (actions: seq<Action>) {
    if n == 0 then rest else [Look] + Looks(n - 1, rest)
  }

  lemma AfterLook(all: seq<Input>, s: State, never: set<nat>, rest: seq<Action>)
    requires Shaped(all, s)
    ensures Shaped(all, Step(all, s)) && After(all, s, never, [Look] + rest) == After(all, Step(all, s), never, rest)
  {
    hide Step, Shaped;
    assert ([Look] + rest)[1..] == rest;
  }

  /** So from every state of a run the loop comes to its end. */
  lemma RunEnds(all: seq<Input>, s: State, never: set<nat>, plan: Plan) returns (n: nat)
    requires RunInv(all, s, never, plan)
    ensures After(all, s, never, Looks(n, [])).done
    decreases LeavesAhead(all, s.iter, never), if s.walk.Some? then 0 else 1, WalkAhead(all, s)
  {
    if s.done {
      n := 0;
    } else {
      StepKeepsInv(all, s, never, plan);
      LookIsProgress(all, s, never, plan);
      hide RunInv, Step, LeavesAhead;
      n := RunEnds(all, Step(all, s), never, plan);
      n := n + 1;
      AfterLook(all, s, never, Looks(n - 1, []));
    }
  }

  // ----------------------------------------------------- out of order

  function Singles(first: Fence, second: Fence): (all: seq<Input>) {
    [[Member(first.id, [first], false)], [Member(second.id, [second], false)]]
  }

  /** The loop where it has dropped the first of two fences for the second. */
  function Dropped(second: Fence, bits: set<nat>): (s: State) {
    State([Cursor(1, 0), Cursor(0, 0)], [None, Some(second)], [], 0, None, None, bits, false)
  }

  lemma DropsTheFirst(first: Fence, second: Fence)
    requires first.context == second.context && first.position < second.position && InWindow(first, second)
    ensures var all := Singles(first, second);
            var s := Start(all, {});
            && Step(all, s) == s.(i := 1, sel := Some(0))
            && Step(all, Step(all, s)) == s.(i := 1, sel := Some(0), walk := Some(Walk(0, 1, false, true)))
            && Shaped(all, Step(all, Step(all, s)))
            && Step(all, Step(all, Step(all, s))) == Dropped(second, {})
  {
    var all: seq<Input> := Singles(first, second);
    IsLaterInWindow(first, second);
    var s := Start(all, {});
    assert s.iter == [Cursor(0, 0), Cursor(0, 0)] && s.heads == [Some(first), Some(second)];
    assert Step(all, s) == s.(i := 1, sel := Some(0));
    assert Step(all, Step(all, s)) == s.(i := 1, sel := Some(0), walk := Some(Walk(0, 1, false, true)));
  }

  lemma PassesTheSecond(first: Fence, second: Fence)
    ensures var all := Singles(first, second);
            var s := Dropped(second, {second.id});
            var walking := s.(i := 1, walk := Some(Walk(1, 1, false, false)));
            && Shaped(all, s) && Step(all, s) == s.(i := 1) && Step(all, s.(i := 1)) == walking
  {
  }

  lemma NothingLeftToDo(first: Fence, second: Fence)
    ensures var all := Singles(first, second);
            var s := Dropped(second, {second.id});
            var walking := s.(i := 1, walk := Some(Walk(1, 1, false, false)));
            var gone := s.(i := 1, iter := [Cursor(1, 0), Cursor(1, 0)], heads := [None, None]);
            && Shaped(all, walking) && Step(all, walking) == gone
            && Step(all, gone) == gone.(i := 2) && Step(all, gone.(i := 2)) == gone.(i := 2, done := true)
  {
  }

  /** Order matters, for any two fences of a timeline: both heads are found unsignaled, the
      earlier one is dropped for the later one, the later one signals and is passed over, and
      nothing is left in the result to wait for the earlier one. */
  lemma OutOfOrderLosesAFence(first: Fence, second: Fence) returns (actions: seq<Action>)
    requires first.context == second.context && first.position < second.position && first.id != second.id
    requires InWindow(first, second)
    ensures var all := Singles(first, second);
            var r := After(all, Start(all, {}), {}, actions);
            r.done && r.out == [] && IsInput(first, all) && first.id !in r.bits
  {
    var all: seq<Input> := Singles(first, second);
    assert all[0][0].leaves[0] == first && IsLeaf(first, all[0]);
    var rest: seq<Action> := Looks(5, []);
    actions := Looks(3, [Signal(second.id)] + rest);
    DropsTheFirst(first, second);
    FirstThree(all, Start(all, {}), [Signal(second.id)] + rest);
    hide Step;
    var s := Dropped(second, {second.id});
    PassesTheSecond(first, second);
    assert ([Signal(second.id)] + rest)[1..] == rest;
    assert Act(all, Dropped(second, {}), {}, Signal(second.id)) == s;
    LastFive(first, second);
  }

  lemma FirstThree(all: seq<Input>, s: State, rest: seq<Action>)
    requires Shaped(all, s) && Shaped(all, Step(all, s)) && Shaped(all, Step(all, Step(all, s)))
    ensures Shaped(all, Step(all, Step(all, Step(all, s))))
    ensures After(all, s, {}, Looks(3, rest)) == After(all, Step(all, Step(all, Step(all, s))), {}, rest)
  {
    AfterLook(all, s, {}, Looks(2, rest));
    AfterLook(all, Step(all, s), {}, Looks(1, rest));
    AfterLook(all, Step(all, Step(all, s)), {}, Looks(0, rest));
    hide Step, Shaped, After;
    assert Looks(3, rest) == [Look] + Looks(2, rest) && Looks(2, rest) == [Look] + Looks(1, rest);
    assert Looks(1, rest) == [Look] + Looks(0, rest) && Looks(0, rest) == rest;
  }

  lemma LastFive(first: Fence, second: Fence)
    ensures var all := Singles(first, second);
            var s := Dropped(second, {second.id});
            && Shaped(all, s)
            && var r := After(all, s, {}, Looks(5, []));
               r.done && r.out == [] && r.bits == {second.id}
  {
    var all: seq<Input> := Singles(first, second);
    var s := Dropped(second, {second.id});
    PassesTheSecond(first, second);
    NothingLeftToDo(first, second);
    hide Step, Shaped;
    AfterLook(all, s, {}, Looks(4, []));
    AfterLook(all, s.(i := 1), {}, Looks(3, []));
    var walking := s.(i := 1, walk := Some(Walk(1, 1, false, false)));
    AfterLook(all, walking, {}, Looks(2, []));
    AfterLook(all, Step(all, walking), {}, Looks(1, []));
    AfterLook(all, Step(all, Step(all, walking)), {}, Looks(0, []));
  }
}
