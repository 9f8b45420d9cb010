/** The second pass of the merge with at most one test of a fence in a step, while other threads
    signal in between (dma-fence-unwrap.c, __dma_fence_unwrap_merge; dma-fence-chain.c,
    dma_fence_chain_walk). */
module MergeSteps {
  import opened Fences
  import opened FenceUnwrap

  /** The chain walk of iterator j, which tests member m next. emit: the head that it leaves goes
      to the output, which is put off to the end of the walk, as nobody else can see the output.
      restart: the scan starts again behind it. */
  datatype Walk = Walk(j: nat, m: nat, emit: bool, restart: bool)

  /** sel is the input of the lowest head that this scan has found so far. */
  datatype State = State(iter: seq<Cursor>, heads: seq<Option<Fence>>, out: seq<Fence>,
                         i: nat, sel: Option<nat>, walk: Option<Walk>, bits: set<nat>, done: bool)

  /** Look: the loop goes on by one test of a fence. */
  datatype Action = Look | Signal(id: nat)

  predicate Shaped(all: seq<Input>, s: State) {
    && |s.iter| == |s.heads| == |all| && s.i <= |all|
    && (forall j :: 0 <= j < |all| ==> s.heads[j] == Current(all[j], s.iter[j]))
    && (s.sel.Some? ==> s.sel.value < s.i && s.heads[s.sel.value].Some?)
    && (s.walk.Some? ==> WalkShaped(all, s, s.walk.value))
  }

  predicate WalkShaped(all: seq<Input>, s: State, w: Walk)
    requires |s.iter| == |s.heads| == |all|
  {
    && w.j < |all| && s.heads[w.j].Some? && s.iter[w.j].chain < w.m <= |all[w.j]|
    && (!w.restart ==> w.j == s.i)
  }

  function Start(all: seq<Input>, bits: set<nat>): (s: State)
    ensures Shaped(all, s)
  {
    State(seq(|all|, _ => Cursor(0, 0)), seq(|all|, j requires 0 <= j < |all| => Current(all[j], Cursor(0, 0))),
          [], 0, None, None, bits, false)
  }

  /** The head of iterator j is left: for the next leaf of its array, or for a walk. */
  function Leave(all: seq<Input>, s: State, j: nat, emit: bool, restart: bool): (r: State)
    requires Shaped(all, s) && j < |all| && s.heads[j].Some? && (!restart ==> j == s.i)
    ensures Shaped(all, r)
  {
    var c := s.iter[j];
    if c.index + 1 < |all[j][c.chain].leaves|
    then Arrive(all, s, j, emit, restart, Cursor(c.chain, c.index + 1))
    else s.(walk := Some(Walk(j, c.chain + 1, emit, restart)))
  }

  function OutAfter(heads: seq<Option<Fence>>, out: seq<Fence>, j: nat, emit: bool): (r: seq<Fence>)
    requires j < |heads| && heads[j].Some?
  {
    if emit then out + [heads[j].value] else out
  }

  function Arrive(all: seq<Input>, s: State, j: nat, emit: bool, restart: bool, next: Cursor): (r: State)
    requires Shaped(all, s) && j < |all| && s.heads[j].Some? && (!restart ==> j == s.i)
    ensures Shaped(all, r)
  {
    s.(iter := s.iter[j := next], heads := s.heads[j := Current(all[j], next)],
        out := OutAfter(s.heads, s.out, j, emit),
       walk := None, i := if restart then 0 else s.i, sel := if restart then None else s.sel)
  }

  /** The test of the next member, or the end of the chain. */
  function WalkStep(all: seq<Input>, s: State): (r: State)
    requires Shaped(all, s) && s.walk.Some?
    ensures Shaped(all, r)
  {
    var w := s.walk.value;
    if w.m < |all[w.j]| && all[w.j][w.m].fence in s.bits then s.(walk := Some(w.(m := w.m + 1)))
    else Arrive(all, s, w.j, w.emit, w.restart, Cursor(w.m, 0))
  }

  /** The test of head i, and the comparison with the lowest one so far. */
  function LookAtHead(all: seq<Input>, s: State): (r: State)
    requires Shaped(all, s) && s.walk.None? && s.i < |all| && s.heads[s.i].Some?
    ensures Shaped(all, r)
  {
    var next := s.heads[s.i].value;
    if next.id in s.bits then Leave(all, s, s.i, false, false)
    else if s.sel.None? || s.heads[s.sel.value].value.context > next.context
    then s.(sel := Some(s.i), i := s.i + 1)
    else if s.heads[s.sel.value].value.context < next.context then s.(i := s.i + 1)
    else if IsLater(s.heads[s.sel.value].value, next) then Leave(all, s, s.i, false, true)
    else Leave(all, s, s.sel.value, false, true)
  }

  function Step(all: seq<Input>, s: State): (r: State)
    requires Shaped(all, s)
    ensures Shaped(all, r)
  {
    if s.walk.Some? then WalkStep(all, s)
    else if s.done then s
    else if s.i == |all| then
      if s.sel.None? then s.(done := true) else Leave(all, s, s.sel.value, true, true)
    else if s.heads[s.i].None? then s.(i := s.i + 1)
    else LookAtHead(all, s)
  }

  // --------------------------------------------------------------- whole runs

  function Act(all: seq<Input>, s: State, never: set<nat>, a: Action): (r: State)
    requires Shaped(all, s)
    ensures Shaped(all, r)
  {
    match a
    case Look => Step(all, s)
    case Signal(id) => s.(bits := s.bits + ({id} - never))
  }

  function After(all: seq<Input>, s: State, never: set<nat>, actions: seq<Action>): (r: State)
    requires Shaped(all, s)
    ensures Shaped(all, r)
    decreases |actions|
  {
    if actions == [] then s else After(all, Act(all, s, never, actions[0]), never, actions[1..])
  }
}
