/** Unlocked iteration over a reservation object while writers change it (dma-resv.c):
    dma_resv_get_fences and dma_resv_copy_fences as a machine that takes one access to
    shared memory per step. */
module ResvIter {
  import opened Fences
  import opened Resv
  import opened ResvRuns

  /** Where the reader is. Restarts happen in the loop of the first and next functions, or
      inside the walk. */
  datatype PC =
    | ReadTable(inWalk: bool) | ReadCount(inWalk: bool)
    | Enter | Top | GetReference | Test | Check
    | Body | Collect | Next | Done | Failed

  /** Shared memory, the cursor, and the caller's array. Tables keep their number for good:
      memory stays readable while it is used. */
  datatype State = State(
    tables: seq<seq<Entry>>, current: Option<nat>, bits: set<nat>,
    pc: PC, fences: Option<nat>, index: nat, num: nat, restarted: bool, entry: Option<Entry>,
    collected: seq<Entry>, room: nat, refs: multiset<nat>)

  /** A step of the reader, whose references and memory may be refused, or of a writer. */
  datatype Action =
    | Read(granted: bool)
    | Publish(slots: seq<Entry>)
    | Overwrite(i: nat, e: Entry)
    | Append(e: Entry)
    | Signal(id: nat)

  /** The query: the usage asked for, and how much longer than the count the array is made: one
      for dma_resv_get_fences, nothing for dma_resv_copy_fences. */
  datatype Query = Query(usage: Usage, spare: nat)

  ghost predicate Start(s: State) {
    && (s.current.Some? ==> s.current.value < |s.tables|)
    && s.pc == ReadTable(false) && s.entry == None && s.fences == None
    && s.index == s.num == s.room == 0 && s.collected == [] && s.refs == multiset{}
  }

  // -------------------------------------------------------- the reader's steps

  /** The last reference cannot be gone while a table or this reader holds one. */
  predicate IsHeld(s: State, e: Entry) {
    || e.fence.id in s.refs
    || (s.current.Some? && s.current.value < |s.tables|
        && exists i :: 0 <= i < |s.tables[s.current.value]| && s.tables[s.current.value][i].fence == e.fence)
  }

  function PutEntry(s: State): (r: State) {
    if s.entry.None? then s else s.(refs := s.refs - multiset{s.entry.value.fence.id}, entry := None)
  }

  /** dma_resv_iter_restart_unlocked. */
  function ReadTableStep(s: State): (r: State)
    requires s.pc.ReadTable?
  {
    s.(pc := ReadCount(s.pc.inWalk), fences := s.current, index := 0, num := 0)
  }

  function ReadCountStep(s: State): (r: State)
    requires s.pc.ReadCount? && (s.fences.Some? ==> s.fences.value < |s.tables|)
  {
    s.(pc := if s.pc.inWalk then Top else Enter, restarted := true,
       num := if s.fences.None? then 0 else |s.tables[s.fences.value]|)
  }

  /** The head of the loop in dma_resv_iter_walk_unlocked. */
  function TopStep(s: State): (r: State)
    requires s.index < s.num ==> s.fences.Some? && s.fences.value < |s.tables| && s.num <= |s.tables[s.fences.value]|
  {
    var t := PutEntry(s);
    if s.index >= s.num then t.(pc := Check)
    else t.(pc := GetReference, index := s.index + 1, entry := Some(s.tables[s.fences.value][s.index]))
  }

  function GetReferenceStep(s: State, granted: bool): (r: State)
    requires s.entry.Some?
  {
    if granted then s.(pc := Test, refs := s.refs + multiset{s.entry.value.fence.id})
    else s.(pc := ReadTable(true), entry := None)
  }

  function TestStep(s: State, q: Query): (r: State)
    requires s.entry.Some?
  {
    s.(pc := if s.entry.value.fence.id !in s.bits && q.usage >= s.entry.value.usage then Check else Top)
  }

  function CheckStep(s: State): (r: State) {
    s.(pc := if s.current != s.fences then ReadTable(false) else if s.entry.None? then Done else Body)
  }

  /** The caller's loop: after a restart it drops what it has collected, one by one. */
  function BodyStep(s: State, granted: bool, q: Query): (r: State)
    requires s.entry.Some?
  {
    if !s.restarted then s.(pc := Collect)
    else if s.collected != [] then
      var last := |s.collected| - 1;
      s.(collected := s.collected[..last], refs := s.refs - multiset{s.collected[last].fence.id})
    else if granted then s.(pc := Collect, room := s.num + q.spare)
    else PutEntry(s).(pc := Failed)
  }

  function CollectStep(s: State): (r: State)
    requires s.entry.Some?
  {
    s.(pc := Next, collected := s.collected + [s.entry.value], refs := s.refs + multiset{s.entry.value.fence.id})
  }

  function NextStep(s: State): (r: State) {
    s.(pc := if s.current != s.fences then ReadTable(false) else Enter, restarted := false)
  }

  predicate Enabled(s: State, a: Action) {
    match a
    case Read(granted) =>
      s.pc != Done && s.pc != Failed
          && (s.pc == GetReference && !granted ==> s.entry.Some? && !IsHeld(s, s.entry.value))
    case Publish(slots) => true
    case Overwrite(i, e) => s.current.Some? && s.current.value < |s.tables| && i < |s.tables[s.current.value]|
    case Append(e) => s.current.Some? && s.current.value < |s.tables|
    case Signal(id) => true
  }

  /** What the reader's code relies on where it is. */
  ghost predicate CursorOk(s: State) {
    && (s.current.Some? ==> s.current.value < |s.tables|)
    && (s.fences.Some? ==> s.current.Some? && s.fences.value < |s.tables| && s.num <= |s.tables[s.fences.value]|)
    && (s.fences.None? ==> s.num == 0 && s.entry.None?)
    && (s.pc.GetReference? || s.pc.Test? || s.pc.Body? || s.pc.Collect? || s.pc.Next? ==> s.entry.Some?)
    && (Pending(s) || s.pc.Next? ==> 0 < s.index)
    && (s.pc.Done? || (s.pc.Check? && s.entry.None?) ==> s.index == s.num)
    && (s.pc.Done? || s.pc.Failed? ==> s.entry.None?)
    && (s.pc.Failed? ==> s.collected == [])
    && (s.pc.ReadCount? ==> s.index == 0)
    && s.index <= s.num
  }

  function Step(s: State, a: Action, q: Query): (r: State)
    requires CursorOk(s) && Enabled(s, a)
  {
    match a
    case Read(granted) => ReadStep(s, granted, q)
    case Publish(slots) => s.(tables := s.tables + [slots], current := Some(|s.tables|))
    case Overwrite(i, e) => s.(tables := s.tables[s.current.value := s.tables[s.current.value][i := e]])
    case Append(e) => s.(tables := s.tables[s.current.value := s.tables[s.current.value] + [e]])
    case Signal(id) => s.(bits := s.bits + {id})
  }

  function ReadStep(s: State, granted: bool, q: Query): (r: State)
    requires CursorOk(s) && s.pc != Done && s.pc != Failed
  {
    match s.pc
    case ReadTable(_) => ReadTableStep(s)
    case ReadCount(_) => ReadCountStep(s)
    case Enter => s.(pc := if s.fences.None? then Check else Top)
    case Top => TopStep(s)
    case GetReference => GetReferenceStep(s, granted)
    case Test => TestStep(s, q)
    case Check => CheckStep(s)
    case Body => BodyStep(s, granted, q)
    case Collect => CollectStep(s)
    case Next => NextStep(s)
  }

  // ---------------------------------------------------------- the invariants

  function Held(s: State): (r: seq<Entry>) {
    if s.entry.None? || s.pc.GetReference? then [] else [s.entry.value]
  }

  /** The reader holds one reference for each collected fence and one for the cursor's. */
  ghost predicate RefsOk(s: State) {
    Holds(s.refs, s.collected + Held(s))
  }

  /** The array is long enough, with a slot to spare while a fence waits to be collected. */
  ghost predicate RoomOk(s: State, q: Query) {
    && (s.pc.Collect? && s.restarted ==> s.collected == [])
    && (s.pc.Collect? || s.pc.Next? || (!s.restarted && !s.pc.ReadTable? && !s.pc.ReadCount?) ==>
          s.room == s.num + q.spare && |s.collected| + (if Pending(s) then 1 else 0) <= s.index)
  }

  predicate Pending(s: State) {
    s.pc.GetReference? || s.pc.Test? || s.pc.Body? || s.pc.Collect? || (s.pc.Check? && s.entry.Some?)
  }

  ghost predicate Inv(s: State, q: Query) {
    CursorOk(s) && RefsOk(s) && RoomOk(s, q)
  }

  lemma StartIsOk(s: State, q: Query)
    requires Start(s)
    ensures Inv(s, q)
  {
  }

  lemma WriterKeepsInv(s: State, a: Action, q: Query)
    requires Inv(s, q) && Enabled(s, a) && !a.Read?
    ensures Inv(Step(s, a, q), q)
  {
    assert Held(Step(s, a, q)) == Held(s);
  }

  /** Dropping the cursor's reference. */
  lemma PutEntryOk(s: State)
    requires RefsOk(s) && !s.pc.GetReference?
    ensures s.entry.Some? ==> s.entry.value.fence.id in s.refs
    ensures Holds(PutEntry(s).refs, s.collected)
  {
    if s.entry.Some? {
      HoldsOneLess(s.refs, s.collected, s.entry.value);
    } else {
      assert s.collected + [] == s.collected;
    }
  }

  lemma ReadKeepsRefs(s: State, granted: bool, q: Query)
    requires Inv(s, q) && Enabled(s, Read(granted))
    ensures RefsOk(ReadStep(s, granted, q))
  {
    if s.pc.Top? {
      TopKeepsRefs(s);
    } else if s.pc.GetReference? {
      GetReferenceKeepsRefs(s, granted);
    } else if s.pc.Collect? {
      CollectKeepsRefs(s);
    } else if s.pc.Body? {
      BodyKeepsRefs(s, granted, q);
    } else {
      OtherStepsKeepRefs(s, granted, q);
    }
  }

  lemma OtherStepsKeepRefs(s: State, granted: bool, q: Query)
    requires CursorOk(s) && RefsOk(s) && Enabled(s, Read(granted))
    requires !s.pc.Top? && !s.pc.GetReference? && !s.pc.Collect? && !s.pc.Body?
    ensures RefsOk(ReadStep(s, granted, q))
  {
    hide Holds;
    var t := ReadStep(s, granted, q);
    assert Held(t) == Held(s) && t.collected == s.collected && t.refs == s.refs;
  }

  lemma BodyKeepsRefs(s: State, granted: bool, q: Query)
    requires CursorOk(s) && RefsOk(s) && s.pc.Body?
    ensures RefsOk(BodyStep(s, granted, q))
  {
    if s.restarted && s.collected != [] {
      BodyDropKeepsRefs(s, granted, q);
    } else if s.restarted && !granted {
      BodyFailKeepsRefs(s, q);
    } else {
      assert Held(BodyStep(s, granted, q)) == Held(s);
    }
  }

  lemma TopKeepsRefs(s: State)
    requires CursorOk(s) && RefsOk(s) && s.pc.Top?
    ensures RefsOk(TopStep(s))
  {
    PutEntryOk(s);
    assert TopStep(s).collected + Held(TopStep(s)) == s.collected;
  }

  lemma GetReferenceKeepsRefs(s: State, granted: bool)
    requires CursorOk(s) && RefsOk(s) && s.pc.GetReference?
    ensures RefsOk(GetReferenceStep(s, granted))
  {
    assert s.collected + Held(s) == s.collected;
    if granted {
      HoldsOneMore(s.refs, s.collected, s.entry.value);
    }
  }

  lemma BodyFailKeepsRefs(s: State, q: Query)
    requires CursorOk(s) && RefsOk(s) && s.pc.Body? && s.restarted && s.collected == []
    ensures RefsOk(BodyStep(s, false, q))
  {
    PutEntryOk(s);
    assert [] + Held(BodyStep(s, false, q)) == [];
  }

  lemma CollectKeepsRefs(s: State)
    requires CursorOk(s) && RefsOk(s) && s.pc.Collect?
    ensures RefsOk(CollectStep(s))
  {
    var e := s.entry.value;
    HoldsOneMore(s.refs, s.collected + [e], e);
  }

  lemma BodyDropKeepsRefs(s: State, granted: bool, q: Query)
    requires CursorOk(s) && RefsOk(s) && s.pc.Body? && s.restarted && s.collected != []
    ensures s.collected[|s.collected| - 1].fence.id in s.refs
    ensures RefsOk(BodyStep(s, granted, q))
  {
    var last, e := |s.collected| - 1, s.entry.value;
    var c, rest := s.collected[last], s.collected[..last];
    assert s.collected == rest + [c];
    forall x: nat ensures s.refs[x] == Count(rest + [e], x) + One(c, x) {
      CountPush(s.collected, e, x);
      CountPush(rest, c, x);
      CountPush(rest, e, x);
    }
    assert s.refs[c.fence.id] > 0;
  }

  lemma WalkKeepsCursor(s: State, granted: bool, q: Query)
    requires CursorOk(s) && RoomOk(s, q) && Enabled(s, Read(granted))
    requires s.pc.Enter? || s.pc.Top? || s.pc.GetReference? || s.pc.Test?
    ensures CursorOk(ReadStep(s, granted, q)) && RoomOk(ReadStep(s, granted, q), q)
  {
  }

  lemma RestartKeepsCursor(s: State, granted: bool, q: Query)
    requires CursorOk(s) && RoomOk(s, q) && Enabled(s, Read(granted))
    requires s.pc.ReadTable? || s.pc.ReadCount? || s.pc.Check? || s.pc.Next?
    ensures CursorOk(ReadStep(s, granted, q)) && RoomOk(ReadStep(s, granted, q), q)
  {
  }

  lemma BodyKeepsCursor(s: State, granted: bool, q: Query)
    requires CursorOk(s) && RoomOk(s, q) && Enabled(s, Read(granted))
    requires s.pc.Body? || s.pc.Collect?
    ensures CursorOk(ReadStep(s, granted, q)) && RoomOk(ReadStep(s, granted, q), q)
  {
  }

  /** Every step of the reader and of the writers keeps the invariant. */
  lemma StepKeepsInv(s: State, a: Action, q: Query)
    requires Inv(s, q) && Enabled(s, a)
    ensures Inv(Step(s, a, q), q)
  {
    if a.Read? {
      ReadKeepsRefs(s, a.granted, q);
      if s.pc.Body? || s.pc.Collect? {
        BodyKeepsCursor(s, a.granted, q);
      } else if s.pc.ReadTable? || s.pc.ReadCount? || s.pc.Check? || s.pc.Next? {
        RestartKeepsCursor(s, a.granted, q);
      } else {
        WalkKeepsCursor(s, a.granted, q);
      }
    } else {
      WriterKeepsInv(s, a, q);
    }
  }

  // -------------------------------------------------------------- whole runs

  ghost predicate StepsTo(s: State, a: Action, t: State, q: Query) {
    CursorOk(s) ==> Enabled(s, a) && t == Step(s, a, q)
  }

  ghost predicate Run(states: seq<State>, acts: seq<Action>, q: Query) {
    && |states| == |acts| + 1
    && Start(states[0])
    && forall k :: 0 <= k < |acts| ==> StepsTo(states[k], acts[k], states[k + 1], q)
  }

  lemma {:induction false} RunKeepsInv(states: seq<State>, acts: seq<Action>, q: Query, k: nat)
    requires Run(states, acts, q) && k <= |acts|
    ensures Inv(states[k], q)
  {
    if k == 0 {
      StartIsOk(states[0], q);
    } else {
      RunKeepsInv(states, acts, q, k - 1);
      assert StepsTo(states[k - 1], acts[k - 1], states[k - 1 + 1], q);
      StepKeepsInv(states[k - 1], acts[k - 1], q);
    }
  }

  /** In every run the caller writes inside its array, and when the iteration is over it owns
      one reference for each fence in the array and no other; after a failed allocation none. */
  lemma ResultIsOwned(states: seq<State>, acts: seq<Action>, q: Query, k: nat)
    requires Run(states, acts, q) && k <= |acts|
    ensures states[k].pc.Collect? ==> |states[k].collected| < states[k].num && states[k].room == states[k].num + q.spare
    ensures states[k].pc.Done? ==> Holds(states[k].refs, states[k].collected)
    ensures states[k].pc.Failed? ==> states[k].collected == [] && Holds(states[k].refs, [])
  {
    RunKeepsInv(states, acts, q, k);
    if states[k].pc.Done? || states[k].pc.Failed? {
      assert states[k].collected + Held(states[k]) == states[k].collected;
    }
  }

  /** From state r, just after a restart, to state n there is no other restart. */
  ghost predicate Pass(states: seq<State>, acts: seq<Action>, r: nat, n: nat) {
    && 0 < r <= n < |states| == |acts| + 1
    && states[r - 1].pc.ReadCount? && acts[r - 1].Read?
    && forall k :: r <= k <= n ==> !Restarting(states[k])
  }

  predicate Restarting(s: State) {
    s.pc.ReadTable? || s.pc.ReadCount?
  }

  /** Every iteration that is over ended with a pass. */
  lemma {:induction false} RunEndsWithPass(states: seq<State>, acts: seq<Action>, q: Query, n: nat) returns (r: nat)
    requires Run(states, acts, q) && n <= |acts| && !Restarting(states[n])
    ensures Pass(states, acts, r, n)
  {
    if n == 0 {
      assert false;
    }
    RunKeepsInv(states, acts, q, n - 1);
    assert StepsTo(states[n - 1], acts[n - 1], states[n - 1 + 1], q);
    if Restarting(states[n - 1]) {
      r := n;
    } else {
      r := RunEndsWithPass(states, acts, q, n - 1);
    }
  }

  /** What writers may do to a slot during a pass: leave it, put a fence there that stands for
      the old one, or reuse it once the old one has signalled. */
  ghost predicate SlotStep(e: Entry, e2: Entry, bits: set<nat>) {
    e2 == e || StandsFor(e2, e) || e.fence.id in bits
  }

  function Slot(s: State, table: nat, i: nat): (r: Entry)
    requires table < |s.tables| && i < |s.tables[table]|
  {
    s.tables[table][i]
  }

  ghost predicate Collected(s: State, want: iset<Entry>) {
    exists c :: 0 <= c < |s.collected| && s.collected[c] in want
  }

  /** Entries that a query returns whenever it meets them while no more than bits have
      signalled. */
  ghost predicate Visible(want: iset<Entry>, q: Query, bits: set<nat>) {
    forall e :: e in want ==> e.usage <= q.usage && e.fence.id !in bits
  }

  /** The reader has met a wanted entry and collected it, or still handles it. */
  ghost predicate Accounted(s: State, want: iset<Entry>) {
    || (Collected(s, want) && (s.restarted ==> s.pc.Next?))
    || (Pending(s) && s.entry.Some? && s.entry.value in want)
  }

  /** In the middle of a pass over a table in whose slot i a wanted entry stands. */
  ghost predicate InPass(s: State, table: nat, num: nat, i: nat, want: iset<Entry>, bits: set<nat>) {
    && !Restarting(s) && s.fences == Some(table) && s.num == num && s.bits <= bits
    && table < |s.tables| && i < num <= |s.tables[table]|
    && Slot(s, table, i) in want
    && (i < s.index && !s.pc.Failed? ==> Accounted(s, want))
  }

  lemma WriterKeepsPass(s: State, a: Action, q: Query, table: nat, num: nat, i: nat, want: iset<Entry>, bits: set<nat>)
    requires Inv(s, q) && Enabled(s, a) && !a.Read? && InPass(s, table, num, i, want, bits)
    requires Step(s, a, q).bits <= bits
    requires table < |Step(s, a, q).tables| && i < |Step(s, a, q).tables[table]|
    requires Slot(Step(s, a, q), table, i) in want
    ensures InPass(Step(s, a, q), table, num, i, want, bits)
  {
  }

  lemma TopKeepsPass(s: State, granted: bool, q: Query, table: nat, num: nat, i: nat, want: iset<Entry>, bits: set<nat>)
    requires Inv(s, q) && Enabled(s, Read(granted)) && InPass(s, table, num, i, want, bits)
    requires Visible(want, q, bits) && !Restarting(ReadStep(s, granted, q))
    requires s.pc.Top?
    ensures InPass(ReadStep(s, granted, q), table, num, i, want, bits)
  {
    assert i < s.index ==> Collected(s, want) && !s.restarted;
    assert i < s.index ==> Collected(TopStep(s), want);
  }

  lemma HandlingKeepsPass(s: State, granted: bool, q: Query, table: nat, num: nat, i: nat, want: iset<Entry>,
                          bits: set<nat>)
    requires Inv(s, q) && Enabled(s, Read(granted)) && InPass(s, table, num, i, want, bits)
    requires Visible(want, q, bits) && !Restarting(ReadStep(s, granted, q))
    requires s.pc.GetReference? || s.pc.Test?
    ensures InPass(ReadStep(s, granted, q), table, num, i, want, bits)
  {
    var t := ReadStep(s, granted, q);
    assert Collected(s, want) ==> Collected(t, want);
  }

  lemma CheckKeepsPass(s: State, granted: bool, q: Query, table: nat, num: nat, i: nat, want: iset<Entry>,
                       bits: set<nat>)
    requires Inv(s, q) && Enabled(s, Read(granted)) && InPass(s, table, num, i, want, bits)
    requires Visible(want, q, bits) && !Restarting(ReadStep(s, granted, q))
    requires s.pc.Enter? || s.pc.Check? || s.pc.Next?
    ensures InPass(ReadStep(s, granted, q), table, num, i, want, bits)
  {
    var t := ReadStep(s, granted, q);
    assert Collected(s, want) ==> Collected(t, want);
  }

  lemma BodyKeepsPass(s: State, granted: bool, q: Query, table: nat, num: nat, i: nat, want: iset<Entry>,
                      bits: set<nat>)
    requires Inv(s, q) && Enabled(s, Read(granted)) && InPass(s, table, num, i, want, bits)
    requires Visible(want, q, bits) && !Restarting(ReadStep(s, granted, q))
    requires s.pc.Body?
    ensures InPass(ReadStep(s, granted, q), table, num, i, want, bits)
  {
    var t := ReadStep(s, granted, q);
    assert !s.restarted && Collected(s, want) ==> Collected(t, want);
  }

  lemma CollectKeepsPass(s: State, granted: bool, q: Query, table: nat, num: nat, i: nat, want: iset<Entry>,
                         bits: set<nat>)
    requires Inv(s, q) && Enabled(s, Read(granted)) && InPass(s, table, num, i, want, bits)
    requires Visible(want, q, bits) && !Restarting(ReadStep(s, granted, q))
    requires s.pc.Collect?
    ensures InPass(ReadStep(s, granted, q), table, num, i, want, bits)
  {
    if i < s.index {
      CollectAdds(s, want);
    }
  }

  lemma CollectAdds(s: State, want: iset<Entry>)
    requires s.entry.Some?
    ensures Collected(s, want) || s.entry.value in want ==> Collected(CollectStep(s), want)
  {
    var t := CollectStep(s);
    if Collected(s, want) {
      var c :| 0 <= c < |s.collected| && s.collected[c] in want;
      assert t.collected[c] == s.collected[c];
    } else if s.entry.value in want {
      assert t.collected[|s.collected|] == s.entry.value;
    }
  }

  lemma ReadKeepsPass(s: State, granted: bool, q: Query, table: nat, num: nat, i: nat, want: iset<Entry>,
                      bits: set<nat>)
    requires Inv(s, q) && Enabled(s, Read(granted)) && InPass(s, table, num, i, want, bits)
    requires Visible(want, q, bits) && !Restarting(ReadStep(s, granted, q))
    ensures InPass(ReadStep(s, granted, q), table, num, i, want, bits)
  {
    if s.pc.Top? {
      TopKeepsPass(s, granted, q, table, num, i, want, bits);
    } else if s.pc.GetReference? || s.pc.Test? {
      HandlingKeepsPass(s, granted, q, table, num, i, want, bits);
    } else if s.pc.Body? {
      BodyKeepsPass(s, granted, q, table, num, i, want, bits);
    } else if s.pc.Collect? {
      CollectKeepsPass(s, granted, q, table, num, i, want, bits);
    } else {
      CheckKeepsPass(s, granted, q, table, num, i, want, bits);
    }
  }

  /** The first state of a pass. */
  lemma PassBegins(states: seq<State>, acts: seq<Action>, q: Query, r: nat, n: nat)
    requires Run(states, acts, q) && Pass(states, acts, r, n)
    ensures states[r].index == 0 && states[r].restarted
    ensures states[r].fences.Some? ==>
              states[r].fences.value < |states[r].tables| && states[r].num == |states[r].tables[states[r].fences.value]|
    ensures states[r].fences.None? ==> states[r].num == 0
  {
    RunKeepsInv(states, acts, q, r - 1);
    assert StepsTo(states[r - 1], acts[r - 1], states[r - 1 + 1], q);
  }

  /** What the table of a pass has in slot i at state k. */
  ghost function SlotAt(states: seq<State>, r: nat, i: nat, k: nat): (result: Entry)
    requires r < |states| && k < |states| && states[r].fences.Some?
    requires states[r].fences.value < |states[k].tables| && i < |states[k].tables[states[r].fences.value]|
  {
    Slot(states[k], states[r].fences.value, i)
  }

  ghost predicate SlotStays(states: seq<State>, r: nat, i: nat, n: nat) {
    && r <= n < |states| && states[r].fences.Some?
    && forall k :: r <= k <= n ==>
         states[r].fences.value < |states[k].tables| && i < |states[k].tables[states[r].fences.value]|
  }

  /** In a pass the slots of its table are always there. */
  lemma {:induction false} PassHasSlot(states: seq<State>, acts: seq<Action>, q: Query, r: nat, n: nat, i: nat)
    requires Run(states, acts, q) && Pass(states, acts, r, n) && i < states[r].num
    ensures SlotStays(states, r, i, n)
  {
    PassBegins(states, acts, q, r, n);
    forall k | r <= k <= n
      ensures states[r].fences.value < |states[k].tables| && i < |states[k].tables[states[r].fences.value]|
    {
      TablesGrow(states, acts, q, r, k);
    }
  }

  ghost predicate Grown(a: seq<seq<Entry>>, b: seq<seq<Entry>>) {
    |a| <= |b| && forall t :: 0 <= t < |a| ==> |a[t]| <= |b[t]|
  }

  lemma {:induction false} TablesGrow(states: seq<State>, acts: seq<Action>, q: Query, r: nat, k: nat)
    requires Run(states, acts, q) && r <= k <= |acts|
    ensures Grown(states[r].tables, states[k].tables)
  {
    if r < k {
      TablesGrow(states, acts, q, r, k - 1);
      RunKeepsInv(states, acts, q, k - 1);
      assert StepsTo(states[k - 1], acts[k - 1], states[k - 1 + 1], q);
      StepGrowsTables(states[k - 1], acts[k - 1], q);
    }
  }

  lemma StepGrowsTables(s: State, a: Action, q: Query)
    requires CursorOk(s) && Enabled(s, a)
    ensures Grown(s.tables, Step(s, a, q).tables)
  {
  }

  lemma {:induction false} PassKeeps(states: seq<State>, acts: seq<Action>, q: Query, r: nat, n: nat, k: nat, i: nat,
                                     want: iset<Entry>)
    requires Run(states, acts, q) && Pass(states, acts, r, n) && r <= k <= n
    requires i < states[r].num && SlotStays(states, r, i, n)
    requires forall m :: r <= m <= n ==> SlotAt(states, r, i, m) in want
    requires Visible(want, q, states[n].bits)
    ensures InPass(states[k], states[r].fences.value, states[r].num, i, want, states[n].bits)
  {
    var table, num, bits := states[r].fences.value, states[r].num, states[n].bits;
    RunKeepsInv(states, acts, q, r);
    SignalsGrow(states, acts, q, k, n);
    assert SlotAt(states, r, i, k) in want;
    if k == r {
      PassBegins(states, acts, q, r, n);
    } else {
      PassKeeps(states, acts, q, r, n, k - 1, i, want);
      RunKeepsInv(states, acts, q, k - 1);
      assert StepsTo(states[k - 1], acts[k - 1], states[k - 1 + 1], q);
      if acts[k - 1].Read? {
        ReadKeepsPass(states[k - 1], acts[k - 1].granted, q, table, num, i, want, bits);
      } else {
        WriterKeepsPass(states[k - 1], acts[k - 1], q, table, num, i, want, bits);
      }
    }
  }

  lemma {:induction false} SignalsGrow(states: seq<State>, acts: seq<Action>, q: Query, k: nat, n: nat)
    requires Run(states, acts, q) && k <= n <= |acts|
    ensures states[k].bits <= states[n].bits
    decreases n - k
  {
    if k < n {
      RunKeepsInv(states, acts, q, k);
      assert StepsTo(states[k], acts[k], states[k + 1], q);
      SignalsGrow(states, acts, q, k + 1, n);
    }
  }

  /** If only wanted entries stand in slot i during the last pass, one of them is collected. */
  lemma PassCollects(states: seq<State>, acts: seq<Action>, q: Query, r: nat, n: nat, i: nat, want: iset<Entry>)
    requires Run(states, acts, q) && Pass(states, acts, r, n) && states[n].pc.Done?
    requires i < states[r].num && SlotStays(states, r, i, n)
    requires forall m :: r <= m <= n ==> SlotAt(states, r, i, m) in want
    requires Visible(want, q, states[n].bits)
    ensures Collected(states[n], want)
  {
    PassKeeps(states, acts, q, r, n, n, i, want);
    RunKeepsInv(states, acts, q, n);
  }

  /** An entry that the query may see and that stays in its slot, unsignaled, from the last
      restart to the end is collected. */
  lemma SteadyEntryIsCollected(states: seq<State>, acts: seq<Action>, q: Query, r: nat, n: nat, i: nat)
    requires Run(states, acts, q) && Pass(states, acts, r, n) && states[n].pc.Done?
    requires i < states[r].num && SlotStays(states, r, i, n)
    requires forall k :: r <= k <= n ==> SlotAt(states, r, i, k) == SlotAt(states, r, i, r)
    requires SlotAt(states, r, i, r).usage <= q.usage && SlotAt(states, r, i, r).fence.id !in states[n].bits
    ensures SlotAt(states, r, i, r) in states[n].collected
  {
    PassCollects(states, acts, q, r, n, i, iset{SlotAt(states, r, i, r)});
  }

  /** Writers put nothing else into slot i during the pass than dma_resv_add_fence does. */
  ghost predicate OnlyAdds(states: seq<State>, r: nat, i: nat, n: nat)
    requires SlotStays(states, r, i, n)
  {
    forall k :: r < k <= n ==> SlotStep(SlotAt(states, r, i, k - 1), SlotAt(states, r, i, k), states[k].bits)
  }

  ghost predicate SlotWithin(states: seq<State>, r: nat, i: nat, n: nat, all: set<Fence>)
    requires SlotStays(states, r, i, n)
  {
    forall k :: r <= k <= n ==> SlotAt(states, r, i, k).fence in all
  }

  lemma {:induction false} SlotStandsFor(states: seq<State>, acts: seq<Action>, q: Query, r: nat, n: nat, k: nat,
                                        i: nat, all: set<Fence>)
    requires Run(states, acts, q) && n <= |acts| && SlotStays(states, r, i, n) && r <= k <= n
    requires OnlyAdds(states, r, i, n) && SlotWithin(states, r, i, n, all) && InOrder(all, states[n].bits)
    requires SlotAt(states, r, i, r).fence.id !in states[n].bits
    ensures StandsFor(SlotAt(states, r, i, k), SlotAt(states, r, i, r))
            && SlotAt(states, r, i, k).fence.id !in states[n].bits
  {
    if r < k {
      SlotStandsFor(states, acts, q, r, n, k - 1, i, all);
      SignalsGrow(states, acts, q, k, n);
      assert SlotStep(SlotAt(states, r, i, k - 1), SlotAt(states, r, i, k), states[k].bits);
      assert SlotAt(states, r, i, k).fence in all && SlotAt(states, r, i, r).fence in all;
    }
  }

  /** When the iteration is over, what stood in slot i at the last restart, if the query may
      see it, has signalled, or the caller has it or a later fence of its context. */
  lemma PassCovers(states: seq<State>, acts: seq<Action>, q: Query, r: nat, n: nat, i: nat, all: set<Fence>)
    requires Run(states, acts, q) && Pass(states, acts, r, n) && states[n].pc.Done?
    requires i < states[r].num && SlotStays(states, r, i, n)
    requires OnlyAdds(states, r, i, n) && SlotWithin(states, r, i, n, all) && InOrder(all, states[n].bits)
    requires SlotAt(states, r, i, r).usage <= q.usage
    ensures SlotAt(states, r, i, r).fence.id in states[n].bits
         || exists c :: 0 <= c < |states[n].collected| && StandsFor(states[n].collected[c], SlotAt(states, r, i, r))
  {
    var e, bits := SlotAt(states, r, i, r), states[n].bits;
    if e.fence.id !in bits {
      var want := iset x: Entry | StandsFor(x, e) && x.fence.id !in bits;
      forall m | r <= m <= n
        ensures SlotAt(states, r, i, m) in want
      {
        SlotStandsFor(states, acts, q, r, n, m, i, all);
      }
      PassCollects(states, acts, q, r, n, i, want);
    }
  }

  /** dma_resv_test_signaled is true when the iteration yields nothing: then everything that
      the query may see in the table at the last restart has signalled. */
  lemma NothingCollectedMeansSignaled(states: seq<State>, acts: seq<Action>, q: Query, r: nat, n: nat, i: nat,
                                      all: set<Fence>)
    requires Run(states, acts, q) && Pass(states, acts, r, n) && states[n].pc.Done? && states[n].collected == []
    requires i < states[r].num && SlotStays(states, r, i, n)
    requires OnlyAdds(states, r, i, n) && SlotWithin(states, r, i, n, all) && InOrder(all, states[n].bits)
    requires SlotAt(states, r, i, r).usage <= q.usage
    ensures SlotAt(states, r, i, r).fence.id in states[n].bits
  {
    PassCovers(states, acts, q, r, n, i, all);
  }
}
