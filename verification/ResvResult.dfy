/** What an unlocked iteration returns: only fences that the query sees and that it has found
    unsignaled, and exactly those of the table when nobody writes meanwhile (dma-resv.c). */
module ResvResult {
  import opened Fences
  import opened FenceUnwrap
  import opened Resv
  import opened ResvIter

  // ------------------------------------------------------- nobody writes

  predicate Sees(q: Query, bits: set<nat>, e: Entry) {
    e.usage <= q.usage && e.fence.id !in bits
  }

  /** The entries of a table that a query is to return, in order. */
  function Answer(es: seq<Entry>, q: Query, bits: set<nat>): (r: seq<Entry>)
    ensures forall e :: e in r <==> e in es && Sees(q, bits, e)
  {
    if es == [] then []
    else
      var last := es[|es| - 1];
      assert es == es[..|es| - 1] + [last];
      Answer(es[..|es| - 1], q, bits) + (if Sees(q, bits, last) then [last] else [])
  }

  /** The table that the reader is to read; none is like an empty one. */
  function Current(s: State): (es: seq<Entry>) {
    if s.current.Some? && s.current.value < |s.tables| then s.tables[s.current.value] else []
  }

  /** What has been collected in this pass once the first i slots have been dealt with; a pass
      that has met nothing leaves what an earlier one had collected. */
  ghost predicate Upto(s: State, q: Query, i: int, kept: seq<Entry>) {
    && 0 <= i <= |Current(s)|
    && var found := Answer(Current(s)[..i], q, s.bits);
       if s.restarted then found == [] && s.collected == kept else found != [] && s.collected == found
  }

  ghost predicate Handles(s: State, q: Query, kept: seq<Entry>) {
    && 0 < s.index <= |Current(s)| && s.entry == Some(Current(s)[s.index - 1])
    && Upto(s, q, s.index - 1, kept)
  }

  /** In the middle of a pass that nobody has disturbed. */
  ghost predicate Undisturbed(s: State, q: Query, kept: seq<Entry>) {
    && CursorOk(s) && s.current == s.fences && s.num == |Current(s)|
    && match s.pc
       case ReadTable(_) => false
       case ReadCount(_) => false
       case Enter => Upto(s, q, s.index, kept)
       case Top => Upto(s, q, s.index, kept)
       case GetReference => Handles(s, q, kept)
       case Test => Handles(s, q, kept)
       case Check =>
         if s.entry.Some? then Handles(s, q, kept) && Sees(q, s.bits, s.entry.value)
         else s.index == s.num && Upto(s, q, s.index, kept)
       case Body =>
         && 0 < s.index <= |Current(s)| && s.entry == Some(Current(s)[s.index - 1])
         && Sees(q, s.bits, s.entry.value)
         && var found := Answer(Current(s)[..s.index - 1], q, s.bits);
            if s.restarted then found == [] else found != [] && s.collected == found
       case Collect =>
         && 0 < s.index <= |Current(s)| && s.entry == Some(Current(s)[s.index - 1])
         && Sees(q, s.bits, s.entry.value) && s.collected == Answer(Current(s)[..s.index - 1], q, s.bits)
       case Next => s.collected == Answer(Current(s)[..s.index], q, s.bits) != []
       case Done => Upto(s, q, |Current(s)|, kept)
       case Failed => false
  }

  function PhaseRank(s: State): (r: nat) {
    match s.pc
    case Enter => 9
    case Top => 8
    case GetReference => 16
    case Test => 15
    case Check => if s.entry.Some? then 14 else 1
    case Body => 13
    case Collect => 12
    case Next => 11
    case _ => 0
  }

  lemma AnswerPush(es: seq<Entry>, i: nat, q: Query, bits: set<nat>)
    requires i < |es|
    ensures Answer(es[..i + 1], q, bits) == Answer(es[..i], q, bits) + (if Sees(q, bits, es[i]) then [es[i]] else [])
  {
    assert es[..i + 1][..i] == es[..i];
  }

  /** Slots ahead, then where it is, then what is to be dropped. */
  function SlotsAhead(s: State): (r: nat) {
    if s.index <= |Current(s)| then |Current(s)| - s.index else 0
  }

  ghost predicate Nearer(s: State, t: State) {
    || SlotsAhead(t) < SlotsAhead(s)
    || (SlotsAhead(t) == SlotsAhead(s) && PhaseRank(t) < PhaseRank(s))
    || (SlotsAhead(t) == SlotsAhead(s) && PhaseRank(t) == PhaseRank(s) && |t.collected| < |s.collected|)
  }

  ghost predicate Advances(s: State, q: Query, kept: seq<Entry>) {
    CursorOk(s) && s.pc != Done && s.pc != Failed
    && var t := ReadStep(s, true, q);
       Undisturbed(t, q, kept) && Nearer(s, t) && t.bits == s.bits && Current(t) == Current(s)
  }

  lemma WalkAdvances(s: State, q: Query, kept: seq<Entry>)
    requires Undisturbed(s, q, kept) && (s.pc.Enter? || s.pc.GetReference? || s.pc.Check?) && !s.pc.Done?
    ensures Advances(s, q, kept)
  {
    hide Answer;
  }

  lemma TopAdvances(s: State, q: Query, kept: seq<Entry>)
    requires Undisturbed(s, q, kept) && s.pc.Top?
    ensures Advances(s, q, kept)
  {
    hide Answer;
    if s.index < s.num {
      TopTakes(s, q, kept);
    }
  }

  lemma TopTakes(s: State, q: Query, kept: seq<Entry>)
    requires Undisturbed(s, q, kept) && s.pc.Top? && s.index < s.num
    ensures Advances(s, q, kept)
  {
    hide Answer;
    var t := ReadStep(s, true, q);
    assert t.pc.GetReference? && Current(t) == Current(s) && t.collected == s.collected;
    assert Handles(t, q, kept);
  }

  lemma TestAdvances(s: State, q: Query, kept: seq<Entry>)
    requires Undisturbed(s, q, kept) && s.pc.Test?
    ensures Advances(s, q, kept)
  {
    AnswerPush(Current(s), s.index - 1, q, s.bits);
  }

  lemma BodyAdvances(s: State, q: Query, kept: seq<Entry>)
    requires Undisturbed(s, q, kept) && s.pc.Body?
    ensures Advances(s, q, kept)
  {
  }

  lemma CollectAdvances(s: State, q: Query, kept: seq<Entry>)
    requires Undisturbed(s, q, kept) && s.pc.Collect?
    ensures Advances(s, q, kept)
  {
    CollectAnswers(s, q, kept);
    var t := CollectStep(s);
    assert Current(t) == Current(s);
    hide Answer, Current;
  }

  lemma CollectAnswers(s: State, q: Query, kept: seq<Entry>)
    requires Undisturbed(s, q, kept) && s.pc.Collect?
    ensures CollectStep(s).collected == Answer(Current(s)[..s.index], q, s.bits) != []
  {
    AnswerPush(Current(s), s.index - 1, q, s.bits);
    assert s.index - 1 + 1 == s.index;
    hide Answer, Current;
  }

  lemma NextAdvances(s: State, q: Query, kept: seq<Entry>)
    requires Undisturbed(s, q, kept) && s.pc.Next?
    ensures Advances(s, q, kept)
  {
    hide Answer;
  }

  lemma StepAdvances(s: State, q: Query, kept: seq<Entry>)
    requires Undisturbed(s, q, kept) && !s.pc.Done?
    ensures Advances(s, q, kept)
  {
    match s.pc
    case Top => TopAdvances(s, q, kept);
    case Test => TestAdvances(s, q, kept);
    case Body => BodyAdvances(s, q, kept);
    case Collect => CollectAdvances(s, q, kept);
    case Next => NextAdvances(s, q, kept);
    case _ => WalkAdvances(s, q, kept);
  }

  /** The reader's steps when nobody else takes any, and no memory is refused. */
  ghost predicate ReadsAlone(states: seq<State>, q: Query) {
    && states != []
    && forall k :: 0 <= k < |states| - 1 ==>
         && CursorOk(states[k]) && states[k].pc != Done && states[k].pc != Failed
         && states[k + 1] == ReadStep(states[k], true, q)
  }

  lemma Prepend(s: State, states: seq<State>, q: Query)
    requires ReadsAlone(states, q) && CursorOk(s) && s.pc != Done && s.pc != Failed
    requires states[0] == ReadStep(s, true, q)
    ensures ReadsAlone([s] + states, q)
  {
    hide CursorOk, ReadStep;
  }

  lemma PassEnds(s: State, q: Query, kept: seq<Entry>) returns (states: seq<State>)
    requires Undisturbed(s, q, kept)
    ensures ReadsAlone(states, q) && states[0] == s
    ensures var r := states[|states| - 1];
            r.pc.Done? && Undisturbed(r, q, kept) && r.bits == s.bits && Current(r) == Current(s)
    decreases SlotsAhead(s), PhaseRank(s), |s.collected|
  {
    if s.pc.Done? {
      states := [s];
    } else {
      StepAdvances(s, q, kept);
      hide Undisturbed, CursorOk, ReadStep;
      var rest := PassEnds(ReadStep(s, true, q), q, kept);
      states := [s] + rest;
      Prepend(s, rest, q);
    }
  }

  /** An iteration that begins in any state and that nobody disturbs ends, and returns exactly the
      entries of the table that the query sees and that have not signalled, in order; when there
      are none, what had been collected before the restart stays. */
  lemma QuietIterationIsExact(s: State, q: Query) returns (states: seq<State>)
    requires Inv(s, q) && s.pc == ReadTable(false)
    ensures ReadsAlone(states, q) && states[0] == s
    ensures var r, answer := states[|states| - 1], Answer(Current(s), q, s.bits);
            r.pc.Done? && r.collected == if answer == [] then s.collected else answer
  {
    var s1 := ReadStep(s, true, q);
    var s2 := ReadCountStep(s1);
    assert s2 == ReadStep(s1, true, q);
    assert Current(s2)[..0] == [];
    var rest := PassEnds(s2, q, s.collected);
    Prepend(s1, rest, q);
    Prepend(s, [s1] + rest, q);
    states := [s] + ([s1] + rest);
    var r := rest[|rest| - 1];
    assert Current(r)[..|Current(r)|] == Current(r);
  }

  // ------------------------------------------------------------- any run

  /** The entry stood in a table at some state from a to k. */
  ghost predicate Stood(states: seq<State>, a: nat, k: nat, e: Entry) {
    exists j, table, i :: a <= j <= k && StoodAt(states, j, table, i, e)
  }

  ghost predicate StoodAt(states: seq<State>, j: int, table: int, i: int, e: Entry) {
    0 <= j < |states| && 0 <= table < |states[j].tables| && 0 <= i < |states[j].tables[table]|
    && states[j].tables[table][i] == e
  }

  ghost predicate UnsignaledAt(states: seq<State>, j: int, e: Entry) {
    0 <= j < |states| && e.fence.id !in states[j].bits
  }

  /** And its fence had not signalled at some such state. */
  ghost predicate WasUnsignaled(states: seq<State>, a: nat, k: nat, e: Entry) {
    exists j :: a <= j <= k && UnsignaledAt(states, j, e)
  }

  /** What an entry must have been for a query to return it. */
  ghost predicate WasVisible(states: seq<State>, q: Query, a: nat, k: nat, e: Entry) {
    e.usage <= q.usage && Stood(states, a, k, e) && WasUnsignaled(states, a, k, e)
  }

  predicate InHand(s: State) {
    s.entry.Some? && (Pending(s) || s.pc.Next?)
  }

  predicate Chosen(s: State) {
    s.entry.Some? && (s.pc.Check? || s.pc.Body? || s.pc.Collect? || s.pc.Next?)
  }

  /** What the reader holds has been visible since state a. */
  ghost predicate HandOk(states: seq<State>, q: Query, a: nat, k: nat)
    requires k < |states|
  {
    && (InHand(states[k]) ==> Stood(states, a, k, states[k].entry.value))
    && (Chosen(states[k]) ==> WasVisible(states, q, a, k, states[k].entry.value))
  }

  ghost predicate CollectedOk(states: seq<State>, q: Query, a: nat, k: nat)
    requires k < |states|
  {
    forall c :: 0 <= c < |states[k].collected| ==> WasVisible(states, q, a, k, states[k].collected[c])
  }

  lemma LaterStill(states: seq<State>, q: Query, a: nat, k: nat, e: Entry)
    ensures Stood(states, a, k, e) ==> Stood(states, a, k + 1, e)
    ensures WasVisible(states, q, a, k, e) ==> WasVisible(states, q, a, k + 1, e)
  {
  }

  /** The slot that the loop's head takes up. */
  lemma TopHands(s: State)
    requires CursorOk(s) && s.pc.Top?
    ensures var t := TopStep(s);
            && !Chosen(t)
            && (InHand(t) ==>
                  && s.fences.Some? && s.fences.value < |s.tables| && s.index < |s.tables[s.fences.value]|
                  && t.entry.value == s.tables[s.fences.value][s.index])
  {
  }

  /** No other step takes anything up. */
  lemma OthersHand(s: State, a: Action, q: Query)
    requires CursorOk(s) && Enabled(s, a) && !(a.Read? && s.pc.Top?)
    ensures InHand(Step(s, a, q)) ==> InHand(s) && Step(s, a, q).entry == s.entry
  {
    hide IsHeld;
  }

  lemma OthersChoose(s: State, a: Action, q: Query)
    requires CursorOk(s) && Enabled(s, a) && !(a.Read? && s.pc.Top?) && Chosen(Step(s, a, q))
    ensures s.entry == Step(s, a, q).entry && (Chosen(s) || (InHand(s) && Sees(q, s.bits, s.entry.value)))
  {
    hide IsHeld;
  }

  /** What comes into the reader's hand, and what it chooses. */
  lemma HandChanges(s: State, a: Action, q: Query)
    requires CursorOk(s) && Enabled(s, a)
    ensures var t := Step(s, a, q);
            && (InHand(t) ==>
                  if a.Read? && s.pc.Top?
                  then s.fences.Some? && s.fences.value < |s.tables| && s.index < |s.tables[s.fences.value]|
                       && t.entry.value == s.tables[s.fences.value][s.index]
                  else InHand(s) && t.entry == s.entry)
            && (Chosen(t) ==>
                  && s.entry == t.entry
                  && (Chosen(s) || (InHand(s) && Sees(q, s.bits, s.entry.value))))
  {
    if a.Read? && s.pc.Top? {
      TopHands(s);
      hide CursorOk, TopStep, Chosen, InHand;
    } else {
      OthersHand(s, a, q);
      if Chosen(Step(s, a, q)) {
        OthersChoose(s, a, q);
      }
      hide Step, Chosen, InHand;
    }
  }

  lemma CollectedChanges(s: State, a: Action, q: Query, e: Entry)
    requires Inv(s, q) && Enabled(s, a) && e in Step(s, a, q).collected
    ensures e in s.collected || (Chosen(s) && e == s.entry.value)
  {
    hide RefsOk, RoomOk;
  }

  /** One step keeps what is in hand visible. */
  lemma HandStep(states: seq<State>, acts: seq<Action>, q: Query, a: nat, k: nat)
    requires k + 1 < |states| && k < |acts| && a <= k && Inv(states[k], q) && HandOk(states, q, a, k)
    requires Enabled(states[k], acts[k]) && states[k + 1] == Step(states[k], acts[k], q)
    ensures HandOk(states, q, a, k + 1)
  {
    var s, t := states[k], states[k + 1];
    hide Inv, CursorOk, Enabled, Step;
    HandChanges(s, acts[k], q);
    if InHand(t) {
      var e := t.entry.value;
      if acts[k].Read? && s.pc.Top? {
        assert StoodAt(states, k, s.fences.value, s.index, e);
      } else {
        LaterStill(states, q, a, k, e);
      }
    }
    if Chosen(t) {
      LaterStill(states, q, a, k, t.entry.value);
      if !Chosen(s) {
        assert UnsignaledAt(states, k, t.entry.value);
      }
    }
  }

  /** One step keeps what has been collected visible. */
  lemma CollectedStep(states: seq<State>, acts: seq<Action>, q: Query, a: nat, k: nat)
    requires k + 1 < |states| && k < |acts| && a <= k && Inv(states[k], q) && HandOk(states, q, a, k)
    requires CollectedOk(states, q, a, k)
    requires Enabled(states[k], acts[k]) && states[k + 1] == Step(states[k], acts[k], q)
    ensures CollectedOk(states, q, a, k + 1)
  {
    hide Inv, Enabled, Step, WasVisible;
    var now := states[k + 1].collected;
    forall c | 0 <= c < |now|
      ensures WasVisible(states, q, a, k + 1, now[c])
    {
      CollectedChanges(states[k], acts[k], q, now[c]);
      LaterStill(states, q, a, k, now[c]);
    }
  }

  /** In every run everything that has been collected belongs to the query, stood in a table, and
      was unsignaled at some state of the run. */
  lemma {:induction false} CollectedWasVisible(states: seq<State>, acts: seq<Action>, q: Query, k: nat)
    requires Run(states, acts, q) && k <= |acts|
    ensures HandOk(states, q, 0, k) && CollectedOk(states, q, 0, k)
    ensures forall c :: 0 <= c < |states[k].collected| ==> states[k].collected[c].usage <= q.usage
  {
    hide Step, Enabled;
    if k > 0 {
      CollectedWasVisible(states, acts, q, k - 1);
      RunKeepsInv(states, acts, q, k - 1);
      assert StepsTo(states[k - 1], acts[k - 1], states[k - 1 + 1], q);
      HandStep(states, acts, q, 0, k - 1);
      CollectedStep(states, acts, q, 0, k - 1);
    }
  }

  /** So dma_resv_test_signaled is true, too, when everything that the query can see had
      signalled before. */
  lemma AllSignaledMeansNothingCollected(states: seq<State>, acts: seq<Action>, q: Query, k: nat)
    requires Run(states, acts, q) && k <= |acts|
    requires forall j, table, i, e :: StoodAt(states, j, table, i, e) && e.usage <= q.usage ==>
               e.fence.id in states[0].bits
    ensures states[k].collected == []
  {
    CollectedWasVisible(states, acts, q, k);
    if states[k].collected != [] {
      var e := states[k].collected[0];
      var j, table, i :| 0 <= j <= k && StoodAt(states, j, table, i, e);
      var m :| 0 <= m <= k && UnsignaledAt(states, m, e);
      SignalsGrow(states, acts, q, 0, m);
    }
  }

  /** A pass has collected something itself. */
  predicate Fresh(s: State) {
    !s.restarted || s.pc.Next?
  }

  /** What is left, in a pass that has collected nothing itself, of what there was before. */
  ghost predicate Leftover(s: State, before: seq<Entry>) {
    && s.collected <= before
    && (s.pc.Body? || s.pc.Collect? || s.pc.Failed? || s.collected == before)
  }

  lemma FreshStays(s: State, a: Action, q: Query)
    requires CursorOk(s) && Enabled(s, a) && Fresh(s) && !Restarting(s) && !Restarting(Step(s, a, q))
    ensures Fresh(Step(s, a, q))
  {
    hide IsHeld;
  }

  lemma FirstIsChosen(s: State, a: Action, q: Query)
    requires Inv(s, q) && Enabled(s, a) && !Fresh(s) && !Restarting(s)
    requires !Restarting(Step(s, a, q)) && Fresh(Step(s, a, q))
    ensures Chosen(s) && Step(s, a, q).collected == [s.entry.value]
  {
    hide RefsOk, IsHeld;
  }

  lemma LeftoverShrinks(s: State, a: Action, q: Query, before: seq<Entry>)
    requires CursorOk(s) && Enabled(s, a) && !Fresh(s) && !Restarting(s) && Leftover(s, before)
    requires !Restarting(Step(s, a, q)) && !Fresh(Step(s, a, q))
    ensures Leftover(Step(s, a, q), before)
  {
    hide IsHeld;
  }

  lemma PassChanges(s: State, a: Action, q: Query, before: seq<Entry>)
    requires Inv(s, q) && Enabled(s, a) && !Restarting(s) && !Restarting(Step(s, a, q))
    ensures Fresh(s) ==> Fresh(Step(s, a, q))
    ensures !Fresh(s) && Leftover(s, before) && !Fresh(Step(s, a, q)) ==> Leftover(Step(s, a, q), before)
    ensures !Fresh(s) && Fresh(Step(s, a, q)) ==> Chosen(s) && Step(s, a, q).collected == [s.entry.value]
  {
    InvHasCursor(s, q);
    hide *;
    if Fresh(s) {
      FreshStays(s, a, q);
    } else if Fresh(Step(s, a, q)) {
      FirstIsChosen(s, a, q);
    } else if Leftover(s, before) {
      LeftoverShrinks(s, a, q, before);
    }
  }

  lemma PassStep(states: seq<State>, acts: seq<Action>, q: Query, r: nat, k: nat)
    requires k + 1 < |states| && k < |acts| && r <= k && Inv(states[k], q) && HandOk(states, q, r, k)
    requires Enabled(states[k], acts[k]) && states[k + 1] == Step(states[k], acts[k], q)
    requires !Restarting(states[k]) && !Restarting(states[k + 1])
    requires if Fresh(states[k]) then CollectedOk(states, q, r, k) else Leftover(states[k], states[r].collected)
    ensures if Fresh(states[k + 1]) then CollectedOk(states, q, r, k + 1)
            else Leftover(states[k + 1], states[r].collected)
  {
    hide Inv, Enabled, Step, Restarting, WasVisible, Leftover, Fresh;
    PassChanges(states[k], acts[k], q, states[r].collected);
    if Fresh(states[k]) {
      CollectedStep(states, acts, q, r, k);
    } else if Fresh(states[k + 1]) {
      LaterStill(states, q, r, k, states[k].entry.value);
    }
  }

  /** In a pass that has collected something, all that was collected was visible in that pass;
      one that has not keeps what was there at its restart, or has begun to drop it. */
  lemma {:induction false} PassWasVisible(states: seq<State>, acts: seq<Action>, q: Query, r: nat, k: nat)
    requires Run(states, acts, q) && Pass(states, acts, r, k)
    ensures HandOk(states, q, r, k)
    ensures if Fresh(states[k]) then CollectedOk(states, q, r, k) else Leftover(states[k], states[r].collected)
    decreases k
  {
    hide Step, Enabled, Inv, Leftover, Fresh, HandOk, CollectedOk;
    if r < k {
      assert Pass(states, acts, r, k - 1);
      PassWasVisible(states, acts, q, r, k - 1);
      RunKeepsInv(states, acts, q, k - 1);
      assert StepsTo(states[k - 1], acts[k - 1], states[k - 1 + 1], q);
      InvHasCursor(states[k - 1], q);
      HandStep(states, acts, q, r, k - 1);
      PassStep(states, acts, q, r, k - 1);
    } else {
      AtRestart(states, acts, q, r);
    }
  }

  lemma InvHasCursor(s: State, q: Query)
    requires Inv(s, q)
    ensures CursorOk(s)
  {
  }

  /** When the iteration is over, the caller can tell by the cursor: if its last restart has been
      dealt with, everything it has got was visible since then; if not, nothing was, and what it
      has got is what it had before the restart. */
  lemma LastPassIsAll(states: seq<State>, acts: seq<Action>, q: Query, r: nat, n: nat)
    requires Run(states, acts, q) && Pass(states, acts, r, n) && states[n].pc.Done?
    ensures !states[n].restarted ==> CollectedOk(states, q, r, n)
    ensures states[n].restarted ==> states[n].collected == states[r].collected
  {
    PassWasVisible(states, acts, q, r, n);
  }

  /** Just after a restart nothing is in hand. */
  lemma AtRestart(states: seq<State>, acts: seq<Action>, q: Query, r: nat)
    requires Run(states, acts, q) && Pass(states, acts, r, r)
    ensures HandOk(states, q, r, r) && !Fresh(states[r]) && Leftover(states[r], states[r].collected)
  {
    RunKeepsInv(states, acts, q, r - 1);
    assert StepsTo(states[r - 1], acts[r - 1], states[r - 1 + 1], q);
  }

  // ------------------------------------------- when a pass finds nothing

  lemma Extend(states: seq<State>, acts: seq<Action>, q: Query, a: Action) returns (t: State)
    requires Run(states, acts, q) && Enabled(states[|acts|], a)
    ensures Inv(states[|acts|], q) && t == Step(states[|acts|], a, q)
    ensures Run(states + [t], acts + [a], q)
  {
    RunKeepsInv(states, acts, q, |acts|);
    t := Step(states[|acts|], a, q);
    hide Step, Enabled, Inv, Start;
    var all, done := states + [t], acts + [a];
    forall k | 0 <= k < |done|
      ensures StepsTo(all[k], done[k], all[k + 1], q)
    {
      if k < |acts| {
        assert StepsTo(states[k], acts[k], states[k + 1], q);
      }
    }
  }

  /** The first state of an iteration over a table with one entry. */
  function OneEntry(e: Entry): (s: State) {
    State([[e]], Some(0), {}, ReadTable(false), None, 0, 0, false, None, [], 0, multiset{})
  }

  /** The reader has come as far as having collected the entry. */
  function TakesOne(e: Entry, q: Query): (s: State) {
    OneEntry(e).(pc := Next, fences := Some(0), index := 1, num := 1, restarted := true, entry := Some(e),
                 collected := [e], room := 1 + q.spare, refs := multiset{e.fence.id, e.fence.id})
  }

  lemma CollectsOne(e: Entry, q: Query) returns (states: seq<State>, acts: seq<Action>)
    requires e.usage <= q.usage
    ensures Run(states, acts, q) && states[|acts|] == TakesOne(e, q)
  {
    states, acts := [OneEntry(e)], [];
    states, acts := ReadOn(states, acts, q);
    states, acts := ReadOn(states, acts, q);
    states, acts := ReadOn(states, acts, q);
    states, acts := ReadOn(states, acts, q);
    states, acts := ReadOn(states, acts, q);
    states, acts := ReadOn(states, acts, q);
    states, acts := ReadOn(states, acts, q);
    states, acts := ReadOn(states, acts, q);
    states, acts := ReadOn(states, acts, q);
  }

  lemma ReadOn(states: seq<State>, acts: seq<Action>, q: Query) returns (all: seq<State>, done: seq<Action>)
    requires Run(states, acts, q) && Enabled(states[|acts|], Read(true))
    ensures Inv(states[|acts|], q) && Run(all, done, q) && |done| == |acts| + 1 && states <= all && acts <= done
    ensures done[|acts|] == Read(true) && all[|done|] == Step(states[|acts|], Read(true), q)
  {
    var t := Extend(states, acts, q, Read(true));
    hide Run, Inv, Enabled, Step;
    all, done := states + [t], acts + [Read(true)];
  }

  /** The other case of LastPassIsAll happens: a fence that has been collected signals, the table is
      replaced by an empty one, and the iteration ends with the fence although it had signalled
      before the last restart. */
  lemma OldFencesAreKept(e: Entry, q: Query) returns (states: seq<State>, acts: seq<Action>, r: nat)
    requires e.usage <= q.usage
    ensures Run(states, acts, q) && Pass(states, acts, r, |acts|) && states[|acts|].pc.Done?
    ensures states[|acts|].restarted && states[|acts|].collected == [e] && e.fence.id in states[r - 1].bits
  {
    states, acts := CollectsOne(e, q);
    var t := Extend(states, acts, q, Signal(e.fence.id));
    states, acts := states + [t], acts + [Signal(e.fence.id)];
    t := Extend(states, acts, q, Publish([]));
    states, acts := states + [t], acts + [Publish([])];
    states, acts := ReadOn(states, acts, q);
    states, acts := ReadOn(states, acts, q);
    r := |states|;
    states, acts := ReadOn(states, acts, q);
    states, acts := ReadOn(states, acts, q);
    states, acts := ReadOn(states, acts, q);
    states, acts := ReadOn(states, acts, q);
  }
}
