/** The timeline a chain stands for: what dma_fence_chain_init writes once and nothing changes
    later, the meaning of a chain, and what trimming may do to it (dma-fence-chain.c). */
module ChainTimeline {
  import opened Fences

  /** The constant part of a fence. orig is the prev it was initialised with; fence is the
      contained fence, or the fence itself when it is not a chain. */
  datatype Info = Info(chain: bool, context: nat, seqno: nat, prevSeqno: nat, orig: Option<nat>, fence: nat)

  ghost predicate WellFormed(info: seq<Info>) {
    forall n :: 0 <= n < |info| ==>
      && (info[n].orig.Some? ==> info[n].chain && info[n].orig.value < n)
      && (if info[n].chain then info[n].fence < n else info[n].fence == n)
  }

  ghost predicate Valid(info: seq<Info>, a: Option<nat>) {
    a.Some? ==> a.value < |info|
  }

  /** The first node of its context. */
  predicate StartsContext(info: seq<Info>, n: nat)
    requires WellFormed(info) && n < |info|
  {
    info[n].orig.None? || info[info[n].orig.value].context != info[n].context
  }

  /** Contexts are contiguous runs of chain nodes with increasing seqnos, and every node but
      the first of a run knows the seqno of the one before it. The first node's prev_seqno is
      whatever its memory held. */
  ghost predicate Timelines(info: seq<Info>) {
    && WellFormed(info)
    && forall n :: 0 <= n < |info| && info[n].chain ==> TimelineAt(info, n)
  }

  ghost predicate TimelineAt(info: seq<Info>, n: nat)
    requires WellFormed(info) && n < |info|
  {
    if StartsContext(info, n) then forall m :: 0 <= m < n ==> info[m].context != info[n].context
    else var p := info[n].orig.value;
         info[p].chain && info[n].prevSeqno == info[p].seqno < info[n].seqno
  }

  /** dma_fence_chain_init: the constant part of a new node. stale is what prev_seqno's memory
      holds, which a new context leaves as it is. */
  function InitInfo(info: seq<Info>, prev: Option<nat>, fence: nat, seqno: nat, stale: nat, newContext: nat): (r: Info)
    requires Valid(info, prev)
  {
    if prev.Some? && info[prev.value].chain && SeqnoIsLater(seqno, info[prev.value].seqno, true)
    then Info(true, info[prev.value].context, seqno, info[prev.value].seqno, prev, fence)
    else Info(true, newContext,
              if prev.Some? && info[prev.value].chain && info[prev.value].seqno > seqno
              then info[prev.value].seqno else seqno,
              stale, prev, fence)
  }

  lemma InitKeepsTimelines(info: seq<Info>, prev: Option<nat>, fence: nat, seqno: nat, stale: nat, newContext: nat)
    requires Timelines(info) && Valid(info, prev) && fence < |info|
    requires forall m :: 0 <= m < |info| ==> info[m].context < newContext
    ensures Timelines(info + [InitInfo(info, prev, fence, seqno, stale, newContext)])
  {
    var info' := info + [InitInfo(info, prev, fence, seqno, stale, newContext)];
    forall n | 0 <= n < |info'| && info'[n].chain
      ensures TimelineAt(info', n)
    {
      if n < |info| {
        assert TimelineAt(info, n);
      }
    }
  }

  lemma PlainFenceKeepsTimelines(info: seq<Info>, context: nat, seqno: nat)
    requires Timelines(info)
    ensures Timelines(info + [Info(false, context, seqno, 0, None, |info|)])
  {
    var info' := info + [Info(false, context, seqno, 0, None, |info|)];
    forall n | 0 <= n < |info'| && info'[n].chain
      ensures TimelineAt(info', n)
    {
      assert TimelineAt(info, n);
    }
  }

  // ------------------------------------------------------------- meaning

  /** The unsignaled contained fences from a down, along the links of the initialisation. */
  ghost function Unsignaled(info: seq<Info>, a: Option<nat>, signaled: set<nat>): (r: set<nat>)
    requires WellFormed(info) && Valid(info, a)
    decreases if a.Some? then a.value + 1 else 0
  {
    if a.None? then {}
    else ({info[a.value].fence} - signaled) + Unsignaled(info, info[a.value].orig, signaled)
  }

  /** b is a, or lies below a with nothing but signaled fences from a to above b. */
  ghost predicate Skip(info: seq<Info>, a: Option<nat>, b: Option<nat>, signaled: set<nat>)
    requires WellFormed(info) && Valid(info, a)
    decreases if a.Some? then a.value + 1 else 0
  {
    a == b || (a.Some? && info[a.value].fence in signaled && Skip(info, info[a.value].orig, b, signaled))
  }

  lemma {:induction false} SkipGoesDown(info: seq<Info>, a: Option<nat>, b: Option<nat>, signaled: set<nat>)
    requires WellFormed(info) && Valid(info, a) && Skip(info, a, b, signaled)
    ensures b.Some? ==> a.Some? && b.value <= a.value
    ensures Valid(info, b)
    decreases if a.Some? then a.value + 1 else 0
  {
    if a != b {
      SkipGoesDown(info, info[a.value].orig, b, signaled);
    }
  }

  lemma {:induction false} SkipKeepsUnsignaled(info: seq<Info>, a: Option<nat>, b: Option<nat>, signaled: set<nat>)
    requires WellFormed(info) && Valid(info, a) && Skip(info, a, b, signaled)
    ensures Valid(info, b) && Unsignaled(info, a, signaled) == Unsignaled(info, b, signaled)
    decreases if a.Some? then a.value + 1 else 0
  {
    if a != b {
      SkipKeepsUnsignaled(info, info[a.value].orig, b, signaled);
    }
  }

  lemma {:induction false} SkipTransitive(info: seq<Info>, a: Option<nat>, b: Option<nat>, c: Option<nat>,
                                        signaled: set<nat>)
    requires WellFormed(info) && Valid(info, a) && Skip(info, a, b, signaled)
    requires Valid(info, b) && Skip(info, b, c, signaled)
    ensures Skip(info, a, c, signaled)
    decreases if a.Some? then a.value + 1 else 0
  {
    if a != b {
      SkipTransitive(info, info[a.value].orig, b, c, signaled);
    }
  }

  /** Later signals and later nodes do not undo a skip. */
  lemma {:induction false} SkipIsStable(info: seq<Info>, a: Option<nat>, b: Option<nat>, signaled: set<nat>,
                                        info': seq<Info>, signaled': set<nat>)
    requires WellFormed(info) && Valid(info, a) && Skip(info, a, b, signaled)
    requires WellFormed(info') && info <= info' && signaled <= signaled'
    ensures Skip(info', a, b, signaled')
    decreases if a.Some? then a.value + 1 else 0
  {
    if a != b {
      SkipIsStable(info, info[a.value].orig, b, signaled, info', signaled');
    }
  }

  // -------------------------------------------------------------- lookup

  /** The oldest node of n's context, from n down, whose seqno is at least the request. */
  function Target(info: seq<Info>, n: nat, request: nat): (t: nat)
    requires WellFormed(info) && n < |info|
    ensures t <= n && info[t].context == info[n].context
    ensures info[n].chain && Timelines(info) ==> info[t].chain
    ensures info[n].seqno >= request ==> info[t].seqno >= request
    ensures t == n || info[t].seqno >= request
    decreases n
  {
    if !StartsContext(info, n) && info[info[n].orig.value].seqno >= request
    then assert Timelines(info) && info[n].chain ==> TimelineAt(info, n);
         Target(info, info[n].orig.value, request)
    else n
  }

  /** The first node of n's context. */
  function FirstOf(info: seq<Info>, n: nat): (f: nat)
    requires WellFormed(info) && n < |info|
    ensures f <= n && info[f].context == info[n].context && StartsContext(info, f)
    ensures info[n].chain && Timelines(info) ==> info[f].chain
    decreases n
  {
    if StartsContext(info, n) then n
    else assert Timelines(info) && info[n].chain ==> TimelineAt(info, n);
         FirstOf(info, info[n].orig.value)
  }

  /** A lookup's cursor that has not passed the target. */
  ghost predicate AboveTarget(info: seq<Info>, head: nat, request: nat, c: Option<nat>)
    requires Timelines(info) && head < |info|
  {
    && c.Some? && c.value < |info| && info[c.value].chain
    && info[c.value].context == info[head].context && info[c.value].seqno >= request
    && Target(info, c.value, request) == Target(info, head, request)
    && FirstOf(info, c.value) == FirstOf(info, head)
  }

  /** A cursor that went past the first node of the context on its stale prev_seqno. */
  ghost predicate Lost(info: seq<Info>, head: nat, request: nat, c: Option<nat>, signaled: set<nat>)
    requires Timelines(info) && head < |info|
  {
    var f := FirstOf(info, head);
    && info[f].prevSeqno >= request && Skip(info, info[f].orig, c, signaled)
    && Skip(info, Some(Target(info, head, request)), Some(f), signaled)
  }

  /** The loop of dma_fence_chain_find_seqno, about to look at c. */
  ghost predicate LookupAt(info: seq<Info>, head: nat, request: nat, c: Option<nat>, signaled: set<nat>)
    requires Timelines(info) && head < |info|
  {
    || AboveTarget(info, head, request, c)
    || Skip(info, Some(Target(info, head, request)), c, signaled)
    || Lost(info, head, request, c, signaled)
  }

  lemma {:induction false} LookupTermsAreStable(info: seq<Info>, info': seq<Info>, n: nat, request: nat)
    requires WellFormed(info) && WellFormed(info') && info <= info' && n < |info|
    ensures Target(info', n, request) == Target(info, n, request)
    ensures FirstOf(info', n) == FirstOf(info, n)
    decreases n
  {
    if !StartsContext(info, n) {
      LookupTermsAreStable(info, info', info[n].orig.value, request);
    }
  }

  lemma LookupIsStable(info: seq<Info>, info': seq<Info>, head: nat, request: nat, c: Option<nat>,
                       signaled: set<nat>, signaled': set<nat>)
    requires Timelines(info) && Timelines(info') && info <= info' && head < |info|
    requires LookupAt(info, head, request, c, signaled) && signaled <= signaled'
    ensures LookupAt(info', head, request, c, signaled')
  {
    LookupTermsAreStable(info, info', head, request);
    var t, f := Target(info, head, request), FirstOf(info, head);
    if AboveTarget(info, head, request, c) {
      LookupTermsAreStable(info, info', c.value, request);
    } else if Skip(info, Some(t), c, signaled) {
      SkipIsStable(info, Some(t), c, signaled, info', signaled');
    } else {
      SkipIsStable(info, info[f].orig, c, signaled, info', signaled');
      SkipIsStable(info, Some(t), Some(f), signaled, info', signaled');
    }
  }

  /** The loop stops at c, a context boundary or a node whose predecessor is too old. */
  predicate StopsAt(info: seq<Info>, head: nat, request: nat, c: nat)
    requires head < |info| && c < |info|
  {
    info[c].context != info[head].context || info[c].prevSeqno < request
  }

  ghost predicate LookupDone(info: seq<Info>, head: nat, request: nat, c: Option<nat>, signaled: set<nat>)
    requires Timelines(info) && head < |info|
  {
    && LookupAt(info, head, request, c, signaled)
    && (c.Some? ==> c.value < |info| && StopsAt(info, head, request, c.value))
  }

  /** What a new node is: on a chain with an earlier sequence number it goes on with its context,
      and requests beyond that number find it, others what they found before; otherwise it starts
      a context, with a number not below the one given nor that of the chain it is put on. */
  lemma InitExtends(info: seq<Info>, prev: Option<nat>, fence: nat, seqno: nat, stale: nat, newContext: nat,
                    request: nat)
    requires Timelines(info) && Valid(info, prev) && fence < |info|
    requires forall m :: 0 <= m < |info| ==> info[m].context < newContext
    ensures var i := InitInfo(info, prev, fence, seqno, stale, newContext);
            var info', n := info + [i], |info|;
            && WellFormed(info') && i.chain && i.fence == fence && i.orig == prev
            && if prev.Some? && info[prev.value].chain && info[prev.value].seqno < seqno
               then var p := prev.value;
                    && i.context == info[p].context && i.seqno == seqno && FirstOf(info', n) == FirstOf(info, p)
                    && Target(info', n, request) == (if request <= info[p].seqno then Target(info, p, request) else n)
               else && FirstOf(info', n) == n && Target(info', n, request) == n && i.context == newContext
                    && i.seqno == if prev.Some? && info[prev.value].chain
                                  then Larger(seqno, info[prev.value].seqno) else seqno
  {
    var i := InitInfo(info, prev, fence, seqno, stale, newContext);
    var info' := info + [i];
    InitKeepsTimelines(info, prev, fence, seqno, stale, newContext);
    if prev.Some? {
      LookupTermsAreStable(info, info', prev.value, request);
    }
  }

  function Larger(a: nat, b: nat): (r: nat)
    ensures r >= a && r >= b && (r == a || r == b)
  {
    if a < b then b else a
  }

  /** Below a node the context either goes on with the same first node or never comes back. */
  lemma {:induction false} SkipWithinContext(info: seq<Info>, n: nat, c: Option<nat>, signaled: set<nat>)
    requires Timelines(info) && n < |info| && info[n].chain
    requires Skip(info, Some(n), c, signaled) && c.Some? && c.value < |info|
    requires info[c.value].context == info[n].context
    ensures info[c.value].chain && FirstOf(info, c.value) == FirstOf(info, n)
    ensures c.value != n ==> info[c.value].seqno < info[n].seqno
    ensures c.value != n && StartsContext(info, c.value) ==> FirstOf(info, n) == c.value
    ensures c.value != n && Target(info, n, info[n].seqno) == n ==> info[c.value].seqno < info[n].seqno
    decreases n
  {
    assert TimelineAt(info, n);
    if c != Some(n) {
      SkipGoesDown(info, info[n].orig, c, signaled);
      if !StartsContext(info, n) {
        SkipWithinContext(info, info[n].orig.value, c, signaled);
      }
    }
  }

  /** One walk step of the loop from a node it did not stop at. */
  lemma LookupSteps(info: seq<Info>, head: nat, request: nat, c: nat, next: Option<nat>, signaled: set<nat>)
    requires Timelines(info) && head < |info| && info[head].chain && info[head].seqno >= request
    requires c < |info| && LookupAt(info, head, request, Some(c), signaled)
    requires !StopsAt(info, head, request, c)
    requires Skip(info, info[c].orig, next, signaled)
    ensures LookupAt(info, head, request, next, signaled)
  {
    if AboveTarget(info, head, request, Some(c)) {
      assert TimelineAt(info, c);
      if !StartsContext(info, c) {
        SkipFromAbove(info, head, request, info[c].orig.value, next, signaled);
      }
    } else if Skip(info, Some(Target(info, head, request)), Some(c), signaled) {
      PassesOnlyTheFirst(info, head, request, c, signaled);
    } else {
      var f := FirstOf(info, head);
      assert TimelineAt(info, f);
      SkipGoesDown(info, info[f].orig, Some(c), signaled);
    }
  }

  /** At or below the target, the loop goes on only at the context's first node. */
  lemma PassesOnlyTheFirst(info: seq<Info>, head: nat, request: nat, c: nat, signaled: set<nat>)
    requires Timelines(info) && head < |info| && info[head].chain && c < |info|
    requires Skip(info, Some(Target(info, head, request)), Some(c), signaled)
    requires !StopsAt(info, head, request, c)
    ensures c == FirstOf(info, head)
  {
    var t := Target(info, head, request);
    TargetKeepsFirst(info, head, request);
    SkipWithinContext(info, t, Some(c), signaled);
    assert TimelineAt(info, t) && TimelineAt(info, c);
    if c != t {
      SkipGoesDown(info, info[t].orig, Some(c), signaled);
      if !StartsContext(info, t) {
        SkipWithinContext(info, info[t].orig.value, Some(c), signaled);
      }
    }
  }

  lemma {:induction false} TargetKeepsFirst(info: seq<Info>, n: nat, request: nat)
    requires Timelines(info) && n < |info| && info[n].chain
    ensures FirstOf(info, Target(info, n, request)) == FirstOf(info, n)
    ensures var t := Target(info, n, request);
            StartsContext(info, t) || info[info[t].orig.value].seqno < request
    decreases n
  {
    assert TimelineAt(info, n);
    if !StartsContext(info, n) && info[info[n].orig.value].seqno >= request {
      TargetKeepsFirst(info, info[n].orig.value, request);
    }
  }

  lemma {:induction false} SkipFromAbove(info: seq<Info>, head: nat, request: nat, n: nat, next: Option<nat>,
                                        signaled: set<nat>)
    requires Timelines(info) && head < |info| && AboveTarget(info, head, request, Some(n))
    requires Skip(info, Some(n), next, signaled)
    ensures AboveTarget(info, head, request, next) || Skip(info, Some(Target(info, head, request)), next, signaled)
    decreases n
  {
    assert TimelineAt(info, n);
    if next != Some(n) && Target(info, n, request) != n {
      SkipFromAbove(info, head, request, info[n].orig.value, next, signaled);
    }
  }

  /** What the loop's result means: the unsignaled fences from the oldest node that is late
      enough, exactly, unless the stale prev_seqno of the context's first node reaches the
      request while that node's fence is unsignaled. Then it may be that the fences wanted are
      those from the first node on, and what is found are those below it. */
  lemma LookupMeansTarget(info: seq<Info>, head: nat, request: nat, c: Option<nat>, signaled: set<nat>)
    requires Timelines(info) && head < |info| && info[head].chain && info[head].seqno >= request
    requires LookupDone(info, head, request, c, signaled)
    ensures Valid(info, c)
    ensures var t, f := Target(info, head, request), FirstOf(info, head);
            && (info[f].prevSeqno < request || info[f].fence in signaled ==>
                  Unsignaled(info, c, signaled) == Unsignaled(info, Some(t), signaled))
            && (t == f && !(info[f].prevSeqno < request || info[f].fence in signaled) ==>
                  info[f].fence in Unsignaled(info, Some(t), signaled)
                  && Unsignaled(info, c, signaled) == Unsignaled(info, info[f].orig, signaled))
            && (Unsignaled(info, c, signaled) == Unsignaled(info, Some(t), signaled)
                || (&& info[f].prevSeqno >= request && info[f].fence !in signaled
                    && Unsignaled(info, Some(t), signaled) == Unsignaled(info, Some(f), signaled)
                    && Unsignaled(info, c, signaled) == Unsignaled(info, info[f].orig, signaled)))
            && (info[t].fence !in signaled && !(t == f && info[f].prevSeqno >= request) ==> c == Some(t))
  {
    var t, f := Target(info, head, request), FirstOf(info, head);
    TargetKeepsFirst(info, head, request);
    if AboveTarget(info, head, request, c) {
      assert TimelineAt(info, c.value);
      TargetKeepsFirst(info, c.value, request);
    } else if Skip(info, Some(t), c, signaled) {
      SkipKeepsUnsignaled(info, Some(t), c, signaled);
    } else {
      SkipKeepsUnsignaled(info, info[f].orig, c, signaled);
      SkipKeepsUnsignaled(info, Some(t), Some(f), signaled);
    }
  }
}
