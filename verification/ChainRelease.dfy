/** Release of a chain without recursion along it (dma-fence-chain.c, dma_fence_chain_release),
    against the recursive release it stands for. */
module ChainRelease {
  import opened Fences
  import opened Lists

  /** The pointers of a fence: a chain points to the one before it and to its contained fence. */
  datatype Link = Link(chain: bool, prev: Option<nat>, fence: nat)

  ghost predicate LinksOk(links: seq<Link>) {
    forall n :: 0 <= n < |links| && links[n].chain ==>
      links[n].fence < |links| && (links[n].prev.Some? ==> links[n].prev.value < |links|)
  }

  /** No chain contains a chain. */
  ghost predicate Flat(links: seq<Link>) {
    forall n :: 0 <= n < |links| && links[n].chain && links[n].fence < |links| ==> !links[links[n].fence].chain
  }

  function Opt(a: Option<nat>): (r: seq<nat>) {
    if a.None? then [] else [a.value]
  }

  function Children(links: seq<Link>, x: nat): (r: seq<nat>)
    requires x < |links|
  {
    if links[x].chain then Opt(links[x].prev) + [links[x].fence] else []
  }

  function Dec(rc: seq<nat>, x: nat): (r: seq<nat>)
    ensures |r| == |rc|
  {
    if x >= |rc| || rc[x] == 0 then rc else rc[x := rc[x] - 1]
  }

  lemma DecDrops(rc: seq<nat>, x: nat)
    ensures Sum(Dec(rc, x)) <= Sum(rc)
    ensures x < |rc| && rc[x] > 0 ==> Sum(Dec(rc, x)) < Sum(rc)
  {
    SumDrops(rc, Dec(rc, x));
    assert x < |rc| && rc[x] > 0 ==> Dec(rc, x)[x] != rc[x];
  }

  /** What the put of x makes the naive release put next. */
  function Pushed(links: seq<Link>, rc: seq<nat>, x: nat): (r: seq<nat>)
    requires |rc| == |links|
  {
    if x < |rc| && rc[x] == 1 then Children(links, x) else []
  }

  /** The naive release: put each fence of work in turn; a fence whose count reaches zero puts
      what it points to, at once and recursively. The result is the counts that are left; the
      fences whose count is gone have been freed. */
  function Drain(links: seq<Link>, rc: seq<nat>, work: seq<nat>): (r: seq<nat>)
    requires |rc| == |links|
    ensures |r| == |rc| && forall x :: 0 <= x < |rc| ==> r[x] <= rc[x]
    decreases Sum(rc), |work|
  {
    if work == [] then rc
    else DecDrops(rc, work[0]); Drain(links, Dec(rc, work[0]), Pushed(links, rc, work[0]) + work[1..])
  }

  lemma DrainStep(links: seq<Link>, rc: seq<nat>, x: nat, work: seq<nat>)
    requires |rc| == |links|
    ensures Drain(links, rc, [x] + work) == Drain(links, Dec(rc, x), Pushed(links, rc, x) + work)
  {
    assert ([x] + work)[1..] == work;
  }

  // ----------------------------------------------- the order of the puts

  lemma Regroup(a: seq<nat>, b: seq<nat>, c: seq<nat>, d: seq<nat>)
    ensures a + b + c + d == a + (b + c + d) == a + (b + (c + d)) == a + (b + c) + d
    ensures a == [] ==> a + b + c + d == b + (c + d)
  {
  }

  /** A put can be moved to the front. */
  lemma {:induction false} MoveToFront(links: seq<Link>, rc: seq<nat>, u: seq<nat>, b: nat, v: seq<nat>)
    requires |rc| == |links|
    ensures Drain(links, rc, u + [b] + v) == Drain(links, rc, [b] + u + v)
    decreases Sum(rc), 0, |u|
  {
    if u == [] {
      assert u + [b] + v == [b] + u + v;
    } else {
      var a, u' := u[0], u[1..];
      assert u + [b] + v == [a] + (u' + [b] + v) && [b] + u + v == [b] + ([a] + (u' + v));
      DrainStep(links, rc, a, u' + [b] + v);
      DrainStep(links, rc, b, [a] + (u' + v));
      if a == b {
        SameTwice(links, rc, a, u', v);
      } else {
        PassOver(links, rc, a, b, u', v);
        PassOverHead(links, rc, b, a, u' + v);
        Diamond(links, rc, a, b, u' + v);
      }
    }
  }

  lemma {:induction false} SameTwice(links: seq<Link>, rc: seq<nat>, a: nat, u: seq<nat>, v: seq<nat>)
    requires |rc| == |links|
    ensures Drain(links, Dec(rc, a), Pushed(links, rc, a) + (u + [a] + v))
         == Drain(links, Dec(rc, a), Pushed(links, rc, a) + ([a] + (u + v)))
    decreases Sum(rc), 0, |u| + 1, 0
  {
    var p, rc' := Pushed(links, rc, a), Dec(rc, a);
    DecDrops(rc, a);
    assert p + (u + [a] + v) == (p + u) + [a] + v && p + ([a] + (u + v)) == p + [a] + (u + v);
    assert [a] + (p + u) + v == [a] + p + (u + v);
    MoveToFront(links, rc', p + u, a, v);
    if p != [] {
      MoveToFront(links, rc', p, a, u + v);
    } else {
      assert p + [a] + (u + v) == [a] + p + (u + v);
    }
  }

  /** Two different puts, one after the other in either order, meet again. */
  lemma {:induction false} Diamond(links: seq<Link>, rc: seq<nat>, a: nat, b: nat, w: seq<nat>)
    requires |rc| == |links| && a != b
    ensures Drain(links, Dec(Dec(rc, a), b), Pushed(links, rc, b) + (Pushed(links, rc, a) + w))
         == Drain(links, Dec(Dec(rc, b), a), Pushed(links, rc, a) + (Pushed(links, rc, b) + w))
    decreases Sum(rc), 0, 0
  {
    var pa, pb := Pushed(links, rc, a), Pushed(links, rc, b);
    DecCommutes(rc, a, b);
    if pa == [] {
      assert pb + (pa + w) == pb + w == pa + (pb + w);
    } else if pb == [] {
      assert pb + (pa + w) == pa + w == pa + (pb + w);
    } else {
      TwoDecsDrop(rc, a, b);
      SwapFirst(links, Dec(Dec(rc, a), b), pb, pa, w);
    }
  }

  lemma DecCommutes(rc: seq<nat>, a: nat, b: nat)
    ensures Dec(Dec(rc, a), b) == Dec(Dec(rc, b), a)
  {
  }

  lemma TwoDecsDrop(rc: seq<nat>, a: nat, b: nat)
    ensures a < |rc| && rc[a] > 0 ==> Sum(Dec(Dec(rc, a), b)) < Sum(rc)
  {
    DecDrops(rc, a);
    DecDrops(Dec(rc, a), b);
  }

  lemma {:induction false} SwapFirst(links: seq<Link>, rc: seq<nat>, p: seq<nat>, q: seq<nat>, w: seq<nat>)
    requires |rc| == |links|
    ensures Drain(links, rc, p + (q + w)) == Drain(links, rc, q + (p + w))
    decreases Sum(rc), 2
  {
    SwapBlocks(links, rc, [], p, q, w);
    Regroup([], p, q, w);
    Regroup([], q, p, w);
  }

  /** After the put of a, the put of b further back can come next. */
  lemma {:induction false} PassOver(links: seq<Link>, rc: seq<nat>, a: nat, b: nat, u: seq<nat>, v: seq<nat>)
    requires |rc| == |links| && a != b
    ensures Drain(links, Dec(rc, a), Pushed(links, rc, a) + (u + [b] + v))
         == Drain(links, Dec(Dec(rc, a), b), Pushed(links, rc, b) + (Pushed(links, rc, a) + (u + v)))
    decreases Sum(rc), 0, |u| + 1, 0
  {
    var p, r := Pushed(links, rc, a), Dec(rc, a);
    DecDrops(rc, a);
    MoveToFront(links, r, p + u, b, v);
    Regroup(p, u, [b], v);
    Regroup([b], p, u, v);
    DrainStep(links, r, b, p + (u + v));
  }

  /** The same where b stands first behind what a pushed. */
  lemma {:induction false} PassOverHead(links: seq<Link>, rc: seq<nat>, a: nat, b: nat, w: seq<nat>)
    requires |rc| == |links| && a != b
    ensures Drain(links, Dec(rc, a), Pushed(links, rc, a) + ([b] + w))
         == Drain(links, Dec(Dec(rc, a), b), Pushed(links, rc, b) + (Pushed(links, rc, a) + w))
    decreases Sum(rc), 0, 1, 0
  {
    var p, r := Pushed(links, rc, a), Dec(rc, a);
    DecDrops(rc, a);
    if p != [] {
      MoveToFront(links, r, p, b, w);
      assert p + ([b] + w) == p + [b] + w && [b] + p + w == [b] + (p + w);
    } else {
      assert p + ([b] + w) == [b] + (p + w);
    }
    DrainStep(links, r, b, p + w);
  }

  lemma {:induction false} SwapBlocks(links: seq<Link>, rc: seq<nat>, z: seq<nat>, p: seq<nat>, q: seq<nat>,
                                      w: seq<nat>)
    requires |rc| == |links|
    ensures Drain(links, rc, z + p + q + w) == Drain(links, rc, z + q + p + w)
    decreases Sum(rc), 1, |q|
  {
    if q == [] {
      assert z + p + q + w == z + q + p + w;
    } else {
      var h, q' := q[0], q[1..];
      assert q == [h] + q';
      assert z + p + q + w == (z + p) + [h] + (q' + w) && [h] + (z + p) + (q' + w) == ([h] + z) + p + q' + w;
      assert z + q + p + w == z + [h] + (q' + p + w) && [h] + z + (q' + p + w) == ([h] + z) + q' + p + w;
      MoveToFront(links, rc, z + p, h, q' + w);
      MoveToFront(links, rc, z, h, q' + p + w);
      SwapBlocks(links, rc, [h] + z, p, q', w);
    }
  }

  lemma DrainHead(links: seq<Link>, rc: seq<nat>, u: seq<nat>, v: seq<nat>)
    requires |rc| == |links| && u != []
    ensures Drain(links, rc, u + v) == Drain(links, Dec(rc, u[0]), Pushed(links, rc, u[0]) + u[1..] + v)
  {
    var p := Pushed(links, rc, u[0]);
    assert u + v == [u[0]] + (u[1..] + v) && p + (u[1..] + v) == p + u[1..] + v;
    DrainStep(links, rc, u[0], u[1..] + v);
  }

  /** Work can be done in two portions. */
  lemma {:induction false} DrainAppend(links: seq<Link>, rc: seq<nat>, u: seq<nat>, v: seq<nat>)
    requires |rc| == |links|
    ensures Drain(links, rc, u + v) == Drain(links, Drain(links, rc, u), v)
    decreases Sum(rc), |u|
  {
    if u == [] {
      assert u + v == v;
    } else {
      var u' := Pushed(links, rc, u[0]) + u[1..];
      DecDrops(rc, u[0]);
      DrainHead(links, rc, u, v);
      DrainAppend(links, Dec(rc, u[0]), u', v);
      assert Drain(links, rc, u) == Drain(links, Dec(rc, u[0]), u');
    }
  }

  /** The pointers of fences that are gone already make no difference. */
  lemma {:induction false} DrainIgnoresDead(links: seq<Link>, links': seq<Link>, rc: seq<nat>, work: seq<nat>)
    requires |rc| == |links| == |links'|
    requires forall n :: 0 <= n < |links| && rc[n] > 0 ==> links'[n] == links[n]
    ensures Drain(links, rc, work) == Drain(links', rc, work)
    decreases Sum(rc), |work|
  {
    if work != [] {
      DecDrops(rc, work[0]);
      DrainIgnoresDead(links, links', Dec(rc, work[0]), Pushed(links, rc, work[0]) + work[1..]);
    }
  }

  // ------------------------------------------------- references are backed

  function Uses(link: Link, x: nat): (r: nat) {
    if link.chain then Is(link.prev, x) + Is(Some(link.fence), x) else 0
  }

  /** The pointers to x in the first k fences that are still there. */
  function Refs(links: seq<Link>, rc: seq<nat>, k: nat, x: nat): (r: nat)
    requires k <= |links| == |rc|
  {
    if k == 0 then 0
    else (if rc[k - 1] > 0 then Uses(links[k - 1], x) else 0) + Refs(links, rc, k - 1, x)
  }

  /** Each count covers the pointers to the fence and the references still to be put. */
  ghost predicate Backed(links: seq<Link>, rc: seq<nat>, out: multiset<nat>) {
    && |links| == |rc|
    && forall x :: 0 <= x < |rc| ==> Refs(links, rc, |rc|, x) + out[x] <= rc[x]
  }

  lemma {:induction false} RefsChange(links: seq<Link>, rc: seq<nat>, links': seq<Link>, rc': seq<nat>, k: nat, y: nat,
                                      x: nat)
    requires k <= |links| == |rc| == |links'| == |rc'| && y < |rc|
    requires forall n :: 0 <= n < |rc| && n != y ==> links'[n] == links[n] && (rc'[n] > 0 <==> rc[n] > 0)
    ensures Refs(links', rc', k, x) + (if y < k && rc[y] > 0 then Uses(links[y], x) else 0)
         == Refs(links, rc, k, x) + (if y < k && rc'[y] > 0 then Uses(links'[y], x) else 0)
  {
    if k > 0 {
      RefsChange(links, rc, links', rc', k - 1, y, x);
    }
  }

  function Bag(xs: seq<nat>): (r: multiset<nat>) {
    multiset(xs)
  }

  /** Putting x hands on what x pointed to if that was its last reference. */
  lemma DecKeepsBacked(links: seq<Link>, rc: seq<nat>, x: nat, others: multiset<nat>)
    requires Backed(links, rc, others + Bag([x])) && x < |rc|
    ensures rc[x] > 0 && Backed(links, Dec(rc, x), others + Bag(Pushed(links, rc, x)))
  {
    assert (others + Bag([x]))[x] > 0;
    forall y | 0 <= y < |rc|
      ensures Refs(links, Dec(rc, x), |rc|, y) + (others + Bag(Pushed(links, rc, x)))[y] <= Dec(rc, x)[y]
    {
      RefsChange(links, rc, links, Dec(rc, x), |rc|, x, y);
      assert (others + Bag([x]))[y] == others[y] + (if y == x then 1 else 0);
      if rc[x] == 1 && links[x].chain {
        assert Bag(Pushed(links, rc, x))[y] == Uses(links[x], y);
      }
    }
  }

  function Splice(links: seq<Link>, n: nat, p: nat): (r: seq<Link>)
    requires n < |links| && p < |links|
  {
    links[n := links[n].(prev := links[p].prev)][p := links[p].(prev := None)]
  }

  lemma SpliceKeepsBacked(links: seq<Link>, rc: seq<nat>, n: nat, p: nat, others: multiset<nat>)
    requires n < |links| && p < |links| && n != p && |rc| == |links| && rc[n] == 0
    requires links[p].chain && rc[p] == 1
    requires Backed(links, rc, others + Bag([p]))
    ensures Backed(Splice(links, n, p), rc, others + Bag(Opt(links[p].prev)) + Bag([p]))
  {
    var half := links[n := links[n].(prev := links[p].prev)];
    forall y | 0 <= y < |rc|
      ensures Refs(Splice(links, n, p), rc, |rc|, y) + (others + Bag(Opt(links[p].prev)) + Bag([p]))[y] <= rc[y]
    {
      RefsChange(links, rc, half, rc, |rc|, n, y);
      RefsChange(half, rc, Splice(links, n, p), rc, |rc|, p, y);
      assert Bag(Opt(links[p].prev))[y] == Is(links[p].prev, y);
    }
  }

  // -------------------------------------------------------- what is freed

  /** What a put or a release makes of fence m. Its chain flag and contained fence stay. Its prev
      pointer changes only if it has gone in between or is the one being released. It has been
      freed once more than before if its count went to zero, and once if it is own. */
  ghost predicate ChangedAt(l: seq<Link>, r: seq<nat>, g: multiset<nat>, l': seq<Link>, r': seq<nat>, g': multiset<nat>,
                            releasing: Option<nat>, own: Option<nat>, m: nat)
    requires m < |l| == |r| == |l'| == |r'|
  {
    && l'[m].chain == l[m].chain && l'[m].fence == l[m].fence
    && (releasing != Some(m) && (r'[m] > 0 || r[m] == 0) ==> l'[m].prev == l[m].prev)
    && r'[m] <= r[m]
    && g'[m] == g[m] + (if r[m] > 0 && r'[m] == 0 then 1 else 0) + Is(own, m)
  }

  ghost predicate Changed(l: seq<Link>, r: seq<nat>, g: multiset<nat>, l': seq<Link>, r': seq<nat>, g': multiset<nat>,
                          releasing: Option<nat>, own: Option<nat>)
  {
    && |l| == |r| == |l'| == |r'|
    && forall m :: 0 <= m < |l| ==> ChangedAt(l, r, g, l', r', g', releasing, own, m)
  }

  /** The last put of a fence and, if it is a chain, its release. */
  lemma LastPutChanged(l: seq<Link>, r: seq<nat>, g: multiset<nat>, n: nat, l': seq<Link>, r': seq<nat>,
                       g': multiset<nat>)
    requires |r| == |l| && n < |r| && r[n] == 1 && Changed(l, Dec(r, n), g, l', r', g', Some(n), Some(n))
    ensures Changed(l, r, g, l', r', g', None, None)
  {
    forall m | 0 <= m < |l|
      ensures ChangedAt(l, r, g, l', r', g', None, None, m)
    {
      assert ChangedAt(l, Dec(r, n), g, l', r', g', Some(n), Some(n), m);
    }
  }

  lemma PlainPutChanged(l: seq<Link>, r: seq<nat>, g: multiset<nat>, n: nat)
    requires |r| == |l| && n < |r| && r[n] > 0
    ensures Changed(l, r, g, l, Dec(r, n), if r[n] == 1 then g + multiset{n} else g, None, None)
  {
    var g' := if r[n] == 1 then g + multiset{n} else g;
    forall m | 0 <= m < |l|
      ensures ChangedAt(l, r, g, l, Dec(r, n), g', None, None, m)
    {
    }
  }

  lemma AddOwn(l: seq<Link>, r: seq<nat>, g: multiset<nat>, l': seq<Link>, r': seq<nat>, g': multiset<nat>, n: nat)
    requires Changed(l, r, g, l', r', g', None, None)
    ensures Changed(l, r, g, l', r', g' + multiset{n}, Some(n), Some(n))
  {
    forall m | 0 <= m < |l|
      ensures ChangedAt(l, r, g, l', r', g' + multiset{n}, Some(n), Some(n), m)
    {
      assert ChangedAt(l, r, g, l', r', g', None, None, m);
    }
  }

  lemma ChangedInTurn(l0: seq<Link>, r0: seq<nat>, g0: multiset<nat>, l1: seq<Link>, r1: seq<nat>, g1: multiset<nat>,
                      l2: seq<Link>, r2: seq<nat>, g2: multiset<nat>, releasing: Option<nat>, own: Option<nat>)
    requires Changed(l0, r0, g0, l1, r1, g1, releasing, None) && Changed(l1, r1, g1, l2, r2, g2, releasing, own)
    ensures Changed(l0, r0, g0, l2, r2, g2, releasing, own)
  {
    forall m | 0 <= m < |l0|
      ensures ChangedAt(l0, r0, g0, l2, r2, g2, releasing, own, m)
    {
      assert ChangedAt(l0, r0, g0, l1, r1, g1, releasing, None, m)
          && ChangedAt(l1, r1, g1, l2, r2, g2, releasing, own, m);
    }
  }

  /** The naive release of a node that holds the only reference to the chain below it may first
      put what that chain contains. */
  lemma NaiveUnlink(links: seq<Link>, rc: seq<nat>, n: nat, p: nat)
    requires |rc| == |links| && n < |links| && p < |links|
    requires links[n].chain && links[n].prev == Some(p) && links[p].chain && rc[p] == 1
    ensures Drain(links, rc, Children(links, n))
         == Drain(links, Drain(links, Dec(rc, p), [links[p].fence]), Opt(links[p].prev) + [links[n].fence])
  {
    var q, f, fp, r := Opt(links[p].prev), links[n].fence, links[p].fence, Dec(rc, p);
    assert Children(links, n) == [p] + [f];
    DrainStep(links, rc, p, [f]);
    assert Pushed(links, rc, p) + [f] == q + [fp] + [f];
    MoveToFront(links, r, q, fp, [f]);
    assert [fp] + q + [f] == [fp] + (q + [f]);
    DrainAppend(links, r, [fp], q + [f]);
  }

  /** Put after the splice, it finds nothing below it. */
  lemma SplicedPut(links: seq<Link>, rc: seq<nat>, n: nat, p: nat)
    requires |rc| == |links| && n < |links| && p < |links| && n != p
    requires rc[n] == 0 && links[p].chain && rc[p] == 1
    ensures Drain(Splice(links, n, p), rc, [p]) == Drain(links, Dec(rc, p), [links[p].fence])
  {
    var spliced := Splice(links, n, p);
    assert [p] == [p] + [];
    DrainStep(spliced, rc, p, []);
    assert Pushed(spliced, rc, p) + [] == [links[p].fence];
    DrainIgnoresDead(links, spliced, Dec(rc, p), [links[p].fence]);
  }

  /** The loop's turn, in terms of the naive release. */
  lemma UnlinkDrains(links: seq<Link>, rc: seq<nat>, n: nat, p: nat, links': seq<Link>, rc': seq<nat>)
    requires |rc| == |links| && n < |links| && p < |links| && n != p
    requires links[n].chain && links[n].prev == Some(p) && rc[n] == 0 && links[p].chain && rc[p] == 1
    requires rc' == Drain(Splice(links, n, p), rc, [p])
    requires exists g, g' :: Changed(Splice(links, n, p), rc, g, links', rc', g', None, None)
    ensures Drain(links, rc, Children(links, n)) == Drain(links', rc', Children(links', n))
  {
    var g, g' :| Changed(Splice(links, n, p), rc, g, links', rc', g', None, None);
    forall m | 0 <= m < |links| && rc'[m] > 0
      ensures links'[m] == links[m]
    {
      PutLeavesNone(Splice(links, n, p), rc, p);
      assert ChangedAt(Splice(links, n, p), rc, g, links', rc', g', None, None, m);
    }
    assert ChangedAt(Splice(links, n, p), rc, g, links', rc', g', None, None, n);
    NaiveUnlink(links, rc, n, p);
    SplicedPut(links, rc, n, p);
    PutLeavesNone(Splice(links, n, p), rc, p);
    assert links'[n] == Splice(links, n, p)[n];
    DrainIgnoresDead(links, links', rc', Opt(links[p].prev) + [links[n].fence]);
  }

  lemma PutLeavesNone(links: seq<Link>, rc: seq<nat>, p: nat)
    requires |rc| == |links| && p < |rc| && rc[p] == 1
    ensures Drain(links, rc, [p])[p] == 0
  {
    assert [p] == [p] + [];
    DrainStep(links, rc, p, []);
  }

  lemma PutDrops(links: seq<Link>, rc: seq<nat>, p: nat)
    requires |rc| == |links| && p < |rc| && rc[p] > 0
    ensures Sum(Drain(links, rc, [p])) < Sum(rc)
  {
    DecDrops(rc, p);
    SumDrops(Dec(rc, p), Drain(links, Dec(rc, p), Pushed(links, rc, p) + []));
    assert [p] == [p] + [];
    DrainStep(links, rc, p, []);
  }

  /** The two puts after the loop, in terms of the naive release. */
  lemma LastPutsDrain(l1: seq<Link>, r1: seq<nat>, l2: seq<Link>, r2: seq<nat>, r3: seq<nat>, n: nat)
    requires |r1| == |l1| == |l2| && n < |l1| && l1[n].chain
    requires r2 == Drain(l1, r1, Opt(l1[n].prev)) && r3 == Drain(l2, r2, [l1[n].fence])
    requires exists g, g' :: Changed(l1, r1, g, l2, r2, g', None, None)
    ensures r3 == Drain(l1, r1, Children(l1, n))
  {
    var g, g' :| Changed(l1, r1, g, l2, r2, g', None, None);
    forall m | 0 <= m < |l1| && r2[m] > 0
      ensures l2[m] == l1[m]
    {
      assert ChangedAt(l1, r1, g, l2, r2, g', None, None, m);
    }
    DrainAppend(l1, r1, Opt(l1[n].prev), [l1[n].fence]);
    DrainIgnoresDead(l1, l2, r2, [l1[n].fence]);
  }

  /** A node below that is not shared has exactly one reference; it goes with the pointer. */
  lemma BeforeUnlink(links: seq<Link>, rc: seq<nat>, n: nat, p: nat, others: multiset<nat>)
    requires LinksOk(links) && n < |links| && p < |links| && |rc| == |links|
    requires rc[n] == 0 && links[n].chain && links[n].prev == Some(p) && rc[p] <= 1 && links[p].chain
    requires Backed(links, rc, others + Bag(Children(links, n)))
    ensures rc[p] == 1 && n != p && LinksOk(Splice(links, n, p)) && (Flat(links) ==> Flat(Splice(links, n, p)))
    ensures Backed(Splice(links, n, p), rc, others + Bag(Children(Splice(links, n, p), n)) + Bag([p]))
  {
    var f, q := Bag([links[n].fence]), Bag(Opt(links[p].prev));
    assert others + Bag(Children(links, n)) == (others + f) + Bag([p]);
    assert ((others + f) + Bag([p]))[p] > 0;
    SpliceKeepsBacked(links, rc, n, p, others + f);
    assert Bag(Children(Splice(links, n, p), n)) == q + f;
    assert others + (q + f) + Bag([p]) == (others + f) + q + Bag([p]);
  }

  lemma SpliceChanged(links: seq<Link>, rc: seq<nat>, freed: multiset<nat>, n: nat, p: nat,
                      links': seq<Link>, rc': seq<nat>, freed': multiset<nat>)
    requires |rc'| == |rc| == |links| && n < |links| && p < |links| && rc'[p] == 0 && rc[p] == 1
    requires Changed(Splice(links, n, p), rc, freed, links', rc', freed', None, None)
    ensures Changed(links, rc, freed, links', rc', freed', Some(n), None)
  {
    forall m | 0 <= m < |links|
      ensures ChangedAt(links, rc, freed, links', rc', freed', Some(n), None, m)
    {
      assert ChangedAt(Splice(links, n, p), rc, freed, links', rc', freed', None, None, m);
    }
  }

  lemma AfterUnlink(links: seq<Link>, rc: seq<nat>, freed: multiset<nat>, n: nat, p: nat,
                    links': seq<Link>, rc': seq<nat>, freed': multiset<nat>)
    requires |rc| == |links| && n < |links| && p < |links| && n != p
    requires links[n].chain && links[n].prev == Some(p) && rc[n] == 0 && links[p].chain && rc[p] == 1
    requires Changed(Splice(links, n, p), rc, freed, links', rc', freed', None, None)
    requires rc' == Drain(Splice(links, n, p), rc, [p])
    ensures Changed(links, rc, freed, links', rc', freed', Some(n), None)
    ensures Drain(links', rc', Children(links', n)) == Drain(links, rc, Children(links, n))
    ensures Sum(rc') < Sum(rc) && rc'[n] == 0
    ensures links'[n].chain && Children(links', n) == Children(Splice(links, n, p), n)
  {
    PutLeavesNone(Splice(links, n, p), rc, p);
    PutDrops(Splice(links, n, p), rc, p);
    SpliceChanged(links, rc, freed, n, p, links', rc', freed');
    UnlinkDrains(links, rc, n, p, links', rc');
    assert ChangedAt(Splice(links, n, p), rc, freed, links', rc', freed', None, None, n);
    assert links'[n] == Splice(links, n, p)[n];
  }

  lemma BeforeRest(links: seq<Link>, rc: seq<nat>, n: nat, others: multiset<nat>)
    requires n < |links| == |rc| && links[n].chain
    requires Backed(links, rc, others + Bag(Children(links, n)))
    ensures Backed(links, rc, (others + Bag([links[n].fence])) + Bag(Opt(links[n].prev)))
  {
    assert others + Bag(Children(links, n)) == (others + Bag([links[n].fence])) + Bag(Opt(links[n].prev));
  }

  lemma DrainOne(links: seq<Link>, rc: seq<nat>, n: nat)
    requires |rc| == |links|
    ensures Drain(links, rc, [n]) == Drain(links, Dec(rc, n), Pushed(links, rc, n))
  {
    assert [n] == [n] + [] && Pushed(links, rc, n) + [] == Pushed(links, rc, n);
    DrainStep(links, rc, n, []);
  }

  class Heap {
    var links: seq<Link>
    var rc: seq<nat>
    var freed: multiset<nat>
    ghost const flat: bool

    constructor (links: seq<Link>, rc: seq<nat>)
      ensures this.links == links && this.rc == rc && freed == multiset{} && flat == Flat(links)
    {
      this.links, this.rc, freed := links, rc, multiset{};
      flat := Flat(links);
    }

    ghost predicate Ok(out: multiset<nat>)
      reads this
    {
      LinksOk(links) && |rc| == |links| && (flat ==> Flat(links)) && Backed(links, rc, out)
    }

    /** dma_fence_put with the release it may cause. others are the references that callers
        still hold or have still to put. The counts end as the naive release leaves them, every
        fence whose count went to zero is freed once, and releases nest at most three deep
        when no chain contains a chain. */
    method Put(x: Option<nat>, ghost others: multiset<nat>) returns (ghost depth: nat)
      requires Ok(others + Bag(Opt(x))) && (x.Some? ==> x.value < |rc|)
      modifies this
      ensures Ok(others)
      ensures Changed(old(links), old(rc), old(freed), links, rc, freed, None, None)
      ensures rc == Drain(old(links), old(rc), Opt(x))
      ensures x.None? || old(rc[x.value]) > 1 ==> depth == 0
      ensures x.Some? && !old(links[x.value]).chain ==> depth <= 1
      ensures x.Some? && old(links[x.value]).prev.None? && flat ==> depth <= 2
      ensures flat ==> depth <= 3
      decreases Sum(rc), 1
    {
      if x.None? {
        assert others + Bag(Opt(x)) == others;
        depth := 0;
      } else {
        depth := PutOne(x.value, others);
      }
    }

    method PutOne(n: nat, ghost others: multiset<nat>) returns (ghost depth: nat)
      requires Ok(others + Bag([n])) && n < |rc|
      modifies this
      ensures Ok(others)
      ensures Changed(old(links), old(rc), old(freed), links, rc, freed, None, None)
      ensures rc == Drain(old(links), old(rc), [n])
      ensures old(rc[n]) > 1 ==> depth == 0
      ensures !old(links[n]).chain ==> depth <= 1
      ensures old(links[n]).prev.None? && flat ==> depth <= 2
      ensures flat ==> depth <= 3
      decreases Sum(rc), 0
    {
      DecKeepsBacked(links, rc, n, others);
      DecDrops(rc, n);
      DrainOne(links, rc, n);
      ghost var rc0 := rc;
      rc := rc[n := rc[n] - 1];
      assert rc == Dec(rc0, n);
      depth := 0;
      if rc[n] == 0 && links[n].chain {
        var nested := Release(n, others);
        depth := nested + 1;
        LastPutChanged(old(links), rc0, old(freed), n, links, rc, freed);
      } else {
        assert others + Bag(Pushed(links, rc0, n)) == others;
        PlainPutChanged(links, rc0, freed, n);
        if rc[n] == 0 {
          freed := freed + multiset{n};
          depth := 1;
        }
      }
    }

    /** dma_fence_chain_release: nodes below that nobody else holds are unlinked and put one at
        a time, so that each of them finds nothing below it. */
    method Release(n: nat, ghost others: multiset<nat>) returns (ghost depth: nat)
      requires n < |links| == |rc| && links[n].chain && rc[n] == 0
      requires Ok(others + Bag(Children(links, n)))
      modifies this
      ensures Ok(others)
      ensures Changed(old(links), old(rc), old(freed), links, rc, freed, Some(n), Some(n))
      ensures rc == Drain(old(links), old(rc), Children(old(links), n))
      ensures flat ==> depth <= (if old(links[n]).prev.None? then 1 else 2)
      decreases Sum(rc), 3
    {
      depth := 0;
      ghost var links0, rc0, freed0 := links, rc, freed;
      ghost var end := Drain(links, rc, Children(links, n));
      while links[n].prev.Some? && rc[links[n].prev.value] <= 1 && links[links[n].prev.value].chain
        invariant n < |links| == |rc| && links[n].chain && rc[n] == 0
        invariant Ok(others + Bag(Children(links, n)))
        invariant Changed(links0, rc0, freed0, links, rc, freed, Some(n), None)
        invariant Drain(links, rc, Children(links, n)) == end
        invariant flat ==> depth <= (if links0[n].prev.None? then 0 else 2)
        invariant links0[n].prev.None? ==> links[n].prev.None?
        invariant Sum(rc) <= Sum(rc0)
        decreases Sum(rc)
      {
        ghost var links1, rc1, freed1 := links, rc, freed;
        var nested := Unlink(n, others);
        ChangedInTurn(links0, rc0, freed0, links1, rc1, freed1, links, rc, freed, Some(n), None);
        depth := if nested > depth then nested else depth;
      }
      ghost var links1, rc1, freed1 := links, rc, freed;
      var last := PutRest(n, others);
      ChangedInTurn(links0, rc0, freed0, links1, rc1, freed1, links, rc, freed, Some(n), Some(n));
      depth := if last > depth then last else depth;
    }

    /** One turn of the loop: take the node below out of the list and put it. */
    method Unlink(n: nat, ghost others: multiset<nat>) returns (ghost depth: nat)
      requires n < |links| == |rc| && links[n].chain && rc[n] == 0
      requires links[n].prev.Some? && links[n].prev.value < |rc| && rc[links[n].prev.value] <= 1
      requires links[links[n].prev.value].chain
      requires Ok(others + Bag(Children(links, n)))
      modifies this
      ensures n < |links| == |rc| && links[n].chain && rc[n] == 0
      ensures Ok(others + Bag(Children(links, n)))
      ensures Changed(old(links), old(rc), old(freed), links, rc, freed, Some(n), None)
      ensures Drain(links, rc, Children(links, n)) == Drain(old(links), old(rc), Children(old(links), n))
      ensures Sum(rc) < old(Sum(rc))
      ensures flat ==> depth <= 2
      decreases Sum(rc), 2
    {
      var p := links[n].prev.value;
      ghost var links0, rc0 := links, rc;
      BeforeUnlink(links, rc, n, p, others);
      links := Splice(links, n, p);
      ghost var out := others + Bag(Children(links, n));
      depth := PutOne(p, out);
      AfterUnlink(links0, rc0, old(freed), n, p, links, rc, freed);
    }

    /** The puts after the loop, and the fence itself. */
    method PutRest(n: nat, ghost others: multiset<nat>) returns (ghost depth: nat)
      requires n < |links| == |rc| && links[n].chain && rc[n] == 0
      requires Ok(others + Bag(Children(links, n)))
      requires !(links[n].prev.Some? && links[n].prev.value < |rc| && rc[links[n].prev.value] <= 1
              && links[links[n].prev.value].chain)
      modifies this
      ensures Ok(others)
      ensures Changed(old(links), old(rc), old(freed), links, rc, freed, Some(n), Some(n))
      ensures rc == Drain(old(links), old(rc), Children(old(links), n))
      ensures flat ==> depth <= 1
      decreases Sum(rc), 2
    {
      ghost var links1, rc1, freed1 := links, rc, freed;
      var fence := links[n].fence;
      BeforeRest(links, rc, n, others);
      var d1 := Put(links[n].prev, others + Bag([fence]));
      ghost var links2, rc2, freed2 := links, rc, freed;
      SumDrops(rc1, rc);
      assert ChangedAt(links1, rc1, freed1, links2, rc2, freed2, None, None, fence);
      assert ChangedAt(links1, rc1, freed1, links2, rc2, freed2, None, None, n);
      assert flat ==> !links2[fence].chain;
      var d2 := PutOne(fence, others);
      LastPutsDrain(links1, rc1, links2, rc2, rc, n);
      ChangedInTurn(links1, rc1, freed1, links2, rc2, freed2, links, rc, freed, None, None);
      AddOwn(links1, rc1, freed1, links, rc, freed, n);
      depth := if d1 > d2 then d1 else d2;
      freed := freed + multiset{n};
    }
  }
}
