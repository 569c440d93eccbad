// What the Fat-Tree wiring connects: every link of the three phases decoded
// back to the loop indices that produced it, which endpoints it joins, and
// the resulting port count of every node.
module FatTreeLinks {
  import opened Arith
  import opened TopoGraph
  import opened FatTree

  // ---------------------------------------------------------------------
  // Decoding a link index into the loop indices of its phase.

  /** Pod link j was added in pod p, for aggregation switch x and edge
      switch y. */
  lemma PodDecode(k: nat, r: int, j: nat) returns (p: nat, x: nat, y: nat)
    requires Validate(k, r) == None && j < |PodLinks(k, r)|
    ensures p < k && x < Half(k) && y < Half(k) && j == PodIndex(k, p, x, y)
    ensures PodLinks(k, r)[j] == Link(AggrPos(k, r, p, x), EdgePos(k, r, p, y))
  {
    HalfFacts(k, r);
    var h := Half(k);
    p := Div(j, h * h);
    var w := Mod(j, h * h);
    x, y := Div(w, h), Mod(w, h);
    DivMod(j, h * h);
    DivMod(w, h);
    PodsDone(k, r);
    DivBelow(j, h * h, k);
    DivBelow(w, h, h);
    PodLinkAt(k, r, p, x, y);
  }

  lemma PodIndexUnique(k: nat, p: nat, x: nat, y: nat, p': nat, x': nat, y': nat)
    requires x < Half(k) && y < Half(k) && x' < Half(k) && y' < Half(k)
    requires PodIndex(k, p, x, y) == PodIndex(k, p', x', y')
    ensures p == p' && x == x' && y == y'
  {
    var h := Half(k);
    PairBound(x, y, h);
    PairBound(x', y', h);
    PairUnique(p, x * h + y, p', x' * h + y', h * h);
    PairUnique(x, y, x', y', h);
  }

  /** Core link j joins core switch c to pod p. */
  lemma CoreDecode(k: nat, r: int, j: nat) returns (c: nat, p: nat)
    requires Validate(k, r) == None && j < |CoreLinks(k, r)|
    ensures c < CoreCount(k, r) && p < k && j == c * k + p
    ensures r >= 1 && Group(k, r) >= 1 && Div(c, Group(k, r)) < Half(k)
    ensures CoreLinks(k, r)[j] == Link(c, AggrPos(k, r, p, Div(c, Group(k, r))))
  {
    HalfFacts(k, r);
    c, p := Div(j, k), Mod(j, k);
    DivMod(j, k);
    DivBelow(j, k, CoreCount(k, r));
    CoreLinkAt(k, r, c, p);
  }

  /** Host link j joins edge switch q to the host at position HostPos(j). */
  lemma HostDecode(k: nat, r: int, j: nat) returns (q: nat, p: nat, y: nat)
    requires Validate(k, r) == None && j < |HostLinks(k, r)|
    ensures q < k * Half(k) && p < k && y < Half(k)
    ensures q == p * Half(k) + y && Div(j, Half(k)) == q
    ensures q * Half(k) <= j < q * Half(k) + Half(k)
    ensures HostLinks(k, r)[j] == Link(EdgePos(k, r, p, y), HostPos(k, r, j))
  {
    HalfFacts(k, r);
    var h := Half(k);
    q := Div(j, h);
    p, y := Div(q, h), Mod(q, h);
    DivMod(j, h);
    DivMod(q, h);
    MulAssoc(k, h, h);
    DivBelow(j, h, k * h);
    DivBelow(q, h, k);
  }

  // ---------------------------------------------------------------------
  // The positions of the pod switches are all distinct.

  lemma AggrEdgeDistinct(k: nat, r: int, p: nat, x: nat, p': nat, y: nat)
    requires Validate(k, r) == None && x < Half(k) && y < Half(k)
    ensures AggrPos(k, r, p, x) != EdgePos(k, r, p', y)
  {
    HalfFacts(k, r);
    PodSlot(k, p, x, p', Half(k) + y);
  }

  lemma AggrPosUnique(k: nat, r: int, p: nat, x: nat, p': nat, x': nat)
    requires Validate(k, r) == None && x < Half(k) && x' < Half(k)
    ensures AggrPos(k, r, p, x) == AggrPos(k, r, p', x') <==> p == p' && x == x'
  {
    HalfFacts(k, r);
    PodSlot(k, p, x, p', x');
  }

  lemma EdgePosUnique(k: nat, r: int, p: nat, y: nat, p': nat, y': nat)
    requires Validate(k, r) == None && y < Half(k) && y' < Half(k)
    ensures EdgePos(k, r, p, y) == EdgePos(k, r, p', y') <==> p == p' && y == y'
  {
    HalfFacts(k, r);
    PodSlot(k, p, Half(k) + y, p', Half(k) + y');
  }

  // ---------------------------------------------------------------------
  // Which nodes a link joins.

  /** Every pod link joins an aggregation switch and an edge switch of the
      same pod. */
  lemma PodLinkEnds(k: nat, r: int, j: nat)
    requires Validate(k, r) == None && j < |PodLinks(k, r)|
    ensures CoreCount(k, r) <= PodLinks(k, r)[j].a < CoreCount(k, r) + k * k
    ensures CoreCount(k, r) <= PodLinks(k, r)[j].b < CoreCount(k, r) + k * k
    ensures IsAggr(NodeAt(k, r, PodLinks(k, r)[j].a)) && IsEdge(NodeAt(k, r, PodLinks(k, r)[j].b))
    ensures Div(PodLinks(k, r)[j].a - CoreCount(k, r), k) == Div(PodLinks(k, r)[j].b - CoreCount(k, r), k)
  {
    HalfFacts(k, r);
    var p, x, y := PodDecode(k, r, j);
    AggrNodeAt(k, r, p, x);
    EdgeNodeAt(k, r, p, y);
    PodBounds(k, r, p, x, y);
    MulMono(p + 1, k, k);
    DivModUnique(p * k + x, k, p, x);
    DivModUnique(p * k + Half(k) + y, k, p, Half(k) + y);
  }

  /** Every core link joins a core switch to an aggregation switch. */
  lemma CoreLinkEnds(k: nat, r: int, j: nat)
    requires Validate(k, r) == None && j < |CoreLinks(k, r)|
    ensures CoreLinks(k, r)[j].a < CoreCount(k, r)
    ensures CoreCount(k, r) <= CoreLinks(k, r)[j].b < CoreCount(k, r) + k * k
    ensures IsCore(NodeAt(k, r, CoreLinks(k, r)[j].a)) && IsAggr(NodeAt(k, r, CoreLinks(k, r)[j].b))
  {
    var c, p := CoreDecode(k, r, j);
    CoreLinkAt(k, r, c, p);
    AggrNodeAt(k, r, p, Div(c, Group(k, r)));
  }

  /** Every host link joins an edge switch to a host. */
  lemma HostLinkEnds(k: nat, r: int, j: nat)
    requires Validate(k, r) == None && j < |HostLinks(k, r)|
    ensures CoreCount(k, r) <= HostLinks(k, r)[j].a < CoreCount(k, r) + k * k
    ensures HostLinks(k, r)[j].b == HostPos(k, r, j) < |Nodes(k, r)|
    ensures IsEdge(NodeAt(k, r, HostLinks(k, r)[j].a)) && IsHost(NodeAt(k, r, HostLinks(k, r)[j].b))
  {
    var q, p, y := HostDecode(k, r, j);
    EdgeNodeAt(k, r, p, y);
    PodBounds(k, r, p, 0, y);
    HalfFacts(k, r);
    MulMono(p + 1, k, k);
  }

  // ---------------------------------------------------------------------
  // Port counts.

  /** A node's degree is the sum of its degrees in the three phases. */
  lemma DegreeSplit(k: nat, r: int, v: NodeId)
    requires Validate(k, r) == None
    ensures Degree(Links(k, r), v) ==
            Count(PodLinks(k, r), TouchesOf(v)) + Count(CoreLinks(k, r), TouchesOf(v))
              + Count(HostLinks(k, r), TouchesOf(v))
  {
    CountAppend(PodLinks(k, r) + CoreLinks(k, r), HostLinks(k, r), TouchesOf(v));
    CountAppend(PodLinks(k, r), CoreLinks(k, r), TouchesOf(v));
  }

  /** No pod link touches a core switch or a host. */
  lemma PodPhaseMisses(k: nat, r: int, v: NodeId)
    requires Validate(k, r) == None
    requires !IsAggr(NodeAt(k, r, v)) && !IsEdge(NodeAt(k, r, v))
    ensures Count(PodLinks(k, r), TouchesOf(v)) == 0
  {
    forall j | 0 <= j < |PodLinks(k, r)|
      ensures !Touches(PodLinks(k, r)[j], v)
    {
      PodLinkEnds(k, r, j);
    }
    CountNone(PodLinks(k, r), TouchesOf(v));
  }

  /** No host link touches a core or an aggregation switch. */
  lemma HostPhaseMisses(k: nat, r: int, v: NodeId)
    requires Validate(k, r) == None
    requires !IsEdge(NodeAt(k, r, v)) && !IsHost(NodeAt(k, r, v))
    ensures Count(HostLinks(k, r), TouchesOf(v)) == 0
  {
    forall j | 0 <= j < |HostLinks(k, r)|
      ensures !Touches(HostLinks(k, r)[j], v)
    {
      HostLinkEnds(k, r, j);
    }
    CountNone(HostLinks(k, r), TouchesOf(v));
  }

  /** No core link touches an edge switch or a host. */
  lemma CorePhaseMisses(k: nat, r: int, v: NodeId)
    requires Validate(k, r) == None
    requires !IsCore(NodeAt(k, r, v)) && !IsAggr(NodeAt(k, r, v))
    ensures Count(CoreLinks(k, r), TouchesOf(v)) == 0
  {
    forall j | 0 <= j < |CoreLinks(k, r)|
      ensures !Touches(CoreLinks(k, r)[j], v)
    {
      CoreLinkEnds(k, r, j);
    }
    CountNone(CoreLinks(k, r), TouchesOf(v));
  }

  /** Each core switch has one link to every pod: k ports. */
  lemma CoreDegree(k: nat, r: int, c: NodeId)
    requires Validate(k, r) == None && c < CoreCount(k, r)
    ensures IsCore(Nodes(k, r)[c])
    ensures Degree(Links(k, r), c) == k
  {
    DegreeSplit(k, r, c);
    PodPhaseMisses(k, r, c);
    HostPhaseMisses(k, r, c);
    CoreUplinks(k, r, c);
  }

  /** The core loop gives core switch c its k links in one run. */
  lemma CoreUplinks(k: nat, r: int, c: NodeId)
    requires Validate(k, r) == None && c < CoreCount(k, r)
    ensures Count(CoreLinks(k, r), TouchesOf(c)) == k
  {
    forall j | 0 <= j < |CoreLinks(k, r)|
      ensures Touches(CoreLinks(k, r)[j], c) <==> c * k <= j < c * k + k
    {
      var c', p := CoreDecode(k, r, j);
      CoreLinkEnds(k, r, j);
      DivModUnique(j, k, c', p);
      DivRange(j, k, c);
    }
    MulMono(c + 1, CoreCount(k, r), k);
    MulPred(c + 1, k);
    CountRange(CoreLinks(k, r), TouchesOf(c), c * k, c * k + k);
  }

  /** Each host hangs off exactly one edge switch. */
  lemma HostDegree(k: nat, r: int, t: nat)
    requires Validate(k, r) == None && t < HostCount(k)
    ensures HostPos(k, r, t) < |Nodes(k, r)| && IsHost(Nodes(k, r)[HostPos(k, r, t)])
    ensures Degree(Links(k, r), HostPos(k, r, t)) == 1
  {
    var v := HostPos(k, r, t);
    HostLinkEnds(k, r, t);
    DegreeSplit(k, r, v);
    PodPhaseMisses(k, r, v);
    CorePhaseMisses(k, r, v);
    HostUplink(k, r, t);
  }

  /** Only the t-th host link reaches the t-th host. */
  lemma HostUplink(k: nat, r: int, t: nat)
    requires Validate(k, r) == None && t < HostCount(k)
    ensures Count(HostLinks(k, r), TouchesOf(HostPos(k, r, t))) == 1
  {
    var v := HostPos(k, r, t);
    HostLinkEnds(k, r, t);
    forall j | 0 <= j < |HostLinks(k, r)|
      ensures Touches(HostLinks(k, r)[j], v) <==> j == t
    {
      HostLinkEnds(k, r, j);
    }
    CountOne(HostLinks(k, r), TouchesOf(v), t);
  }

  /** Edge switch y of pod p has k/2 uplinks and k/2 hosts: k ports. */
  lemma EdgeDegree(k: nat, r: int, p: nat, y: nat)
    requires Validate(k, r) == None && p < k && y < Half(k)
    ensures EdgePos(k, r, p, y) < |Nodes(k, r)| && IsEdge(Nodes(k, r)[EdgePos(k, r, p, y)])
    ensures Degree(Links(k, r), EdgePos(k, r, p, y)) == k
  {
    var v := EdgePos(k, r, p, y);
    EdgeNodeAt(k, r, p, y);
    HalfFacts(k, r);
    DegreeSplit(k, r, v);
    EdgeUplinks(k, r, p, y);
    CorePhaseMisses(k, r, v);
    EdgeHostLinks(k, r, p, y);
  }

  /** Inside its pod, an edge switch is linked once to each aggregation
      switch. */
  lemma EdgeUplinks(k: nat, r: int, p: nat, y: nat)
    requires Validate(k, r) == None && p < k && y < Half(k)
    ensures Count(PodLinks(k, r), TouchesOf(EdgePos(k, r, p, y))) == Half(k)
  {
    var v, h := EdgePos(k, r, p, y), Half(k);
    MulSign(h, h);
    MulSign(p, h * h);
    var base := p * (h * h);
    assert base + h * h <= |PodLinks(k, r)| by {
      PodsDone(k, r);
      MulMono(p + 1, k, h * h);
      MulPred(p + 1, h * h);
    }
    forall j | 0 <= j < |PodLinks(k, r)| && !(base <= j < base + h * h)
      ensures !Touches(PodLinks(k, r)[j], v)
    {
      EdgeOtherPod(k, r, p, y, j);
    }
    CountWithin(PodLinks(k, r), TouchesOf(v), base, base + h * h);
    var pod := PodLinks(k, r)[base..base + h * h];
    forall i | 0 <= i < |pod|
      ensures Touches(pod[i], v) <==> i % h == y
    {
      assert pod[i] == PodLinks(k, r)[base + i];
      EdgeOwnPod(k, r, p, y, i);
    }
    CountResidue(pod, TouchesOf(v), h, h, y);
  }

  /** A link of another pod does not reach edge switch y of pod p. */
  lemma EdgeOtherPod(k: nat, r: int, p: nat, y: nat, j: nat)
    requires Validate(k, r) == None && y < Half(k) && j < |PodLinks(k, r)|
    requires var base := p * (Half(k) * Half(k)); !(base <= j < base + Half(k) * Half(k))
    ensures !Touches(PodLinks(k, r)[j], EdgePos(k, r, p, y))
  {
    var p', x', y' := PodDecode(k, r, j);
    AggrEdgeDistinct(k, r, p', x', p, y);
    EdgePosUnique(k, r, p', y', p, y);
    PairBound(x', y', Half(k));
  }

  /** The i-th link of pod p reaches its edge switch y when i % (k/2) == y. */
  lemma EdgeOwnPod(k: nat, r: int, p: nat, y: nat, i: nat)
    requires Validate(k, r) == None && p < k && y < Half(k) && i < Half(k) * Half(k)
    ensures p * (Half(k) * Half(k)) + i < |PodLinks(k, r)|
    ensures Touches(PodLinks(k, r)[p * (Half(k) * Half(k)) + i], EdgePos(k, r, p, y)) <==> i % Half(k) == y
  {
    var h := Half(k);
    HalfFacts(k, r);
    var x', y' := Div(i, h), Mod(i, h);
    DivMod(i, h);
    DivBelow(i, h, h);
    PodLinkAt(k, r, p, x', y');
    AggrEdgeDistinct(k, r, p, x', p, y);
    EdgePosUnique(k, r, p, y', p, y);
  }

  /** An edge switch serves k/2 hosts. */
  lemma EdgeHostLinks(k: nat, r: int, p: nat, y: nat)
    requires Validate(k, r) == None && p < k && y < Half(k)
    ensures Count(HostLinks(k, r), TouchesOf(EdgePos(k, r, p, y))) == Half(k)
  {
    var v, h := EdgePos(k, r, p, y), Half(k);
    var q := EdgeHostRange(k, r, p, y);
    forall j | 0 <= j < |HostLinks(k, r)|
      ensures Touches(HostLinks(k, r)[j], v) <==> q * h <= j < q * h + h
    {
      EdgeHostTouch(k, r, p, y, j);
    }
    CountRange(HostLinks(k, r), TouchesOf(v), q * h, q * h + h);
  }

  /** The hosts of edge switch q = p*(k/2) + y are the q-th run of k/2. */
  lemma EdgeHostRange(k: nat, r: int, p: nat, y: nat) returns (q: nat)
    requires Validate(k, r) == None && p < k && y < Half(k)
    ensures q == p * Half(k) + y && q < k * Half(k)
    ensures 0 <= q * Half(k) && q * Half(k) + Half(k) <= |HostLinks(k, r)|
  {
    var h := Half(k);
    q := p * h + y;
    MulSign(q, h);
    MulMono(p + 1, k, h);
    MulPred(p + 1, h);
    MulMono(q + 1, k * h, h);
    MulPred(q + 1, h);
  }

  lemma EdgeHostTouch(k: nat, r: int, p: nat, y: nat, j: nat)
    requires Validate(k, r) == None && p < k && y < Half(k) && j < |HostLinks(k, r)|
    ensures var q := p * Half(k) + y;
            Touches(HostLinks(k, r)[j], EdgePos(k, r, p, y)) <==> q * Half(k) <= j < q * Half(k) + Half(k)
  {
    var h := Half(k);
    var q', p', y' := HostDecode(k, r, j);
    HostLinkEnds(k, r, j);
    EdgeNodeAt(k, r, p, y);
    EdgePosUnique(k, r, p', y', p, y);
    DivModUnique(q', h, p', y');
    DivModUnique(p * h + y, h, p, y);
    DivRange(j, h, p * h + y);
  }

  /** The number of core switches wired to each aggregation switch:
      (k/2) // r of them, and none when r is negative. */
  function CoresPerAggr(k: nat, r: int): nat
  {
    if r >= 1 then Group(k, r) else 0
  }

  /** Aggregation switch x of pod p has k/2 edge links and (k/2) // r core
      links. */
  lemma AggrDegree(k: nat, r: int, p: nat, x: nat)
    requires Validate(k, r) == None && p < k && x < Half(k)
    ensures AggrPos(k, r, p, x) < |Nodes(k, r)| && IsAggr(Nodes(k, r)[AggrPos(k, r, p, x)])
    ensures Degree(Links(k, r), AggrPos(k, r, p, x)) == Half(k) + CoresPerAggr(k, r)
  {
    var v := AggrPos(k, r, p, x);
    AggrNodeAt(k, r, p, x);
    DegreeSplit(k, r, v);
    AggrDownlinks(k, r, p, x);
    AggrUplinks(k, r, p, x);
    HostPhaseMisses(k, r, v);
  }

  /** Inside its pod, an aggregation switch is linked once to each edge
      switch, by k/2 consecutive links of the nested loop. */
  lemma AggrDownlinks(k: nat, r: int, p: nat, x: nat)
    requires Validate(k, r) == None && p < k && x < Half(k)
    ensures Count(PodLinks(k, r), TouchesOf(AggrPos(k, r, p, x))) == Half(k)
  {
    var h := Half(k);
    var base := PodIndex(k, p, x, 0);
    HalfFacts(k, r);
    PodLinkAt(k, r, p, x, h - 1);
    forall j | 0 <= j < |PodLinks(k, r)|
      ensures Touches(PodLinks(k, r)[j], AggrPos(k, r, p, x)) <==> base <= j < base + h
    {
      AggrPodTouch(k, r, p, x, j);
    }
    CountRange(PodLinks(k, r), TouchesOf(AggrPos(k, r, p, x)), base, base + h);
  }

  lemma AggrPodTouch(k: nat, r: int, p: nat, x: nat, j: nat)
    requires Validate(k, r) == None && x < Half(k) && j < |PodLinks(k, r)|
    ensures var base := PodIndex(k, p, x, 0);
            Touches(PodLinks(k, r)[j], AggrPos(k, r, p, x)) <==> base <= j < base + Half(k)
  {
    var base := PodIndex(k, p, x, 0);
    var p', x', y' := PodDecode(k, r, j);
    AggrEdgeDistinct(k, r, p, x, p', y');
    AggrPosUnique(k, r, p', x', p, x);
    if base <= j < base + Half(k) {
      assert PodIndex(k, p, x, j - base) == j;
      PodIndexUnique(k, p, x, j - base, p', x', y');
    }
  }

  /** The core loop links an aggregation switch to CoresPerAggr cores. */
  lemma AggrUplinks(k: nat, r: int, p: nat, x: nat)
    requires Validate(k, r) == None && p < k && x < Half(k)
    ensures Count(CoreLinks(k, r), TouchesOf(AggrPos(k, r, p, x))) == CoresPerAggr(k, r)
  {
    if r < 0 {
      assert CoreCount(k, r) == 0 by { Shape(k, r); }
      assert CoreLinks(k, r) == [];
    } else {
      AggrCoreRun(k, r, p, x);
    }
  }
  /** With r >= 1 the links of one aggregation switch to the core form one
      run of Group(k, r) * k links, one in every k. */
  lemma AggrCoreRun(k: nat, r: int, p: nat, x: nat)
    requires Validate(k, r) == None && r >= 1 && p < k && x < Half(k)
    ensures Count(CoreLinks(k, r), TouchesOf(AggrPos(k, r, p, x))) == Group(k, r)
  {
    var v := AggrPos(k, r, p, x);
    var g := Group(k, r);
    var lo := AggrCoreRange(k, r, x);
    forall j | 0 <= j < |CoreLinks(k, r)| && !(lo <= j < lo + g * k)
      ensures !Touches(CoreLinks(k, r)[j], v)
    {
      AggrCoreOther(k, r, p, x, j);
    }
    CountWithin(CoreLinks(k, r), TouchesOf(v), lo, lo + g * k);
    var run := CoreLinks(k, r)[lo..lo + g * k];
    forall i | 0 <= i < |run|
      ensures Touches(run[i], v) <==> i % k == p
    {
      assert run[i] == CoreLinks(k, r)[lo + i];
      AggrCoreOwn(k, r, p, x, i);
    }
    CountResidue(run, TouchesOf(v), k, g, p);
  }
  lemma AggrCoreRange(k: nat, r: int, x: nat) returns (lo: nat)
    requires Validate(k, r) == None && r >= 1 && x < Half(k)
    ensures lo == x * Group(k, r) * k
    ensures lo + Group(k, r) * k == (x * Group(k, r) + Group(k, r)) * k <= |CoreLinks(k, r)|
  {
    Shape(k, r);
    var g := Group(k, r);
    lo := x * g * k;
    MulMono(x + 1, Half(k), g);
    MulPred(x + 1, g);
    MulMono(x * g + g, Half(k) * g, k);
    MulAdd(x, g, k);
  }

  lemma AggrCoreOther(k: nat, r: int, p: nat, x: nat, j: nat)
    requires Validate(k, r) == None && r >= 1 && x < Half(k) && j < |CoreLinks(k, r)|
    requires var lo := x * Group(k, r) * k; !(lo <= j < lo + Group(k, r) * k)
    ensures !Touches(CoreLinks(k, r)[j], AggrPos(k, r, p, x))
  {
    var g := Group(k, r);
    var c, p' := CoreDecode(k, r, j);
    MulSign(p, k);
    AggrPosUnique(k, r, p', Div(c, g), p, x);
    if Div(c, g) == x {
      MulSign(x, g);
      DivRange(c, g, x);
      MulMono(x * g, c, k);
      MulMono(c + 1, x * g + g, k);
      MulPred(c + 1, k);
      MulAdd(x, g, k);
    }
  }

  lemma AggrCoreOwn(k: nat, r: int, p: nat, x: nat, i: nat)
    requires Validate(k, r) == None && r >= 1 && p < k && x < Half(k) && i < Group(k, r) * k
    ensures x * Group(k, r) * k + i < |CoreLinks(k, r)|
    ensures Touches(CoreLinks(k, r)[x * Group(k, r) * k + i], AggrPos(k, r, p, x)) <==> i % k == p
  {
    var g := Group(k, r);
    var lo := AggrCoreRange(k, r, x);
    HalfFacts(k, r);
    var c, p' := CoreDecode(k, r, lo + i);
    DivModUnique(lo + i, k, c, p');
    RunDecode(x, g, k, i);
    AggrPosUnique(k, r, p', x, p, x);
  }
}
