// Fat-Tree(k, r): k-port switches, (k/2)^2/r core switches, k pods of k/2
// aggregation and k/2 edge switches, and k/2 hosts under each edge switch.
// Nodes are added cores first, then pod by pod (aggregation switches, then
// edge switches), then the hosts; a switch's label carries its position + 1.
module FatTree {
  import opened Arith
  import opened TopoGraph

  /** ZeroRatio is the division by zero that `% r` raises for r = 0; the
      other two are the constructor's ValueErrors. */
  datatype FatTreeError = ZeroRatio | NotDivisible | NotPositiveEven

  /** Parameter validation, in the order the constructor performs it: the
      divisibility of k/2 by r is checked before the parity of k. */
  function Validate(k: int, r: int): (err: Option<FatTreeError>)
    ensures err == None <==> r != 0 && k >= 2 && k % 2 == 0 && (k / 2) % r == 0
    ensures err == Some(ZeroRatio) <==> r == 0
    ensures err == Some(NotDivisible) <==> r != 0 && (k / 2) % r != 0
  {
    FloorPositive(k, 2);
    if r == 0 then Some(ZeroRatio)
    else
      FloorModZero(FloorDiv(k, 2), r);
      if FloorMod(FloorDiv(k, 2), r) != 0 then Some(NotDivisible)
      else if k < 1 || FloorMod(k, 2) == 1 then Some(NotPositiveEven)
      else None
  }

  // ---------------------------------------------------------------------
  // The topology as a function of (k, r).

  /** k // 2: the switches per layer in a pod, and the hosts per edge switch. */
  function Half(k: nat): nat
  {
    k / 2
  }

  /** The number of core switches the core loop creates (DCTopo.py:109-110):
      the floor quotient of (k/2)^2 by r, or none when that is negative. */
  function CoreCount(k: nat, r: int): nat
    requires r != 0
  {
    var nCore := FloorDiv(Half(k) * Half(k), r);
    if nCore > 0 then nCore else 0
  }

  /** The floor quotient of k/2 by r: how many consecutive core switches
      share one aggregation switch index. */
  function Group(k: nat, r: int): nat
    requires r >= 1
  {
    Half(k) / r
  }

  /** A valid k is even and k/2, the number of hosts per edge switch, is
      positive. */
  lemma HalfFacts(k: nat, r: int)
    requires Validate(k, r) == None
    ensures Half(k) >= 1 && k == 2 * Half(k) && Half(k) * Half(k) >= Half(k)
  {
    MulAtLeast(Half(k), Half(k));
  }

  /** There are core switches exactly when r is positive; then (k/2)^2 / r
      is exact, and (k/2) // r, the divisor of the core loop, is positive. */
  lemma Shape(k: nat, r: int)
    requires Validate(k, r) == None
    ensures Half(k) >= 1 && k == 2 * Half(k) && Half(k) * Half(k) >= Half(k)
    ensures CoreCount(k, r) >= 1 <==> r >= 1
    ensures r >= 1 ==> Group(k, r) >= 1 && Half(k) == Group(k, r) * r
    ensures r >= 1 ==> CoreCount(k, r) == Half(k) * Group(k, r)
  {
    var h := Half(k);
    HalfFacts(k, r);
    if r >= 1 {
      var g := Group(k, r);
      assert h == g * r;
      assert h * h == (h * g) * r by { MulAssoc(h, g, r); }
      DivModUnique(h * h, r, h * g, 0);
      FloorPositive(h * h, r);
      MulAtLeast(h, g);
    } else {
      FloorNegative(h * h, r);
    }
  }

  /** A core link's divisor is positive. */
  lemma GroupPositive(k: nat, r: int)
    requires Validate(k, r) == None && CoreCount(k, r) >= 1
    ensures r >= 1 && Group(k, r) >= 1
  {
    Shape(k, r);
  }

  /** Position of aggregation switch x and of edge switch y of pod p. */
  function AggrPos(k: nat, r: int, p: nat, x: nat): nat
    requires r != 0
  {
    CoreCount(k, r) + p * k + x
  }

  function EdgePos(k: nat, r: int, p: nat, y: nat): nat
    requires r != 0
  {
    CoreCount(k, r) + p * k + Half(k) + y
  }

  /** Position of the j-th host. */
  function HostPos(k: nat, r: int, j: nat): nat
    requires r != 0
  {
    CoreCount(k, r) + k * k + j
  }

  /** Position of the q-th edge switch (pod q / (k/2), index q % (k/2)). */
  function EdgeOf(k: nat, r: int, q: nat): nat
    requires Validate(k, r) == None
  {
    HalfFacts(k, r);
    EdgePos(k, r, Div(q, Half(k)), Mod(q, Half(k)))
  }

  /** The number of hosts, k * (k/2)^2 = k^3/4; also the number of links
      inside the pods. */
  function HostCount(k: nat): nat
  {
    k * Half(k) * Half(k)
  }

  /** Node j: the cores, then k blocks of k pod switches, then the hosts. */
  function NodeAt(k: nat, r: int, j: nat): Node
    requires Validate(k, r) == None
  {
    var c := CoreCount(k, r);
    if j < c then Node(SwitchNode, Core(j + 1))
    else if j < c + k * k then
      if Mod(j - c, k) < Half(k) then Node(SwitchNode, Aggr(j + 1))
      else Node(SwitchNode, Edge(j + 1))
    else Node(HostNode, FHost(j - (c + k * k) + 1))
  }

  function Nodes(k: nat, r: int): seq<Node>
    requires Validate(k, r) == None
  {
    seq(CoreCount(k, r) + k * k + HostCount(k), (j: int) requires j >= 0 => NodeAt(k, r, j))
  }

  /** Link j inside the pods: pod j / (k/2)^2, aggregation switch by edge
      switch, in the order of the nested loops. */
  function PodLink(k: nat, r: int, j: nat): Link
    requires Validate(k, r) == None
  {
    HalfFacts(k, r);
    var h := Half(k);
    var w := Mod(j, h * h);
    Link(AggrPos(k, r, Div(j, h * h), Div(w, h)), EdgePos(k, r, Div(j, h * h), Mod(w, h)))
  }

  /** Link j of the core loop (DCTopo.py:136-139): core j / k to an
      aggregation switch of pod j % k, the one whose index in the pod is the
      core's number divided by Group(k, r). */
  function CoreLink(k: nat, r: int, j: nat): Link
    requires Validate(k, r) == None && j < CoreCount(k, r) * k
  {
    HalfFacts(k, r);
    DivBelow(j, k, CoreCount(k, r));
    GroupPositive(k, r);
    var c := Div(j, k);
    Link(c, AggrPos(k, r, Mod(j, k), Div(c, Group(k, r))))
  }

  /** Link j of the host loop: host j under edge switch j / (k/2). */
  function HostLink(k: nat, r: int, j: nat): Link
    requires Validate(k, r) == None
  {
    HalfFacts(k, r);
    Link(EdgeOf(k, r, Div(j, Half(k))), HostPos(k, r, j))
  }

  function PodLinks(k: nat, r: int): seq<Link>
    requires Validate(k, r) == None
  {
    seq(HostCount(k), (j: int) requires j >= 0 => PodLink(k, r, j))
  }

  function CoreLinks(k: nat, r: int): seq<Link>
    requires Validate(k, r) == None
  {
    seq(CoreCount(k, r) * k, (j: int) requires 0 <= j < CoreCount(k, r) * k => CoreLink(k, r, j))
  }

  function HostLinks(k: nat, r: int): seq<Link>
    requires Validate(k, r) == None
  {
    seq(HostCount(k), (j: int) requires j >= 0 => HostLink(k, r, j))
  }

  /** The three link phases, in the order the constructor adds them. */
  function Links(k: nat, r: int): seq<Link>
    requires Validate(k, r) == None
  {
    PodLinks(k, r) + CoreLinks(k, r) + HostLinks(k, r)
  }

  // ---------------------------------------------------------------------
  // The constructor.

  /** The switch list s holds every switch added so far, at its position. */
  ghost predicate Positions(s: seq<NodeId>)
  {
    forall j :: 0 <= j < |s| ==> s[j] == j
  }

  /** The edge list e holds the edge switches added so far, in order. */
  ghost predicate EdgesAt(k: nat, r: int, e: seq<NodeId>)
    requires Validate(k, r) == None
  {
    forall q :: 0 <= q < |e| ==> e[q] == EdgeOf(k, r, q)
  }

  method Build(k: int, r: int) returns (g: Topo, err: Option<FatTreeError>)
    ensures fresh(g) && g.Valid()
    ensures err == Validate(k, r)
    ensures err != None ==> g.nodes == [] && g.links == []
    ensures err == None ==> g.nodes == Nodes(k, r) && g.links == Links(k, r)
  {
    g := new Topo();
    if r == 0 {
      return g, Some(ZeroRatio);
    }
    if FloorMod(FloorDiv(k, 2), r) != 0 {
      return g, Some(NotDivisible);
    }
    if k < 1 || FloorMod(k, 2) == 1 {
      return g, Some(NotPositiveEven);
    }
    err := None;
    FloorPositive(k, 2);
    var nCore := FloorDiv((k / 2) * (k / 2), r);
    var s := AddCores(g, k, r, nCore);
    var e: seq<NodeId> := [];
    for pod := 0 to k
      invariant g.Valid()
      invariant |s| == |g.nodes| == CoreCount(k, r) + pod * k && Positions(s)
      invariant g.nodes <= Nodes(k, r)
      invariant |e| == pod * Half(k) && EdgesAt(k, r, e)
      invariant |g.links| == pod * (Half(k) * Half(k))
      invariant g.links <= PodLinks(k, r)
    {
      s, e := AddPod(g, k, r, pod, s, e);
    }
    PodsDone(k, r);
    AddCoreLinks(g, k, r, nCore, s);
    AddHosts(g, k, r, e);
  }

  method AddCores(g: Topo, k: nat, r: int, nCore: int) returns (s: seq<NodeId>)
    requires g.Valid() && g.nodes == [] && g.links == []
    requires Validate(k, r) == None && nCore == FloorDiv(Half(k) * Half(k), r)
    modifies g
    ensures g.Valid() && g.links == []
    ensures |s| == |g.nodes| == CoreCount(k, r) && Positions(s)
    ensures g.nodes <= Nodes(k, r)
  {
    s := [];
    var i := 0;
    while i < nCore
      invariant 0 <= i <= CoreCount(k, r)
      invariant g.Valid() && g.links == []
      invariant |s| == |g.nodes| == i && Positions(s)
      invariant g.nodes <= Nodes(k, r)
    {
      ghost var before := g.nodes;
      var sw := g.AddSwitch(Core(i + 1));
      PrefixAppend(before, Nodes(k, r), Node(SwitchNode, Core(i + 1)));
      s := s + [sw];
      i := i + 1;
    }
  }

  /** One iteration of the pod loop. */
  method AddPod(g: Topo, k: nat, r: int, pod: nat, s0: seq<NodeId>, e0: seq<NodeId>)
    returns (s: seq<NodeId>, e: seq<NodeId>)
    requires g.Valid() && Validate(k, r) == None && pod < k
    requires |s0| == |g.nodes| == CoreCount(k, r) + pod * k && Positions(s0)
    requires g.nodes <= Nodes(k, r)
    requires |e0| == pod * Half(k) && EdgesAt(k, r, e0)
    requires |g.links| == pod * (Half(k) * Half(k))
    requires g.links <= PodLinks(k, r)
    modifies g
    ensures g.Valid()
    ensures |s| == |g.nodes| == CoreCount(k, r) + (pod + 1) * k && Positions(s)
    ensures g.nodes <= Nodes(k, r)
    ensures |e| == (pod + 1) * Half(k) && EdgesAt(k, r, e)
    ensures |g.links| == (pod + 1) * (Half(k) * Half(k))
    ensures g.links <= PodLinks(k, r)
  {
    Shape(k, r);
    var aggrStart := |s0| + 1;
    var aggrEnd := aggrStart + k / 2;
    var edgeStart := aggrEnd;
    var edgeEnd := edgeStart + k / 2;
    s := AddAggrs(g, k, r, pod, s0, aggrStart, aggrEnd);
    s, e := AddEdges(g, k, r, pod, s, e0, edgeStart, edgeEnd);
    ghost var nodes := g.nodes;
    for aa := aggrStart to aggrEnd
      invariant g.Valid() && g.nodes == nodes
      invariant |g.links| == pod * (Half(k) * Half(k)) + (aa - aggrStart) * Half(k)
      invariant g.links <= PodLinks(k, r)
    {
      PodWire(g, k, r, pod, s, aa - aggrStart, aa, edgeStart, edgeEnd);
      MulPred(aa - aggrStart + 1, Half(k));
    }
    PodStep(k, pod);
  }

  method AddAggrs(g: Topo, k: nat, r: int, pod: nat, s0: seq<NodeId>, aggrStart: nat, aggrEnd: nat)
    returns (s: seq<NodeId>)
    requires g.Valid() && Validate(k, r) == None && pod < k
    requires |s0| == |g.nodes| == CoreCount(k, r) + pod * k && Positions(s0)
    requires g.nodes <= Nodes(k, r)
    requires aggrStart == |s0| + 1 && aggrEnd == aggrStart + Half(k)
    modifies g
    ensures g.Valid() && g.links == old(g.links)
    ensures |s| == |g.nodes| == |s0| + Half(k) && Positions(s)
    ensures g.nodes <= Nodes(k, r)
  {
    s := s0;
    for i := aggrStart to aggrEnd
      invariant g.Valid() && g.links == old(g.links)
      invariant |s| == |g.nodes| == i - 1 && Positions(s)
      invariant g.nodes <= Nodes(k, r)
    {
      AggrNodeAt(k, r, pod, i - aggrStart);
      ghost var before := g.nodes;
      var sw := g.AddSwitch(Aggr(i));
      PrefixAppend(before, Nodes(k, r), Node(SwitchNode, Aggr(i)));
      s := s + [sw];
    }
  }

  method AddEdges(g: Topo, k: nat, r: int, pod: nat, s0: seq<NodeId>, e0: seq<NodeId>,
                  edgeStart: nat, edgeEnd: nat)
    returns (s: seq<NodeId>, e: seq<NodeId>)
    requires g.Valid() && Validate(k, r) == None && pod < k
    requires |s0| == |g.nodes| == CoreCount(k, r) + pod * k + Half(k) && Positions(s0)
    requires g.nodes <= Nodes(k, r)
    requires |e0| == pod * Half(k) && EdgesAt(k, r, e0)
    requires edgeStart == |s0| + 1 && edgeEnd == edgeStart + Half(k)
    modifies g
    ensures g.Valid() && g.links == old(g.links)
    ensures |s| == |g.nodes| == |s0| + Half(k) && Positions(s)
    ensures g.nodes <= Nodes(k, r)
    ensures |e| == (pod + 1) * Half(k) && EdgesAt(k, r, e)
  {
    s, e := s0, e0;
    for j := edgeStart to edgeEnd
      invariant g.Valid() && g.links == old(g.links)
      invariant |s| == |g.nodes| == j - 1 && Positions(s)
      invariant g.nodes <= Nodes(k, r)
      invariant |e| == pod * Half(k) + (j - edgeStart) && EdgesAt(k, r, e)
    {
      EdgeNodeAt(k, r, pod, j - edgeStart);
      ghost var before := g.nodes;
      var sw := g.AddSwitch(Edge(j));
      PrefixAppend(before, Nodes(k, r), Node(SwitchNode, Edge(j)));
      e := e + [sw];
      s := s + [sw];
    }
    MulPred(pod + 1, Half(k));
  }

  /** The inner wiring loop: aggregation switch number aa (the x-th of its
      pod) to every edge switch of the pod. */
  method PodWire(g: Topo, k: nat, r: int, pod: nat, s: seq<NodeId>, ghost x: nat, aa: nat,
                 edgeStart: nat, edgeEnd: nat)
    requires g.Valid() && Validate(k, r) == None && pod < k && x < Half(k)
    requires |s| == |g.nodes| == CoreCount(k, r) + (pod + 1) * k && Positions(s)
    requires aa == AggrPos(k, r, pod, x) + 1
    requires edgeStart == EdgePos(k, r, pod, 0) + 1 && edgeEnd == edgeStart + Half(k)
    requires |g.links| == pod * (Half(k) * Half(k)) + x * Half(k)
    requires g.links <= PodLinks(k, r)
    modifies g
    ensures g.Valid() && g.nodes == old(g.nodes)
    ensures |g.links| == old(|g.links|) + Half(k)
    ensures g.links <= PodLinks(k, r)
  {
    ghost var base := |g.links|;
    for ee := edgeStart to edgeEnd
      invariant g.Valid() && g.nodes == old(g.nodes)
      invariant |g.links| == base + (ee - edgeStart)
      invariant g.links <= PodLinks(k, r)
    {
      PodBounds(k, r, pod, x, ee - edgeStart);
      AddPodLink(g, k, r, pod, x, ee - edgeStart, s[aa - 1], s[ee - 1]);
    }
  }

  /** One step of the pod wiring (DCTopo.py:133): linking aggregation switch
      x of the pod to its edge switch y. */
  method AddPodLink(g: Topo, k: nat, r: int, ghost pod: nat, ghost x: nat, ghost y: nat, a: NodeId, b: NodeId)
    requires g.Valid() && Validate(k, r) == None && pod < k && x < Half(k) && y < Half(k)
    requires a == AggrPos(k, r, pod, x) && b == EdgePos(k, r, pod, y)
    requires a < |g.nodes| && b < |g.nodes|
    requires |g.links| == PodIndex(k, pod, x, y) && g.links <= PodLinks(k, r)
    modifies g
    ensures g.Valid() && g.nodes == old(g.nodes)
    ensures |g.links| == old(|g.links|) + 1 && g.links <= PodLinks(k, r)
  {
    PodLinkAt(k, r, pod, x, y);
    ghost var before := g.links;
    g.AddLink(a, b);
    PrefixAppend(before, PodLinks(k, r), Link(a, b));
  }

  /** The core loop: every core switch to one aggregation switch per pod. */
  method AddCoreLinks(g: Topo, k: nat, r: int, nCore: int, s: seq<NodeId>)
    requires g.Valid() && Validate(k, r) == None && nCore == FloorDiv(Half(k) * Half(k), r)
    requires |s| == |g.nodes| == CoreCount(k, r) + k * k && Positions(s)
    requires g.links == PodLinks(k, r)
    modifies g
    ensures g.Valid() && g.nodes == old(g.nodes)
    ensures g.links == PodLinks(k, r) + CoreLinks(k, r)
  {
    var coreNode := 0;
    while coreNode < nCore
      invariant 0 <= coreNode <= CoreCount(k, r)
      invariant g.Valid() && g.nodes == old(g.nodes)
      invariant |g.links| == |PodLinks(k, r)| + coreNode * k
      invariant g.links <= PodLinks(k, r) + CoreLinks(k, r)
    {
      CoreWire(g, k, r, nCore, s, coreNode);
      coreNode := coreNode + 1;
    }
  }

  method CoreWire(g: Topo, k: nat, r: int, nCore: int, s: seq<NodeId>, coreNode: nat)
    requires g.Valid() && Validate(k, r) == None && nCore == FloorDiv(Half(k) * Half(k), r)
    requires coreNode < nCore
    requires |s| == |g.nodes| == CoreCount(k, r) + k * k && Positions(s)
    requires |g.links| == |PodLinks(k, r)| + coreNode * k
    requires g.links <= PodLinks(k, r) + CoreLinks(k, r)
    modifies g
    ensures g.Valid() && g.nodes == old(g.nodes)
    ensures |g.links| == |PodLinks(k, r)| + (coreNode + 1) * k
    ensures g.links <= PodLinks(k, r) + CoreLinks(k, r)
  {
    Shape(k, r);
    FloorPositive(Half(k), r);
    for pod := 0 to k
      invariant g.Valid() && g.nodes == old(g.nodes)
      invariant |g.links| == |PodLinks(k, r)| + coreNode * k + pod
      invariant g.links <= PodLinks(k, r) + CoreLinks(k, r)
    {
      var aggrNode := nCore + coreNode / FloorDiv(k / 2, r) + k * pod;
      CoreLinkAt(k, r, coreNode, pod);
      ghost var before := g.links;
      g.AddLink(s[coreNode], s[aggrNode]);
      PrefixAppend(before, PodLinks(k, r) + CoreLinks(k, r), Link(s[coreNode], s[aggrNode]));
    }
    MulPred(coreNode + 1, k);
  }

  /** The host loop: k/2 new hosts under each edge switch, numbered from 1. */
  method AddHosts(g: Topo, k: nat, r: int, e: seq<NodeId>)
    requires g.Valid() && Validate(k, r) == None
    requires |e| == k * Half(k) && EdgesAt(k, r, e)
    requires |g.nodes| == CoreCount(k, r) + k * k && g.nodes <= Nodes(k, r)
    requires g.links == PodLinks(k, r) + CoreLinks(k, r)
    modifies g
    ensures g.Valid()
    ensures g.nodes == Nodes(k, r) && g.links == Links(k, r)
  {
    var count := 1;
    for q := 0 to |e|
      invariant g.Valid()
      invariant count == q * Half(k) + 1
      invariant |g.nodes| == CoreCount(k, r) + k * k + q * Half(k) && g.nodes <= Nodes(k, r)
      invariant |g.links| == |PodLinks(k, r) + CoreLinks(k, r)| + q * Half(k) && g.links <= Links(k, r)
    {
      count := EdgeHosts(g, k, r, e[q], q, count);
    }
  }

  method EdgeHosts(g: Topo, k: nat, r: int, sw: NodeId, q: nat, count0: nat) returns (count: nat)
    requires g.Valid() && Validate(k, r) == None && q < k * Half(k)
    requires sw == EdgeOf(k, r, q) && count0 == q * Half(k) + 1
    requires |g.nodes| == CoreCount(k, r) + k * k + q * Half(k) && g.nodes <= Nodes(k, r)
    requires |g.links| == |PodLinks(k, r) + CoreLinks(k, r)| + q * Half(k) && g.links <= Links(k, r)
    modifies g
    ensures g.Valid() && count == count0 + Half(k)
    ensures |g.nodes| == CoreCount(k, r) + k * k + (q + 1) * Half(k) && g.nodes <= Nodes(k, r)
    ensures |g.links| == |PodLinks(k, r) + CoreLinks(k, r)| + (q + 1) * Half(k) && g.links <= Links(k, r)
  {
    EdgeBound(k, r, q);
    count := count0;
    for i := 0 to k / 2
      invariant g.Valid() && count == count0 + i
      invariant |g.nodes| == CoreCount(k, r) + k * k + q * Half(k) + i && g.nodes <= Nodes(k, r)
      invariant |g.links| == |PodLinks(k, r) + CoreLinks(k, r)| + q * Half(k) + i && g.links <= Links(k, r)
    {
      var host := AddFatHost(g, k, r, q, i, count);
      AddHostLink(g, k, r, q, i, sw, host);
      count := count + 1;
    }
    MulPred(q + 1, Half(k));
  }

  /** Adding the i-th host under edge switch q, numbered by the running
      host counter (DCTopo.py:145). */
  method AddFatHost(g: Topo, k: nat, r: int, ghost q: nat, ghost i: nat, count: nat) returns (host: NodeId)
    requires g.Valid() && Validate(k, r) == None && q < k * Half(k) && i < Half(k)
    requires count == q * Half(k) + i + 1
    requires |g.nodes| == CoreCount(k, r) + k * k + q * Half(k) + i && g.nodes <= Nodes(k, r)
    modifies g
    ensures g.Valid() && g.links == old(g.links)
    ensures host == old(|g.nodes|) && |g.nodes| == host + 1 && g.nodes <= Nodes(k, r)
  {
    HostAt(k, r, q, i);
    ghost var before := g.nodes;
    host := g.AddHost(FHost(count));
    PrefixAppend(before, Nodes(k, r), Node(HostNode, FHost(count)));
  }

  /** Linking edge switch q to its i-th host (DCTopo.py:146). */
  method AddHostLink(g: Topo, k: nat, r: int, ghost q: nat, ghost i: nat, sw: NodeId, host: NodeId)
    requires g.Valid() && Validate(k, r) == None && q < k * Half(k) && i < Half(k)
    requires sw == EdgeOf(k, r, q) && sw < |g.nodes|
    requires host == CoreCount(k, r) + k * k + q * Half(k) + i && host < |g.nodes|
    requires |g.links| == |PodLinks(k, r) + CoreLinks(k, r)| + q * Half(k) + i && g.links <= Links(k, r)
    modifies g
    ensures g.Valid() && g.nodes == old(g.nodes)
    ensures |g.links| == old(|g.links|) + 1 && g.links <= Links(k, r)
  {
    HostAt(k, r, q, i);
    ghost var before := g.links;
    g.AddLink(sw, host);
    PrefixAppend(before, Links(k, r), Link(sw, host));
  }

  // ---------------------------------------------------------------------
  // Index arithmetic behind the constructor's loops.

  lemma PodStep(k: nat, pod: nat)
    requires k == 2 * Half(k)
    ensures (pod + 1) * k == pod * k + Half(k) + Half(k)
    ensures (pod + 1) * (Half(k) * Half(k)) == pod * (Half(k) * Half(k)) + Half(k) * Half(k)
  {
    MulPred(pod + 1, k);
    MulPred(pod + 1, Half(k) * Half(k));
  }

  /** The pod loop ends with every pod switch added and every pod link. */
  lemma PodsDone(k: nat, r: int)
    requires Validate(k, r) == None
    ensures k * (Half(k) * Half(k)) == HostCount(k) == |PodLinks(k, r)|
  {
    MulAssoc(k, Half(k), Half(k));
  }

  /** Position C + p*k + x, for x < k/2, holds an aggregation switch. */
  lemma AggrNodeAt(k: nat, r: int, p: nat, x: nat)
    requires Validate(k, r) == None && p < k && x < Half(k)
    ensures AggrPos(k, r, p, x) < |Nodes(k, r)|
    ensures NodeAt(k, r, AggrPos(k, r, p, x)) == Node(SwitchNode, Aggr(AggrPos(k, r, p, x) + 1))
  {
    HalfFacts(k, r);
    SlotBelow(p, x, k);
  }

  /** Position C + p*k + k/2 + y, for y < k/2, holds an edge switch, the
      (p*(k/2) + y)-th one. */
  lemma EdgeNodeAt(k: nat, r: int, p: nat, y: nat)
    requires Validate(k, r) == None && p < k && y < Half(k)
    ensures EdgePos(k, r, p, y) < |Nodes(k, r)|
    ensures NodeAt(k, r, EdgePos(k, r, p, y)) == Node(SwitchNode, Edge(EdgePos(k, r, p, y) + 1))
    ensures 0 <= p * Half(k) && EdgeOf(k, r, p * Half(k) + y) == EdgePos(k, r, p, y)
  {
    HalfFacts(k, r);
    MulSign(p, Half(k));
    SlotBelow(p, Half(k) + y, k);
    DivModUnique(p * Half(k) + y, Half(k), p, y);
  }

  /** Where the pod phase adds the link from aggregation switch x to edge
      switch y of pod p. */
  function PodIndex(k: nat, p: nat, x: nat, y: nat): nat
  {
    p * (Half(k) * Half(k)) + x * Half(k) + y
  }

  /** Link p*(k/2)^2 + x*(k/2) + y joins aggregation switch x and edge
      switch y of pod p. */
  lemma PodLinkAt(k: nat, r: int, p: nat, x: nat, y: nat)
    requires Validate(k, r) == None && p < k && x < Half(k) && y < Half(k)
    ensures PodIndex(k, p, x, y) < |PodLinks(k, r)|
    ensures PodLinks(k, r)[PodIndex(k, p, x, y)] == Link(AggrPos(k, r, p, x), EdgePos(k, r, p, y))
  {
    HalfFacts(k, r);
    var h := Half(k);
    var w := x * h + y;
    assert w < h * h by {
      MulMono(x, h - 1, h);
      MulPred(h, h);
    }
    DivModUnique(p * (h * h) + w, h * h, p, w);
    DivModUnique(w, h, x, y);
    assert PodIndex(k, p, x, y) < HostCount(k) by {
      PodsDone(k, r);
      MulMono(p + 1, k, h * h);
      MulPred(p + 1, h * h);
    }
  }

  /** Link c*k + p of the core phase joins core c to pod p, at the position
      the constructor computes. */
  lemma CoreLinkAt(k: nat, r: int, c: nat, p: nat)
    requires Validate(k, r) == None && c < CoreCount(k, r) && p < k
    ensures r >= 1 && Group(k, r) >= 1
    ensures 0 <= c * k && c * k + p < |CoreLinks(k, r)|
    ensures Div(c, Group(k, r)) < Half(k)
    ensures CoreLinks(k, r)[c * k + p] == Link(c, AggrPos(k, r, p, Div(c, Group(k, r))))
    ensures AggrPos(k, r, p, Div(c, Group(k, r))) < CoreCount(k, r) + k * k
  {
    GroupPositive(k, r);
    MulSign(c, k);
    var j, cores := c * k + p, CoreCount(k, r);
    assert j < cores * k by {
      MulMono(c + 1, cores, k);
      MulPred(c + 1, k);
    }
    DivModUnique(j, k, c, p);
    CoreTarget(k, r, c, p);
    assert CoreLink(k, r, j) == Link(c, AggrPos(k, r, p, Div(c, Group(k, r))));
  }

  /** The aggregation switch a core link reaches lies inside the pod blocks. */
  lemma CoreTarget(k: nat, r: int, c: nat, p: nat)
    requires Validate(k, r) == None && c < CoreCount(k, r) && p < k
    ensures r >= 1 && Group(k, r) >= 1
    ensures Div(c, Group(k, r)) < Half(k)
    ensures Div(c, Group(k, r)) + k * p < k * k
  {
    Shape(k, r);
    var g := Group(k, r);
    DivBelow(c, g, Half(k));
    MulMono(p + 1, k, k);
    MulPred(p + 1, k);
  }

  /** The i-th host under the q-th edge switch is host q*(k/2) + i. */
  lemma HostAt(k: nat, r: int, q: nat, i: nat)
    requires Validate(k, r) == None && q < k * Half(k) && i < Half(k)
    ensures q * Half(k) + i < HostCount(k)
    ensures CoreCount(k, r) + k * k + q * Half(k) + i < |Nodes(k, r)|
    ensures Nodes(k, r)[CoreCount(k, r) + k * k + q * Half(k) + i] == Node(HostNode, FHost(q * Half(k) + i + 1))
    ensures HostLinks(k, r)[q * Half(k) + i] == Link(EdgeOf(k, r, q), CoreCount(k, r) + k * k + q * Half(k) + i)
    ensures EdgeOf(k, r, q) < CoreCount(k, r) + k * k
  {
    EdgeBound(k, r, q);
    HalfFacts(k, r);
    DivModUnique(q * Half(k) + i, Half(k), q, i);
    MulMono(q + 1, k * Half(k), Half(k));
    MulPred(q + 1, Half(k));
  }

  /** The q-th edge switch is a switch of pod q / (k/2). */
  lemma EdgeBound(k: nat, r: int, q: nat)
    requires Validate(k, r) == None && q < k * Half(k)
    ensures EdgeOf(k, r, q) < CoreCount(k, r) + k * k
  {
    HalfFacts(k, r);
    var p := Div(q, Half(k));
    DivBelow(q, Half(k), k);
    MulMono(p + 1, k, k);
    MulPred(p + 1, k);
  }

  /** The switches of pod p lie below the next pod's first position. */
  lemma PodBounds(k: nat, r: int, p: nat, x: nat, y: nat)
    requires Validate(k, r) == None && x < Half(k) && y < Half(k)
    ensures AggrPos(k, r, p, x) < CoreCount(k, r) + (p + 1) * k
    ensures EdgePos(k, r, p, y) < CoreCount(k, r) + (p + 1) * k
  {
    HalfFacts(k, r);
    MulPred(p + 1, k);
  }

  // ---------------------------------------------------------------------
  // Properties of the topology.

  predicate IsCore(x: Node)
  {
    x.kind == SwitchNode && x.name.Core?
  }

  predicate IsAggr(x: Node)
  {
    x.kind == SwitchNode && x.name.Aggr?
  }

  predicate IsEdge(x: Node)
  {
    x.kind == SwitchNode && x.name.Edge?
  }

  /** A position inside the pod blocks decodes to a unique (pod, slot). */
  lemma PodSlot(k: nat, p: nat, t: nat, p': nat, t': nat)
    requires t < k && t' < k
    ensures p * k + t == p' * k + t' <==> p == p' && t == t'
  {
    if p * k + t == p' * k + t' {
      PairUnique(p, t, p', t', k);
    }
  }

  /** The switches of pod b: k/2 aggregation switches, then k/2 edge ones. */
  lemma PodBlock(k: nat, r: int, b: nat)
    requires Validate(k, r) == None && b < k
    ensures var seg := Nodes(k, r)[CoreCount(k, r)..CoreCount(k, r) + k * k];
            |Block(seg, k, b)| == k &&
            forall i :: 0 <= i < k ==>
              (IsAggr(Block(seg, k, b)[i]) <==> i < Half(k)) &&
              (IsEdge(Block(seg, k, b)[i]) <==> Half(k) <= i)
  {
    var c := CoreCount(k, r);
    var nodes := Nodes(k, r);
    var seg := nodes[c..c + k * k];
    MulSign(b, k);
    assert b * k + k <= k * k by {
      MulMono(b + 1, k, k);
      MulPred(b + 1, k);
    }
    var blk := seg[b * k..b * k + k];
    assert Block(seg, k, b) == blk;
    forall i | 0 <= i < k
      ensures blk[i] == NodeAt(k, r, c + b * k + i)
      ensures Mod(b * k + i, k) == i
    {
      assert blk[i] == seg[b * k + i] == nodes[c + (b * k + i)];
      DivModUnique(b * k + i, k, b, i);
    }
  }

  /** n_core cores, k*(k/2) aggregation and as many edge switches, and
      k^3/4 hosts. */
  lemma NodeCounts(k: nat, r: int)
    requires Validate(k, r) == None
    ensures |Nodes(k, r)| == CoreCount(k, r) + k * Half(k) + k * Half(k) + HostCount(k)
    ensures Count(Nodes(k, r), IsCore) == CoreCount(k, r)
    ensures Count(Nodes(k, r), IsAggr) == k * Half(k)
    ensures Count(Nodes(k, r), IsEdge) == k * Half(k)
    ensures Count(Nodes(k, r), IsHost) == HostCount(k)
    ensures 4 * HostCount(k) == k * k * k
  {
    var c := CoreCount(k, r);
    var nodes := Nodes(k, r);
    HalfFacts(k, r);
    CountRange(nodes, IsCore, 0, c);
    CountRange(nodes, IsHost, c + k * k, |nodes|);
    PodCounts(k, r);
    MulDist(k, Half(k), Half(k));
    HostCube(k, r);
  }

  lemma HostCube(k: nat, r: int)
    requires Validate(k, r) == None
    ensures 4 * HostCount(k) == k * k * k
  {
    var h := Half(k);
    HalfFacts(k, r);
    assert k * k * k == (2 * h) * (2 * h) * (2 * h);
    assert (2 * h) * (2 * h) * (2 * h) == 8 * (h * h * h);
    assert HostCount(k) == (2 * h) * h * h;
  }

  /** The pod blocks hold k/2 aggregation and k/2 edge switches per pod. */
  lemma PodCounts(k: nat, r: int)
    requires Validate(k, r) == None
    ensures Count(Nodes(k, r), IsAggr) == k * Half(k)
    ensures Count(Nodes(k, r), IsEdge) == k * Half(k)
  {
    var c := CoreCount(k, r);
    var nodes := Nodes(k, r);
    var seg := nodes[c..c + k * k];
    forall b | 0 <= b < k
      ensures Count(Block(seg, k, b), IsAggr) == Half(k)
      ensures Count(Block(seg, k, b), IsEdge) == Half(k)
    {
      PodBlock(k, r, b);
      HalfFacts(k, r);
      CountRange(Block(seg, k, b), IsAggr, 0, Half(k));
      CountRange(Block(seg, k, b), IsEdge, Half(k), k);
    }
    CountWithin(nodes, IsAggr, c, c + k * k);
    CountWithin(nodes, IsEdge, c, c + k * k);
    CountBlocks(seg, IsAggr, k, k, Half(k));
    CountBlocks(seg, IsEdge, k, k, Half(k));
  }

  /** With r >= 1 there are (k/2)^2 / r core switches, exactly: 1/r of the
      non-blocking tree's (k/2)^2. With r < 0 there are none. */
  lemma CoreRatio(k: nat, r: int)
    requires Validate(k, r) == None
    ensures r >= 1 ==> CoreCount(k, r) * r == Half(k) * Half(k)
    ensures r < 0 ==> CoreCount(k, r) == 0
  {
    Shape(k, r);
    if r >= 1 {
      MulAssoc(Half(k), Group(k, r), r);
    }
  }

  /** No two nodes share a label. */
  lemma NamesDistinct(k: nat, r: int, j1: nat, j2: nat)
    requires Validate(k, r) == None && j1 < j2 < |Nodes(k, r)|
    ensures Nodes(k, r)[j1].name != Nodes(k, r)[j2].name
  {
  }
}
