// BCube(k, n): n^(k+1) hosts, then k+1 levels of n^k switches of n ports.
// Switch i of level l is wired to the hosts at positions
// m, m + n^l, ..., m + (n-1)*n^l with m = i % n^l + (i / n^l) * n^(l+1).
module BCube {
  import opened Arith
  import opened TopoGraph

  /** The two ValueErrors raised by the parameter check. */
  datatype BCubeError = NTooSmall | KNegative

  /** Parameter validation, in the order the constructor performs it. */
  function Validate(k: int, n: int): (r: Option<BCubeError>)
    ensures r == None <==> n >= 1 && k >= 0
    ensures r == Some(NTooSmall) <==> n < 1
  {
    if n < 1 then Some(NTooSmall)
    else if k < 0 then Some(KNegative)
    else None
  }

  // ---------------------------------------------------------------------
  // The topology as a function of (k, n): the node and link sequences.

  /** The number of hosts, n^(k+1). */
  function HostCount(k: nat, n: nat): nat
  {
    Pow(n, k + 1)
  }

  /** The number of switches on each level, n^k. */
  function PerLevel(k: nat, n: nat): nat
  {
    Pow(n, k)
  }

  /** Position of the t-th host of switch i on the given level. */
  function Target(n: nat, level: nat, i: nat, t: nat): nat
    requires n >= 1
  {
    var arg1 := Pow(n, level);
    var arg2 := Pow(n, level + 1);
    Mod(i, arg1) + Div(i, arg1) * arg2 + t * arg1
  }

  /** Node j: the hosts come first, then the switches level by level. */
  function NodeAt(k: nat, n: nat, j: nat): Node
    requires n >= 1
  {
    if j < HostCount(k, n) then Node(HostNode, BHost(j / n, j % n))
    else
      var s := j - HostCount(k, n);
      Node(SwitchNode, BSwitch(s / PerLevel(k, n), s % PerLevel(k, n)))
  }

  /** Link j: the (j % n)-th port of the (j / n)-th switch added. */
  function LinkAt(k: nat, n: nat, j: nat): Link
    requires n >= 1
  {
    var s := Div(j, n);
    Link(HostCount(k, n) + s, Target(n, Div(s, PerLevel(k, n)), Mod(s, PerLevel(k, n)), Mod(j, n)))
  }

  function Nodes(k: nat, n: nat): seq<Node>
    requires n >= 1
  {
    seq(HostCount(k, n) + (k + 1) * PerLevel(k, n), (j: int) requires j >= 0 => NodeAt(k, n, j))
  }

  function Links(k: nat, n: nat): seq<Link>
    requires n >= 1
  {
    seq((k + 1) * HostCount(k, n), (j: int) requires j >= 0 => LinkAt(k, n, j))
  }

  // ---------------------------------------------------------------------
  // The constructor.

  method Build(k: int, n: int) returns (g: Topo, err: Option<BCubeError>)
    ensures fresh(g) && g.Valid()
    ensures err == Validate(k, n)
    ensures err != None ==> g.nodes == [] && g.links == []
    ensures err == None ==> g.nodes == Nodes(k, n) && g.links == Links(k, n)
  {
    g := new Topo();
    if n < 1 {
      return g, Some(NTooSmall);
    }
    if k < 0 {
      return g, Some(KNegative);
    }
    err := None;
    var nHosts := Pow(n, k + 1);
    AddHosts(g, k, n, nHosts);
    AddLevels(g, k, n);
  }

  /** The level loop: levels 0..k, each adding n^k switches and their links. */
  method AddLevels(g: Topo, k: nat, n: nat)
    requires g.Valid() && n >= 1
    requires g.nodes == Nodes(k, n)[..HostCount(k, n)] && g.links == []
    modifies g
    ensures g.Valid() && g.nodes == Nodes(k, n) && g.links == Links(k, n)
  {
    ghost var perLevel := PerLevel(k, n);
    ghost var spec := Nodes(k, n);
    for level := 0 to k + 1
      invariant g.Valid()
      invariant |g.nodes| == HostCount(k, n) + level * perLevel
      invariant g.nodes <= spec
      invariant |g.links| == level * perLevel * n
      invariant forall j :: 0 <= j < |g.links| ==> g.links[j] == LinkAt(k, n, j)
    {
      AddLevel(g, k, n, level);
    }
    LevelsDone(k, n);
    LinksPointwise(k, n, g.links);
    assert g.nodes == spec;
  }

  /** The host loop: n^(k+1) hosts, host i labelled (i / n, i % n). */
  method AddHosts(g: Topo, k: nat, n: nat, nHosts: nat)
    requires g.Valid() && g.nodes == [] && g.links == []
    requires n >= 1 && nHosts == HostCount(k, n)
    modifies g
    ensures g.Valid() && g.links == []
    ensures g.nodes == Nodes(k, n)[..nHosts]
  {
    ghost var spec := Nodes(k, n);
    for i := 0 to nHosts
      invariant g.Valid() && g.links == []
      invariant g.nodes == spec[..i]
    {
      var _ := g.AddHost(BHost(i / n, i % n));
      assert spec[..i + 1] == spec[..i] + [spec[i]];
    }
  }

  /** One iteration of the level loop: n^k switches, each with its n links. */
  method AddLevel(g: Topo, k: nat, n: nat, level: nat)
    requires g.Valid() && n >= 1 && level <= k
    requires |g.nodes| == HostCount(k, n) + level * PerLevel(k, n)
    requires g.nodes <= Nodes(k, n)
    requires |g.links| == level * PerLevel(k, n) * n
    requires forall j :: 0 <= j < |g.links| ==> g.links[j] == LinkAt(k, n, j)
    modifies g
    ensures g.Valid()
    ensures |g.nodes| == HostCount(k, n) + (level + 1) * PerLevel(k, n)
    ensures g.nodes <= Nodes(k, n)
    ensures |g.links| == (level + 1) * PerLevel(k, n) * n
    ensures forall j :: 0 <= j < |g.links| ==> g.links[j] == LinkAt(k, n, j)
  {
    ghost var spec := Nodes(k, n);
    ghost var first := level * PerLevel(k, n);
    ghost var ord := first;
    var sid := 0;
    var arg1 := Pow(n, level);
    var arg2 := Pow(n, level + 1);
    for i := 0 to Pow(n, k)
      invariant g.Valid()
      invariant sid == i && ord == first + i
      invariant |g.nodes| == HostCount(k, n) + ord
      invariant g.nodes <= spec
      invariant |g.links| == ord * n
      invariant forall j :: 0 <= j < |g.links| ==> g.links[j] == LinkAt(k, n, j)
    {
      var sw := AddLevelSwitch(g, k, n, level, sid);
      sid := sid + 1;
      LinkSwitch(g, k, n, level, i, ord, sw, arg1, arg2);
      ord := ord + 1;
    }
    MulAdd(level, PerLevel(k, n), n);
    MulPred(level + 1, PerLevel(k, n));
  }

  /** Switch `sid` of the level, appended as the next node. */
  method AddLevelSwitch(g: Topo, k: nat, n: nat, level: nat, sid: nat) returns (sw: NodeId)
    requires g.Valid() && n >= 1 && level <= k && sid < PerLevel(k, n)
    requires |g.nodes| == HostCount(k, n) + level * PerLevel(k, n) + sid
    requires g.nodes <= Nodes(k, n)
    modifies g
    ensures g.Valid() && g.links == old(g.links)
    ensures sw == old(|g.nodes|) && |g.nodes| == sw + 1
    ensures g.nodes <= Nodes(k, n)
  {
    ghost var spec := Nodes(k, n);
    SwitchNodeAt(k, n, level, sid);
    MulMono(level + 1, k + 1, PerLevel(k, n));
    PrefixAppend(g.nodes, spec, Node(SwitchNode, BSwitch(level, sid)));
    sw := g.AddSwitch(BSwitch(level, sid));
  }

  /** The wiring of one switch (DCTopo.py:59-64): switch i of the level,
      the ord-th switch added, at position sw, is linked to the n hosts
      that start at m and step by n^level. */
  method LinkSwitch(g: Topo, k: nat, n: nat, level: nat, i: nat, ghost ord: nat, sw: NodeId,
                    arg1: nat, arg2: nat)
    requires g.Valid() && n >= 1 && level <= k && i < PerLevel(k, n)
    requires ord == level * PerLevel(k, n) + i
    requires sw == HostCount(k, n) + ord < |g.nodes|
    requires arg1 == Pow(n, level) && arg2 == Pow(n, level + 1)
    requires |g.links| == ord * n
    requires forall j :: 0 <= j < |g.links| ==> g.links[j] == LinkAt(k, n, j)
    modifies g
    ensures g.Valid() && g.nodes == old(g.nodes)
    ensures |g.links| == (ord + 1) * n
    ensures forall j :: 0 <= j < |g.links| ==> g.links[j] == LinkAt(k, n, j)
  {
    var m := i % arg1 + i / arg1 * arg2;
    var nodeslist := g.nodes;
    PowStep(n, level);
    assert arg2 == n * arg1;
    var v := m;
    ghost var t := 0;
    while v < m + arg2
      invariant 0 <= t <= n && v == m + t * arg1
      invariant g.Valid() && g.nodes == nodeslist
      invariant |g.links| == ord * n + t
      invariant forall j :: 0 <= j < |g.links| ==> g.links[j] == LinkAt(k, n, j)
      decreases n - t
    {
      Stride(t, n, arg1);
      TargetBound(k, n, level, i, t);
      LinkAtSwitch(k, n, level, i, t);
      g.AddLink(sw, v);
      v := v + arg1;
      t := t + 1;
    }
    Stride(t, n, arg1);
    Stride(ord, ord + 1, n);
  }

  /** After the last level: all nodes, and (k+1) * n^(k+1) links. */
  lemma LevelsDone(k: nat, n: nat)
    requires n >= 1
    ensures (k + 1) * PerLevel(k, n) * n == (k + 1) * HostCount(k, n)
    ensures HostCount(k, n) + (k + 1) * PerLevel(k, n) == |Nodes(k, n)|
  {
    PowStep(n, k);
    MulAssoc(k + 1, PerLevel(k, n), n);
  }

  lemma LinksPointwise(k: nat, n: nat, s: seq<Link>)
    requires n >= 1 && |s| == (k + 1) * HostCount(k, n)
    requires forall j :: 0 <= j < |s| ==> s[j] == LinkAt(k, n, j)
    ensures s == Links(k, n)
  {
  }

  // ---------------------------------------------------------------------
  // Index arithmetic behind the specification.

  lemma PowStep(n: nat, e: nat)
    ensures Pow(n, e + 1) == n * Pow(n, e)
  {
  }

  /** The powers of n a level works with: n^k = n^(k-level) * n^level and
      n^(k+1) = n^(k-level) * n^(level+1). */
  lemma Powers(k: nat, n: nat, level: nat)
    requires n >= 1 && level <= k
    ensures Pow(n, level) >= 1 && Pow(n, level + 1) == n * Pow(n, level)
    ensures PerLevel(k, n) == Pow(n, k - level) * Pow(n, level)
    ensures HostCount(k, n) == Pow(n, k - level) * (n * Pow(n, level))
    ensures HostCount(k, n) == PerLevel(k, n) * n
  {
    var lo, hi := Pow(n, level), Pow(n, k - level);
    PowAdd(n, level, k - level);
    assert level + (k - level) == k;
    assert Pow(n, k) == lo * hi;
    PowStep(n, k);
    PowStep(n, level);
    MulRotate(n, lo, hi);
  }

  /** Position H + level*n^k + i holds switch i of the given level. */
  lemma SwitchNodeAt(k: nat, n: nat, level: nat, i: nat)
    requires n >= 1 && level <= k && i < PerLevel(k, n)
    ensures NodeAt(k, n, HostCount(k, n) + level * PerLevel(k, n) + i) == Node(SwitchNode, BSwitch(level, i))
  {
    DivModUnique(level * PerLevel(k, n) + i, PerLevel(k, n), level, i);
  }

  /** Link number (level*n^k + i)*n + t is port t of switch i on the level. */
  lemma LinkAtSwitch(k: nat, n: nat, level: nat, i: nat, t: nat)
    requires n >= 1 && level <= k && i < PerLevel(k, n) && t < n
    ensures LinkAt(k, n, (level * PerLevel(k, n) + i) * n + t)
         == Link(HostCount(k, n) + level * PerLevel(k, n) + i, Target(n, level, i, t))
  {
    var s := level * PerLevel(k, n) + i;
    DivModUnique(s * n + t, n, s, t);
    DivModUnique(s, PerLevel(k, n), level, i);
  }

  /** The stride lookup never leaves the host block: every position a switch
      is wired to is below n^(k+1). */
  lemma TargetBound(k: nat, n: nat, level: nat, i: nat, t: nat)
    requires n >= 1 && level <= k && i < PerLevel(k, n) && t < n
    ensures Target(n, level, i, t) < HostCount(k, n)
  {
    Powers(k, n, level);
    StrideBound(i, t, Pow(n, level), n, Pow(n, k - level));
  }

  /** The inverse of the stride wiring: which switch of the level, and which
      of its ports, reaches host h. */
  function SlotSwitch(n: nat, level: nat, h: nat): nat
    requires n >= 1
  {
    Mod(h, Pow(n, level)) + Div(h, Pow(n, level + 1)) * Pow(n, level)
  }

  function SlotPort(n: nat, level: nat, h: nat): nat
    requires n >= 1
  {
    Mod(Div(h, Pow(n, level)), n)
  }

  /** Every host is reached on every level, by the switch and port that
      SlotSwitch and SlotPort name. */
  lemma SlotCovers(k: nat, n: nat, level: nat, h: nat)
    requires n >= 1 && level <= k && h < HostCount(k, n)
    ensures SlotSwitch(n, level, h) < PerLevel(k, n) && SlotPort(n, level, h) < n
    ensures Target(n, level, SlotSwitch(n, level, h), SlotPort(n, level, h)) == h
  {
    Powers(k, n, level);
    StrideCover(h, Pow(n, level), n, Pow(n, k - level));
  }

  /** A host is reached on a level by one switch and port only. */
  lemma SlotUnique(k: nat, n: nat, level: nat, i: nat, t: nat)
    requires n >= 1 && level <= k && i < PerLevel(k, n) && t < n
    ensures SlotSwitch(n, level, Target(n, level, i, t)) == i
    ensures SlotPort(n, level, Target(n, level, i, t)) == t
  {
    PowStep(n, level);
    StrideUnique(i, t, Pow(n, level), n);
  }

  /** Entry j of the level's block of links is port j % n of switch j / n
      of the level. */
  lemma LevelEntry(k: nat, n: nat, level: nat, j: nat)
    requires n >= 1 && level <= k && j < HostCount(k, n)
    ensures 0 <= level * HostCount(k, n) && level * HostCount(k, n) + HostCount(k, n) <= |Links(k, n)|
    ensures Div(j, n) < PerLevel(k, n)
    ensures Links(k, n)[level * HostCount(k, n) + j]
         == Link(HostCount(k, n) + level * PerLevel(k, n) + Div(j, n), Target(n, level, Div(j, n), Mod(j, n)))
  {
    var H, N := HostCount(k, n), PerLevel(k, n);
    MulSign(level, H);
    Powers(k, n, level);
    DivBelow(j, n, N);
    MulPred(level + 1, H);
    MulMono(level + 1, k + 1, H);
    assert level * H == (level * N) * n by { MulAssoc(level, N, n); }
    assert level * H + j == (level * N + Div(j, n)) * n + Mod(j, n);
    LinkAtSwitch(k, n, level, Div(j, n), Mod(j, n));
  }

  // ---------------------------------------------------------------------
  // Properties of the topology.

  /** n^(k+1) hosts at the positions below n^(k+1), followed by
      (k+1)*n^k switches. */
  lemma NodeCounts(k: nat, n: nat)
    requires n >= 1
    ensures |Nodes(k, n)| == Pow(n, k + 1) + (k + 1) * Pow(n, k)
    ensures forall j :: 0 <= j < |Nodes(k, n)| ==>
              (Nodes(k, n)[j].kind == HostNode <==> j < Pow(n, k + 1))
    ensures Count(Nodes(k, n), IsHost) == Pow(n, k + 1)
    ensures Count(Nodes(k, n), IsSwitch) == (k + 1) * Pow(n, k)
  {
    var nodes := Nodes(k, n);
    CountRange(nodes, IsHost, 0, HostCount(k, n));
    CountRange(nodes, IsSwitch, HostCount(k, n), |nodes|);
  }

  /** (k+1)*n^(k+1) links, n per switch. */
  lemma LinkCount(k: nat, n: nat)
    requires n >= 1
    ensures |Links(k, n)| == (k + 1) * Pow(n, k + 1) == ((k + 1) * Pow(n, k)) * n
  {
    PowStep(n, k);
    MulRotate(k + 1, n, Pow(n, k));
  }

  /** Every link joins a switch (its first endpoint, the switch added
      (j / n)-th) to a host: the positional lookup always finds a host. */
  lemma LinkEnds(k: nat, n: nat, j: nat)
    requires n >= 1 && j < |Links(k, n)|
    ensures Links(k, n)[j].a == HostCount(k, n) + j / n
    ensures j / n < (k + 1) * PerLevel(k, n)
    ensures Links(k, n)[j].b < HostCount(k, n)
    ensures Nodes(k, n)[Links(k, n)[j].a].kind == SwitchNode
    ensures Nodes(k, n)[Links(k, n)[j].b].kind == HostNode
  {
    LinkCount(k, n);
    var s := j / n;
    DivBelow(j, n, (k + 1) * PerLevel(k, n));
    DivBelow(s, PerLevel(k, n), k + 1);
    TargetBound(k, n, Div(s, PerLevel(k, n)), Mod(s, PerLevel(k, n)), Mod(j, n));
  }

  /** On each level the switches' host sets partition the hosts: every host
      is wired to exactly one (switch, port) pair of the level. */
  lemma LevelPartition(k: nat, n: nat, level: nat, i: nat, t: nat, i': nat, t': nat)
    requires n >= 1 && level <= k
    requires i < PerLevel(k, n) && t < n && i' < PerLevel(k, n) && t' < n
    ensures Target(n, level, i, t) == Target(n, level, i', t') <==> i == i' && t == t'
  {
    SlotUnique(k, n, level, i, t);
    SlotUnique(k, n, level, i', t');
  }

  /** Every switch has exactly n links. */
  lemma SwitchDegree(k: nat, n: nat, s: nat)
    requires n >= 1 && s < (k + 1) * PerLevel(k, n)
    ensures Degree(Links(k, n), HostCount(k, n) + s) == n
  {
    var links := Links(k, n);
    var v := HostCount(k, n) + s;
    LinkCount(k, n);
    MulPred(s + 1, n);
    MulMono(s + 1, (k + 1) * PerLevel(k, n), n);
    forall j | 0 <= j < |links|
      ensures TouchesOf(v)(links[j]) <==> s * n <= j < s * n + n
    {
      LinkEnds(k, n, j);
      DivRange(j, n, s);
    }
    CountRange(links, TouchesOf(v), s * n, s * n + n);
  }

  /** The level's block of links, entry by entry. */
  lemma BlockEntry(k: nat, n: nat, level: nat, j: nat)
    requires n >= 1 && level <= k && j < HostCount(k, n)
    ensures |Block(Links(k, n), HostCount(k, n), level)| == HostCount(k, n)
    ensures Div(j, n) < PerLevel(k, n)
    ensures Block(Links(k, n), HostCount(k, n), level)[j]
         == Link(HostCount(k, n) + level * PerLevel(k, n) + Div(j, n), Target(n, level, Div(j, n), Mod(j, n)))
  {
    LevelEntry(k, n, level, j);
  }

  /** The link position, within the level's block, of the slot reaching h. */
  lemma SlotIndex(k: nat, n: nat, level: nat, h: nat)
    requires n >= 1 && level <= k && h < HostCount(k, n)
    ensures SlotSwitch(n, level, h) * n + SlotPort(n, level, h) < HostCount(k, n)
    ensures Div(SlotSwitch(n, level, h) * n + SlotPort(n, level, h), n) == SlotSwitch(n, level, h)
    ensures Mod(SlotSwitch(n, level, h) * n + SlotPort(n, level, h), n) == SlotPort(n, level, h)
    ensures Target(n, level, SlotSwitch(n, level, h), SlotPort(n, level, h)) == h
  {
    var i, t := SlotSwitch(n, level, h), SlotPort(n, level, h);
    SlotCovers(k, n, level, h);
    Powers(k, n, level);
    MulMono(i, PerLevel(k, n) - 1, n);
    MulPred(PerLevel(k, n), n);
    DivModUnique(i * n + t, n, i, t);
  }

  /** On each level exactly one link reaches host h. */
  lemma LevelDegree(k: nat, n: nat, level: nat, h: nat)
    requires n >= 1 && level <= k && h < HostCount(k, n)
    ensures Count(Block(Links(k, n), HostCount(k, n), level), TouchesOf(h)) == 1
  {
    var blk := Block(Links(k, n), HostCount(k, n), level);
    var w := SlotSwitch(n, level, h) * n + SlotPort(n, level, h);
    SlotIndex(k, n, level, h);
    BlockEntry(k, n, level, w);
    forall j | 0 <= j < |blk| && j != w
      ensures !TouchesOf(h)(blk[j])
    {
      BlockEntry(k, n, level, j);
      LevelMiss(k, n, level, h, j);
      SlotIndex(k, n, level, h);
    }
    CountOne(blk, TouchesOf(h), w);
  }

  /** Only the slot's own link of the level's block reaches h. */
  lemma LevelMiss(k: nat, n: nat, level: nat, h: nat, j: nat)
    requires n >= 1 && level <= k && j < HostCount(k, n)
    ensures Div(j, n) < PerLevel(k, n)
    ensures Target(n, level, Div(j, n), Mod(j, n)) == h ==>
              j == SlotSwitch(n, level, h) * n + SlotPort(n, level, h)
  {
    Powers(k, n, level);
    DivBelow(j, n, PerLevel(k, n));
    SlotUnique(k, n, level, Div(j, n), Mod(j, n));
    DivMod(j, n);
  }

  /** Every host has exactly k+1 links, one per level. */
  lemma HostDegree(k: nat, n: nat, h: nat)
    requires n >= 1 && h < HostCount(k, n)
    ensures Degree(Links(k, n), h) == k + 1
  {
    forall level | 0 <= level < k + 1
      ensures Count(Block(Links(k, n), HostCount(k, n), level), TouchesOf(h)) == 1
    {
      LevelDegree(k, n, level, h);
    }
    CountBlocks(Links(k, n), TouchesOf(h), HostCount(k, n), k + 1, 1);
  }

  /** No two nodes share a label. */
  lemma NamesDistinct(k: nat, n: nat, j1: nat, j2: nat)
    requires n >= 1 && j1 < j2 < |Nodes(k, n)|
    ensures Nodes(k, n)[j1].name != Nodes(k, n)[j2].name
  {
    var H, N := HostCount(k, n), PerLevel(k, n);
    if j2 < H {
      DivModInjective(j1, j2, n);
    } else if j1 >= H {
      DivModInjective(j1 - H, j2 - H, N);
    }
  }

  /** BCube_0 is n hosts attached to a single n-port switch. */
  lemma LevelZeroStar(n: nat)
    requires n >= 1
    ensures |Nodes(0, n)| == n + 1 && Nodes(0, n)[n] == Node(SwitchNode, BSwitch(0, 0))
    ensures |Links(0, n)| == n
    ensures forall t :: 0 <= t < n ==> Links(0, n)[t] == Link(n, t)
  {
    assert Pow(n, 0) == 1 && Pow(n, 1) == n;
    SwitchNodeAt(0, n, 0, 0);
    forall t | 0 <= t < n
      ensures Links(0, n)[t] == Link(n, t)
    {
      LinkAtSwitch(0, n, 0, 0, t);
    }
  }

  /** The recursive structure: on a level l below k, switch b * n^(k-1) + i
      of BCube(k, n) wires the hosts that switch i wires in BCube(k-1, n),
      shifted into the b-th block of n^k hosts. Levels 0..k-1 restricted to
      that block are therefore a copy of BCube(k-1, n). */
  lemma SubCube(k: nat, n: nat, l: nat, b: nat, i: nat, t: nat)
    requires n >= 1 && k >= 1 && l < k && b < n && i < Pow(n, k - 1) && t < n
    ensures b * Pow(n, k - 1) + i < PerLevel(k, n)
    ensures Target(n, l, b * Pow(n, k - 1) + i, t) == b * Pow(n, k) + Target(n, l, i, t)
  {
    var a, big, c := Pow(n, l), Pow(n, l + 1), Pow(n, k - 1 - l);
    assert Pow(n, k - 1) == c * a by { PowAdd(n, k - 1 - l, l); }
    assert Pow(n, k) == c * big by { PowAdd(n, k - 1 - l, l + 1); }
    assert b * Pow(n, k - 1) + i < PerLevel(k, n) by {
      var p := Pow(n, k - 1);
      MulMono(b + 1, n, p);
      MulPred(b + 1, p);
      assert PerLevel(k, n) == n * p by { PowStep(n, k - 1); }
    }
    BlockShift(b, c, a, big, i, t);
  }

  /** The top level: switch i of level k reaches host i of each of the n
      blocks of n^k hosts, one through each port. */
  lemma TopLevel(k: nat, n: nat, i: nat, t: nat)
    requires n >= 1 && i < Pow(n, k) && t < n
    ensures Target(n, k, i, t) == i + t * Pow(n, k)
    ensures Target(n, k, i, t) / Pow(n, k) == t && Target(n, k, i, t) % Pow(n, k) == i
  {
    DivModUnique(i, Pow(n, k), 0, i);
    DivModUnique(i + t * Pow(n, k), Pow(n, k), t, i);
  }

  /** The switch count the class documentation states: n * (k + 1). */
  function DocumentedSwitchCount(k: nat, n: nat): nat
  {
    n * (k + 1)
  }

  /** The documented count agrees with the switches the constructor builds,
      (k+1) * n^k, only for k == 1 or n == 1. */
  lemma DocumentedSwitchMismatch(k: nat, n: nat)
    requires n >= 1
    ensures Count(Nodes(k, n), IsSwitch) == DocumentedSwitchCount(k, n) <==> k == 1 || n == 1
  {
    NodeCounts(k, n);
    PowIsBase(n, k);
    if Pow(n, k) != n {
      if Pow(n, k) < n {
        MulLess(Pow(n, k), n, k + 1);
      } else {
        MulLess(n, Pow(n, k), k + 1);
      }
    }
  }

  /** BCube(2, 2) has 12 switches, not the documented 6. */
  lemma DocumentedSwitchCounterexample()
    ensures DocumentedSwitchCount(2, 2) == 6
    ensures Count(Nodes(2, 2), IsSwitch) == 12
  {
    NodeCounts(2, 2);
    assert Pow(2, 2) == 4;
  }
}
