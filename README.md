# DCTopo in Dafny

`DCTopo.py` defines two data-center topologies for the Mininet network
emulator, plus a registry that lets them be chosen by name:

- **BCube(k, n)**: n^(k+1) hosts and k+1 levels of n^k switches. Each switch
  has n ports. At level `level`, switch `i` is wired to the hosts
  `m, m + n^level, …, m + (n-1)·n^level`, where
  `m = i mod n^level + (i div n^level)·n^(level+1)`.
- **Fat-Tree(k, r)**, for k-port switches and an oversubscription ratio r:
  `(k/2)^2 / r` core switches, then k pods of k/2 aggregation and k/2 edge
  switches, then k/2 hosts under every edge switch. Each pod has all its
  aggregation–edge links, and each core switch has one uplink into every pod.
- **topos**: the dictionary `{'bcube': BCubeTopo, 'fattree': FatTreeTopo}`.

This project models the two constructors as imperative Dafny methods that fill
an append-only graph (`TopoGraph.Topo`, standing in for Mininet's `Topo`).
Each method is proved to produce exactly the nodes and links of a
specification function: `BCube.Nodes`/`BCube.Links` and
`FatTree.Nodes`/`FatTree.Links`. Lemmas about those functions prove what the
docstrings promise:

- node counts per kind;
- the degree of every switch and host;
- that every link joins the right kinds of node;
- that every index the code dereferences is in range;
- that node labels are distinct.

Node identities are positions in insertion order. The model assumes that
`Topo.nodes()` lists the nodes in that order; the BCube code's lookup
`nodeslist[v]` relies on it.

Modules, one per file:

| file | module | contents |
|---|---|---|
| `Arith.dfy` | `Arith` | powers, Python's floor division and modulo, div/mod uniqueness facts |
| `TopoGraph.dfy` | `TopoGraph` | the `Topo` class, node and link datatypes, degree as a count |
| `BCube.dfy` | `BCube` | validation, specification functions, `Build` and its loops, properties |
| `FatTree.dfy` | `FatTree` | validation, specification functions, `Build` and its loops, positions, counts |
| `FatTreeLinks.dfy` | `FatTreeLinks` | the Fat-Tree's link properties, kept apart from `FatTree` only to keep each file's proofs small: decoding of links, their ends, and the degree of every node |
| `Registry.dfy` | `Registry` | the name-to-constructor map, default arguments, `Create` |
| `Examples.dfy` | `Examples` | concrete instances: small BCubes and Fat-Trees, validation order |

Arithmetic follows the source exactly:

- Python's `//` and `%` are floor operations, modelled by `Arith.FloorDiv` and
  `Arith.FloorMod`.
- The Python 2 `/` on integers (`i / n`, `i / arg1`, `k / 2`) is `Div`. Every
  operand it sees is non-negative.
- Fat-Tree validation keeps the source's order. The divisibility test
  `k // 2 % r` runs before the parity test, so r = 0 is the error of that
  test (`ZeroRatio`, Python's ZeroDivisionError). The divisibility failure
  takes precedence over a bad k.
- A negative r that divides k/2 passes validation. `(k/2)^2 // r` is then
  negative, `xrange` of it is empty, and the tree is built with no core
  switches. The model builds the same tree (`Examples.FatTreeNegativeRatio`).
  The docstring reads as if r >= 1 were required. The code does not
  require it, and the model follows the code.
- The core-link target `n_core + c // ((k/2) // r) + k·pod` includes the
  `n_core` offset, as the code does.

## Model

| member | source | states |
|---|---|---|
| TopoGraph.Topo.constructor | DCTopo.py:34 | a new topology has no nodes and no links |
| TopoGraph.Topo.AddHost | DCTopo.py:47 | appends one host node; its id is the previous node count; links unchanged |
| TopoGraph.Topo.AddSwitch | DCTopo.py:57 | appends one switch node; its id is the previous node count; links unchanged |
| TopoGraph.Topo.AddLink | DCTopo.py:64 | appends the link (a, b) between two existing nodes; nodes unchanged; every link stays between existing nodes |
| BCube.Validate | DCTopo.py:39-42 | accepted exactly when n >= 1 and k >= 0; n < 1 is reported first, even when k < 0 too |
| BCube.Build | DCTopo.py:30-64 | the error is Validate's; on error the graph is empty; otherwise the graph holds exactly Nodes(k, n) and Links(k, n) |
| BCube.AddHosts | DCTopo.py:45-47 | adds the n^(k+1) hosts h<i div n>_<i mod n> in order, and no links |
| BCube.AddLevels | DCTopo.py:50-64 | after the host phase, the level loop completes the graph to exactly Nodes(k, n) and Links(k, n) |
| BCube.AddLevel | DCTopo.py:51-64 | one level adds n^k switches and n links per switch; nodes and links stay prefixes of the specification |
| BCube.AddLevelSwitch | DCTopo.py:57 | the new switch s<level>_<sid> lands at the position the specification gives it |
| BCube.LinkSwitch | DCTopo.py:59-64 | the inner loop adds the switch's n links to hosts m, m + n^level, …, each one matching LinkAt |
| BCube.LevelsDone | DCTopo.py:50-55 | k+1 levels of n^k switches with n links each make (k+1)·n^(k+1) links and complete the node list |
| BCube.Powers | DCTopo.py:52-55 | arg2 = n·arg1, and n^k switches per level times n ports equal n^(k+1) hosts |
| BCube.SwitchNodeAt | DCTopo.py:57 | the i-th switch of a level is s<level>_<i>, at position hosts + level·n^k + i |
| BCube.LinkAtSwitch | DCTopo.py:59-64 | link t of switch i at a level joins that switch to host m + t·n^level |
| BCube.TargetBound | DCTopo.py:59-64 | every host index the wiring computes is below n^(k+1), so `nodeslist[v]` is in range |
| BCube.SlotCovers | DCTopo.py:59-60 | every host is reached at every level, by a switch and port that are computed from it |
| BCube.SlotUnique | DCTopo.py:59-60 | from the host reached, the switch and the port are recovered |
| BCube.LevelPartition | DCTopo.py:59-60 | two (switch, port) pairs of one level reach the same host if and only if they are equal |
| BCube.LevelEntry | DCTopo.py:50-64 | link level·n^(k+1) + j joins switch j div n of that level to the host computed from it |
| BCube.LevelDegree | DCTopo.py:59-64 | within one level, each host is attached to exactly one link |
| BCube.NodeCounts | DCTopo.py:19-20 | n^(k+1) + (k+1)·n^k nodes; the hosts come first; n^(k+1) hosts and (k+1)·n^k switches |
| BCube.LinkCount | DCTopo.py:50-64 | there are (k+1)·n^(k+1) links, n for every switch |
| BCube.LinkEnds | DCTopo.py:57-64 | every link joins a switch node (its first end) to a host node (its second end) |
| BCube.SwitchDegree | DCTopo.py:20 | every switch has exactly n links (n ports) |
| BCube.HostDegree | DCTopo.py:19 | every host has exactly k+1 links, one per level |
| BCube.NamesDistinct | DCTopo.py:47-57 | no two nodes carry the same label |
| BCube.LevelZeroStar | DCTopo.py:13-14 | BCube_0 is n hosts joined to one switch, s0_0, by links (switch, host t) |
| BCube.SubCube | DCTopo.py:15-16 | on each level below k, switch b·n^(k-1) + i of BCube(k, n) reaches the host that switch i reaches in BCube(k-1, n), shifted by b·n^k: the levels below k form n copies of BCube(k-1, n), one per block of n^k hosts |
| BCube.TopLevel | DCTopo.py:15-16 | switch i of the top level k reaches, through port t, host i of block t; so each of the n^k top switches joins the n copies of BCube(k-1, n) |
| BCube.DocumentedSwitchMismatch | DCTopo.py:20 | the documented switch count n·(k+1) equals the built count if and only if k = 1 or n = 1 |
| BCube.DocumentedSwitchCounterexample | DCTopo.py:20 | for k = 2, n = 2 the documented count is 6 but 12 switches are built |
| Arith.FloorDivMod | DCTopo.py:103-109 | FloorDiv and FloorMod are Python's floor `//` and `%`: the quotient is the floor of x / d, and the remainder has the sign of d |
| FatTree.Validate | DCTopo.py:103-106 | accepted exactly when r ≠ 0, r divides k/2 and k is a positive even number; r = 0 fails at the divisibility test; that test's failure wins over a bad k |
| FatTree.Build | DCTopo.py:87-147 | the error is Validate's; on error the graph is empty; otherwise the graph holds exactly Nodes(k, r) and Links(k, r) |
| FatTree.AddCores | DCTopo.py:109-113 | adds the (k/2)^2 // r core switches c1, c2, … and no links; the list s records their positions |
| FatTree.AddPod | DCTopo.py:116-133 | one pod adds k switches and (k/2)^2 links, staying a prefix of the specification; s and e grow accordingly |
| FatTree.AddAggrs | DCTopo.py:117-126 | adds the pod's k/2 aggregation switches, numbered from len(s)+1 |
| FatTree.AddEdges | DCTopo.py:119-130 | adds the pod's k/2 edge switches after them and records each in e |
| FatTree.PodWire | DCTopo.py:131-133 | links one aggregation switch to each of the pod's k/2 edge switches |
| FatTree.AddPodLink | DCTopo.py:133 | the link s[aa-1]–s[ee-1] is the next pod link of the specification |
| FatTree.AddCoreLinks | DCTopo.py:136-139 | after the pods, the core loop appends exactly CoreLinks(k, r) |
| FatTree.CoreWire | DCTopo.py:137-139 | core switch c gets one link into every pod, each matching the specification |
| FatTree.AddHosts | DCTopo.py:142-147 | the host loop completes the graph to exactly Nodes(k, r) and Links(k, r) |
| FatTree.EdgeHosts | DCTopo.py:144-147 | each edge switch gets k/2 new hosts and one link to each; count advances by k/2 |
| FatTree.AddFatHost | DCTopo.py:145 | host h<count> lands at the position the specification gives it |
| FatTree.AddHostLink | DCTopo.py:146 | the edge-to-host link is the next link of the specification |
| FatTree.AggrNodeAt | DCTopo.py:117-126 | aggregation switch x of pod p is labelled a<position+1> and sits inside the node list |
| FatTree.EdgeNodeAt | DCTopo.py:119-130 | edge switch y of pod p is labelled e<position+1>, and it is entry p·k/2 + y of e |
| FatTree.PodLinkAt | DCTopo.py:131-133 | the pod link at index (p, x, y) joins aggregation switch x to edge switch y of pod p |
| FatTree.CoreLinkAt | DCTopo.py:136-139 | core link c·k + p joins core c to aggregation switch c div ((k/2)/r) of pod p |
| FatTree.CoreTarget | DCTopo.py:138 | the computed aggr_node is an aggregation position inside s, so `s[aggr_node]` is in range |
| FatTree.HostAt | DCTopo.py:142-147 | host i under the q-th edge switch is h<q·k/2+i+1>, linked to that edge switch |
| FatTree.EdgeBound | DCTopo.py:143 | every entry of e is a switch position below the pod switches' end |
| FatTree.PodBounds | DCTopo.py:117-122 | a pod's aggregation and edge positions lie inside that pod's block of k |
| FatTree.NodeCounts | DCTopo.py:108-147 | the node list holds CoreCount(k, r) cores ((k/2)^2 // r for r >= 1, none for r < 0), k·k/2 aggregation, k·k/2 edge switches and k^3/4 hosts |
| FatTree.HostCube | DCTopo.py:69-70 | the tree has k^3/4 hosts |
| FatTree.PodCounts | DCTopo.py:70-71 | k pods of k/2 aggregation and k/2 edge switches |
| FatTree.NamesDistinct | DCTopo.py:111-145 | no two nodes carry the same label |
| FatTree.CoreRatio | DCTopo.py:73-77 | with r >= 1 there are (k/2)^2 / r core switches (a 1/r share); with r < 0, none |
| FatTreeLinks.PodDecode | DCTopo.py:131-133 | every pod link is the link of some pod p, aggregation x and edge y |
| FatTreeLinks.PodIndexUnique | DCTopo.py:131-133 | distinct (p, x, y) give distinct pod-link indices |
| FatTreeLinks.CoreDecode | DCTopo.py:136-139 | every core link is the link of some core c and pod p, at index c·k + p |
| FatTreeLinks.HostDecode | DCTopo.py:142-147 | every host link j joins edge switch j div (k/2) to host j |
| FatTreeLinks.AggrEdgeDistinct | DCTopo.py:117-122 | no aggregation position is also an edge position |
| FatTreeLinks.AggrPosUnique | DCTopo.py:117-124 | aggregation positions are equal if and only if pod and index are |
| FatTreeLinks.EdgePosUnique | DCTopo.py:119-128 | edge positions are equal if and only if pod and index are |
| FatTreeLinks.PodLinkEnds | DCTopo.py:131-133 | every pod link joins an aggregation switch to an edge switch of the same pod |
| FatTreeLinks.CoreLinkEnds | DCTopo.py:136-139 | every core link joins a core switch to an aggregation switch |
| FatTreeLinks.HostLinkEnds | DCTopo.py:142-147 | every host link joins an edge switch to a host |
| FatTreeLinks.DegreeSplit | DCTopo.py:115-147 | a node's degree is the sum of its degrees in the pod, core and host phases |
| FatTreeLinks.PodPhaseMisses | DCTopo.py:131-133 | pod links touch only aggregation and edge switches |
| FatTreeLinks.CorePhaseMisses | DCTopo.py:136-139 | core links touch only core and aggregation switches |
| FatTreeLinks.HostPhaseMisses | DCTopo.py:142-147 | host links touch only edge switches and hosts |
| FatTreeLinks.CoreUplinks | DCTopo.py:136-139 | each core switch gets exactly k links in the core phase |
| FatTreeLinks.CoreDegree | DCTopo.py:73-74 | every core switch has degree k, one link to an aggregation switch of each pod |
| FatTreeLinks.HostUplink | DCTopo.py:142-147 | each host gets exactly one link in the host phase |
| FatTreeLinks.HostDegree | DCTopo.py:72-73 | every host has degree 1 |
| FatTreeLinks.EdgeUplinks | DCTopo.py:131-133 | each edge switch is linked to the pod's k/2 aggregation switches |
| FatTreeLinks.EdgeHostLinks | DCTopo.py:142-147 | each edge switch is linked to k/2 hosts |
| FatTreeLinks.EdgeDegree | DCTopo.py:71-73 | every edge switch has degree k: k/2 aggregation switches and k/2 hosts |
| FatTreeLinks.AggrDownlinks | DCTopo.py:131-133 | each aggregation switch is linked to the pod's k/2 edge switches |
| FatTreeLinks.AggrUplinks | DCTopo.py:136-139 | each aggregation switch gets (k/2)/r core links if r >= 1, else none |
| FatTreeLinks.AggrCoreRun | DCTopo.py:136-139 | with r >= 1, the core links of one aggregation switch number (k/2)/r |
| FatTreeLinks.AggrDegree | DCTopo.py:71-77 | every aggregation switch has degree k/2 + (k/2)/r, which is k when r = 1 |
| Registry.Create | DCTopo.py:150 | an unknown name fails with an empty graph; a known name runs its constructor on the given or default arguments, with that constructor's error and exact graph |
| Registry.ToposNames | DCTopo.py:150 | the registry holds exactly 'bcube' and 'fattree' |
| Registry.DefaultsValid | DCTopo.py:30 | both constructors' default arguments pass validation: k=1, n=4 here, and k=2, r=1 at line 87 |
| Examples.BCubeZeroTwo | DCTopo.py:13-14 | BCube(0, 2): 2 hosts and 1 switch, links (2, 0) and (2, 1) |
| Examples.BCubeOneTwo | DCTopo.py:18-20 | BCube(1, 2): 4 hosts, 4 switches, every node of degree 2 |
| Examples.BCubeValidationOrder | DCTopo.py:39-42 | n is checked before k |
| Examples.FatTreeFourOne | DCTopo.py:69-74 | Fat-Tree(4, 1): 4 cores, 8 aggregation, 8 edge switches, 16 hosts, core degree 4 |
| Examples.FatTreeFourTwo | DCTopo.py:75-77 | Fat-Tree(4, 2) is accepted, has 2 cores, and its first aggregation switch has degree 3 (2 edge links, 1 core link) |
| Examples.FatTreeValidationOrder | DCTopo.py:103-106 | (3, 2) fails divisibility; (3, 1) and (0, 1) fail parity; (4, 0) fails on the zero ratio |
| Examples.FatTreeNegativeRatio | DCTopo.py:103-110 | Fat-Tree(4, -1) is accepted, has no cores, and its aggregation switches have degree 2 |

## Left out

- Mininet itself (`mininet.topo.Topo`) is not part of this model. `TopoGraph.Topo` keeps only the ordered node list, the link list, `addHost`, `addSwitch`, `addLink` and `nodes()`. Link and node option dictionaries, ports and the emulation are not modelled.
- Linking a node that was never added is Mininet's error. In the model it is a precondition of `AddLink`, and both generators are proved to meet it.
- The `isinstance` checks that raise TypeError (DCTopo.py:37-38, 99-102) are not modelled, because the parameters are typed integers.
- Node labels are a structured `Name` datatype rather than formatted strings. The numbers inside them are the ones the code formats.
- The Fat-Tree lists `c` and `a` (DCTopo.py:90-91) are filled but never read, so they are not modelled. `s` and `e` are modelled.
- The command-line parsing that turns `--topo=name,arg1,arg2` into a constructor call is not modelled. Arguments arrive as optional integers.
- Python 2's `xrange` is a bounded loop, and its laziness is not modelled.
- Mininet's `Topo.nodes()` sorts node names in natural order by default. The model lists nodes in insertion order instead. For BCube the two orders agree, because the labels h<a>_<b> and s<l>_<i> sort in the order they are added; for Fat-Tree they do not. The Fat-Tree code looks switches up through its own list `s`, not through `nodes()`, so its graph is unaffected.
- BCube.Build: the model has no sys.maxint bound. Python 2's `xrange` accepts only C-long bounds, so when n^(k+1) exceeds sys.maxint (BCube(63, 2), say) DCTopo.py:46 raises OverflowError before any host is added. The model builds that graph. Likewise `isinstance(x, int)` at DCTopo.py:37 rejects Python 2 `long` arguments, which the model accepts.
- FatTree.Build: the model has no sys.maxint bound. When (k//2)**2 // r exceeds sys.maxint, `xrange` at DCTopo.py:110 raises OverflowError. The model builds that graph. Likewise `isinstance` at DCTopo.py:99 and 101 rejects Python 2 `long` arguments, which the model accepts.

## Findings

| source | as written | input that shows it | evidently intended | confidence | as-written member | corrected member |
|---|---|---|---|---|---|---|
| DCTopo.py:20 | the docstring says BCube has n·(k+1) switches | k = 2, n = 2: the docstring says 6, but the code builds (k+1)·n^k = 12; it is also wrong for k = 0 with n >= 2 | (k+1)·n^k switches, n^k per level, as the code at DCTopo.py:50-57 builds | not executed | BCube.DocumentedSwitchMismatch | BCube.NodeCounts |
