// The append-only graph that both generators populate: a stand-in for the
// network emulator's topology object. Nodes are identified by their position
// in insertion order; a link is a pair of such positions.
module TopoGraph {
  import opened Arith

  datatype Option<T> = None | Some(value: T)

  datatype Kind = HostNode | SwitchNode

  /** Node labels, kept structured instead of formatted into strings. */
  datatype Name =
    | BHost(group: int, index: int)   // BCube host    h<group>_<index>
    | BSwitch(level: int, sid: int)   // BCube switch  s<level>_<sid>
    | Core(num: int)                  // Fat-Tree core switch         c<num>
    | Aggr(num: int)                  // Fat-Tree aggregation switch  a<num>
    | Edge(num: int)                  // Fat-Tree edge switch         e<num>
    | FHost(num: int)                 // Fat-Tree host                h<num>

  datatype Node = Node(kind: Kind, name: Name)

  type NodeId = nat

  predicate IsHost(x: Node)
  {
    x.kind == HostNode
  }

  predicate IsSwitch(x: Node)
  {
    x.kind == SwitchNode
  }

  /** An undirected link, recorded with the endpoints in the order given. */
  datatype Link = Link(a: NodeId, b: NodeId)

  predicate Touches(l: Link, v: NodeId)
  {
    l.a == v || l.b == v
  }

  /** Every link names nodes below `count`, i.e. nodes already present. */
  ghost predicate LinksWithin(links: seq<Link>, count: nat)
  {
    forall j :: 0 <= j < |links| ==> links[j].a < count && links[j].b < count
  }

  /** The touching predicate as a value, so that Degree is a Count. */
  function TouchesOf(v: NodeId): Link -> bool
  {
    l => Touches(l, v)
  }

  /** The number of links attached to v (its port count). */
  function Degree(links: seq<Link>, v: NodeId): nat
  {
    Count(links, TouchesOf(v))
  }

  class Topo {
    var nodes: seq<Node>
    var links: seq<Link>

    ghost predicate Valid()
      reads this
    {
      LinksWithin(links, |nodes|)
    }

    constructor ()
      ensures Valid()
      ensures nodes == [] && links == []
    {
      nodes := [];
      links := [];
    }

    method AddHost(name: Name) returns (id: NodeId)
      requires Valid()
      modifies this
      ensures Valid()
      ensures id == |old(nodes)|
      ensures nodes == old(nodes) + [Node(HostNode, name)]
      ensures links == old(links)
    {
      id := |nodes|;
      nodes := nodes + [Node(HostNode, name)];
    }

    method AddSwitch(name: Name) returns (id: NodeId)
      requires Valid()
      modifies this
      ensures Valid()
      ensures id == |old(nodes)|
      ensures nodes == old(nodes) + [Node(SwitchNode, name)]
      ensures links == old(links)
    {
      id := |nodes|;
      nodes := nodes + [Node(SwitchNode, name)];
    }

    /** Linking a node that was never added is the graph's consistency
        error; here it is a precondition every caller must discharge. */
    method AddLink(a: NodeId, b: NodeId)
      requires Valid()
      requires a < |nodes| && b < |nodes|
      modifies this
      ensures Valid()
      ensures nodes == old(nodes)
      ensures links == old(links) + [Link(a, b)]
    {
      links := links + [Link(a, b)];
    }
  }

  /** Growing a prefix of s by the element that follows it. */
  lemma PrefixAppend<T>(a: seq<T>, s: seq<T>, x: T)
    requires a <= s && |a| < |s| && s[|a|] == x
    ensures a + [x] <= s
  {
    assert a + [x] == s[..|a| + 1];
  }

  // ---------------------------------------------------------------------
  // Counting the elements of a sequence (nodes of one kind, links at a node).

  function Count<T>(s: seq<T>, P: T -> bool): nat
  {
    if s == [] then 0
    else Count(s[..|s| - 1], P) + (if P(s[|s| - 1]) then 1 else 0)
  }

  lemma {:induction false} CountAppend<T>(s1: seq<T>, s2: seq<T>, P: T -> bool)
    ensures Count(s1 + s2, P) == Count(s1, P) + Count(s2, P)
  {
    if s2 != [] {
      var s2' := s2[..|s2| - 1];
      assert (s1 + s2)[..|s1 + s2| - 1] == s1 + s2';
      CountAppend(s1, s2', P);
    } else {
      assert s1 + s2 == s1;
    }
  }

  lemma {:induction false} CountNone<T>(s: seq<T>, P: T -> bool)
    requires forall j :: 0 <= j < |s| ==> !P(s[j])
    ensures Count(s, P) == 0
  {
    if s != [] {
      CountNone(s[..|s| - 1], P);
    }
  }

  lemma {:induction false} CountAll<T>(s: seq<T>, P: T -> bool)
    requires forall j :: 0 <= j < |s| ==> P(s[j])
    ensures Count(s, P) == |s|
  {
    if s != [] {
      CountAll(s[..|s| - 1], P);
    }
  }

  /** The elements satisfying P are exactly those at positions lo..hi-1. */
  lemma CountRange<T>(s: seq<T>, P: T -> bool, lo: nat, hi: nat)
    requires lo <= hi <= |s|
    requires forall j :: 0 <= j < |s| ==> (P(s[j]) <==> lo <= j < hi)
    ensures Count(s, P) == hi - lo
  {
    assert s == s[..lo] + s[lo..hi] + s[hi..];
    CountNone(s[..lo], P);
    CountAll(s[lo..hi], P);
    CountNone(s[hi..], P);
    CountAppend(s[..lo] + s[lo..hi], s[hi..], P);
    CountAppend(s[..lo], s[lo..hi], P);
  }

  /** When only positions lo..hi-1 can satisfy P, only they are counted. */
  lemma CountWithin<T>(s: seq<T>, P: T -> bool, lo: nat, hi: nat)
    requires lo <= hi <= |s|
    requires forall j :: 0 <= j < |s| && !(lo <= j < hi) ==> !P(s[j])
    ensures Count(s, P) == Count(s[lo..hi], P)
  {
    assert s == s[..lo] + s[lo..hi] + s[hi..];
    CountNone(s[..lo], P);
    CountNone(s[hi..], P);
    CountAppend(s[..lo] + s[lo..hi], s[hi..], P);
    CountAppend(s[..lo], s[lo..hi], P);
  }

  /** Exactly one element, the one at w, satisfies P. */
  lemma CountOne<T>(s: seq<T>, P: T -> bool, w: nat)
    requires w < |s| && P(s[w])
    requires forall j :: 0 <= j < |s| && j != w ==> !P(s[j])
    ensures Count(s, P) == 1
  {
    CountRange(s, P, w, w + 1);
  }

  /** The b-th of consecutive blocks of `size` elements (empty past the end). */
  function Block<T>(s: seq<T>, size: nat, b: nat): seq<T>
  {
    if b * size + size <= |s| then s[b * size..b * size + size] else []
  }

  /** Cutting s after a whole block leaves that block unchanged. */
  lemma BlockPrefix<T>(s: seq<T>, size: nat, m: nat, b: nat)
    requires b * size + size <= m <= |s|
    ensures Block(s[..m], size, b) == Block(s, size, b)
  {
    MulSign(b, size);
    assert s[..m][b * size..b * size + size] == s[b * size..b * size + size];
  }

  /** A sequence of `count` blocks, each holding d elements satisfying P,
      holds count*d of them. */
  lemma {:induction false} CountBlocks<T>(s: seq<T>, P: T -> bool, size: nat, count: nat, d: nat)
    requires |s| == count * size
    requires forall b :: 0 <= b < count ==> Count(Block(s, size, b), P) == d
    ensures Count(s, P) == count * d
  {
    if count > 0 {
      var m := (count - 1) * size;
      assert m + size == |s| by { MulPred(count, size); }
      var front := s[..m];
      assert s == front + s[m..];
      assert s[m..] == Block(s, size, count - 1);
      forall b | 0 <= b < count - 1
        ensures Count(Block(front, size, b), P) == d
      {
        MulMono(b + 1, count - 1, size);
        MulPred(b + 1, size);
        BlockPrefix(s, size, m, b);
      }
      CountBlocks(front, P, size, count - 1, d);
      MulPred(count, d);
      CountAppend(front, s[m..], P);
    }
  }

  /** In n blocks of d elements, P holds exactly at the offset t of each
      block, so n elements satisfy it. */
  lemma CountResidue<T>(s: seq<T>, P: T -> bool, d: nat, n: nat, t: nat)
    requires t < d && |s| == n * d
    requires forall j :: 0 <= j < |s| ==> (P(s[j]) <==> j % d == t)
    ensures Count(s, P) == n
  {
    forall b | 0 <= b < n
      ensures Count(Block(s, d, b), P) == 1
    {
      MulSign(b, d);
      MulMono(b + 1, n, d);
      MulPred(b + 1, d);
      var blk := Block(s, d, b);
      assert |blk| == d;
      forall i | 0 <= i < d
        ensures P(blk[i]) <==> i == t
      {
        assert blk[i] == s[b * d + i];
        DivModUnique(b * d + i, d, b, i);
      }
      CountOne(blk, P, t);
    }
    CountBlocks(s, P, d, n, 1);
  }
}
