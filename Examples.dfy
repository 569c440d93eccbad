// Concrete instances of both generators and of their parameter checks.
module Examples {
  import opened Arith
  import opened TopoGraph
  import BCube
  import FatTree
  import FatTreeLinks

  /** BCube(0, 2): one switch serving two hosts. */
  lemma BCubeZeroTwo()
    ensures |BCube.Nodes(0, 2)| == 3
    ensures Count(BCube.Nodes(0, 2), IsHost) == 2
    ensures Count(BCube.Nodes(0, 2), IsSwitch) == 1
    ensures |BCube.Links(0, 2)| == 2
    ensures BCube.Links(0, 2)[0] == Link(2, 0) && BCube.Links(0, 2)[1] == Link(2, 1)
  {
    BCube.NodeCounts(0, 2);
    BCube.LevelZeroStar(2);
  }

  /** BCube(1, 2): four hosts and four switches, every node of degree 2. */
  lemma BCubeOneTwo()
    ensures Count(BCube.Nodes(1, 2), IsHost) == 4
    ensures Count(BCube.Nodes(1, 2), IsSwitch) == 4
    ensures forall v :: 0 <= v < |BCube.Nodes(1, 2)| ==> Degree(BCube.Links(1, 2), v) == 2
  {
    BCube.NodeCounts(1, 2);
    assert Pow(2, 2) == 4;
    forall v | 0 <= v < |BCube.Nodes(1, 2)|
      ensures Degree(BCube.Links(1, 2), v) == 2
    {
      if v < 4 {
        BCube.HostDegree(1, 2, v);
      } else {
        BCube.SwitchDegree(1, 2, v - 4);
      }
    }
  }

  /** The n check comes first: BCube(-1, 0) reports n, not k. */
  lemma BCubeValidationOrder()
    ensures BCube.Validate(-1, 0) == Some(BCube.NTooSmall)
    ensures BCube.Validate(-1, 1) == Some(BCube.KNegative)
  {
  }

  /** FatTree(4, 1): 4 core, 8 aggregation and 8 edge switches and 16 hosts;
      every core switch has 4 links. */
  lemma FatTreeFourOne()
    ensures FatTree.Validate(4, 1) == None
    ensures Count(FatTree.Nodes(4, 1), FatTree.IsCore) == 4
    ensures Count(FatTree.Nodes(4, 1), FatTree.IsAggr) == 8
    ensures Count(FatTree.Nodes(4, 1), FatTree.IsEdge) == 8
    ensures Count(FatTree.Nodes(4, 1), IsHost) == 16
    ensures forall c :: 0 <= c < 4 ==> Degree(FatTree.Links(4, 1), c) == 4
  {
    FloorPositive(4, 1);
    FatTree.NodeCounts(4, 1);
    forall c | 0 <= c < 4
      ensures Degree(FatTree.Links(4, 1), c) == 4
    {
      FatTreeLinks.CoreDegree(4, 1, c);
    }
  }

  /** FatTree(4, 2): two core switches instead of four; each aggregation
      switch keeps its 2 edge links but has only one core link. */
  lemma FatTreeFourTwo()
    ensures FatTree.Validate(4, 2) == None
    ensures FatTree.CoreCount(4, 2) == 2
    ensures Degree(FatTree.Links(4, 2), FatTree.AggrPos(4, 2, 0, 0)) == 3
  {
    FloorPositive(4, 2);
    FloorPositive(2, 2);
    FatTreeLinks.AggrDegree(4, 2, 0, 0);
  }

  /** The divisibility check comes before the parity check, and r = 0 fails
      at the first of them. */
  lemma FatTreeValidationOrder()
    ensures FatTree.Validate(3, 2) == Some(FatTree.NotDivisible)
    ensures FatTree.Validate(3, 1) == Some(FatTree.NotPositiveEven)
    ensures FatTree.Validate(0, 1) == Some(FatTree.NotPositiveEven)
    ensures FatTree.Validate(4, 0) == Some(FatTree.ZeroRatio)
  {
  }

  /** A negative ratio passes validation and builds pods with no core
      switches: nothing links one pod to another. */
  lemma FatTreeNegativeRatio()
    ensures FatTree.Validate(4, -1) == None
    ensures FatTree.CoreCount(4, -1) == 0
    ensures Degree(FatTree.Links(4, -1), FatTree.AggrPos(4, -1, 0, 0)) == 2
  {
    FatTree.CoreRatio(4, -1);
    FatTreeLinks.AggrDegree(4, -1, 0, 0);
  }
}
