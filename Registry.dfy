// The module-level registry that maps a topology name to its constructor,
// so that either generator can be chosen by name, with the constructors'
// default parameters when none are given.
module Registry {
  import opened TopoGraph
  import BCube
  import FatTree

  datatype TopoKind = BCubeTopo | FatTreeTopo

  /** The registry: 'bcube' and 'fattree'. */
  function Topos(): map<string, TopoKind>
  {
    map["bcube" := BCubeTopo, "fattree" := FatTreeTopo]
  }

  /** The constructors' default arguments: BCube k=1, n=4; Fat-Tree k=2, r=1. */
  function Defaults(t: TopoKind): (int, int)
  {
    match t
    case BCubeTopo => (1, 4)
    case FatTreeTopo => (2, 1)
  }

  /** A missing argument takes its default. */
  function Arguments(t: TopoKind, first: Option<int>, second: Option<int>): (int, int)
  {
    (if first.Some? then first.value else Defaults(t).0,
     if second.Some? then second.value else Defaults(t).1)
  }

  datatype TopoError = UnknownTopo | BCubeFailed(b: BCube.BCubeError) | FatTreeFailed(f: FatTree.FatTreeError)

  /** The error the constructor of t raises on these arguments, if any. */
  function Check(t: TopoKind, args: (int, int)): Option<TopoError>
  {
    match t
    case BCubeTopo =>
      var e := BCube.Validate(args.0, args.1);
      if e.Some? then Some(BCubeFailed(e.value)) else None
    case FatTreeTopo =>
      var e := FatTree.Validate(args.0, args.1);
      if e.Some? then Some(FatTreeFailed(e.value)) else None
  }

  /** Looking a name up in the registry and calling its constructor. */
  method Create(name: string, first: Option<int>, second: Option<int>) returns (g: Topo, err: Option<TopoError>)
    ensures fresh(g) && g.Valid()
    ensures name !in Topos() ==> err == Some(UnknownTopo) && g.nodes == [] && g.links == []
    ensures name in Topos() ==> err == Check(Topos()[name], Arguments(Topos()[name], first, second))
    ensures err != None ==> g.nodes == [] && g.links == []
    ensures name == "bcube" && err == None ==>
              var (k, n) := Arguments(BCubeTopo, first, second);
              k >= 0 && n >= 1 && g.nodes == BCube.Nodes(k, n) && g.links == BCube.Links(k, n)
    ensures name == "fattree" && err == None ==>
              var (k, r) := Arguments(FatTreeTopo, first, second);
              k >= 0 && FatTree.Validate(k, r) == None &&
              g.nodes == FatTree.Nodes(k, r) && g.links == FatTree.Links(k, r)
  {
    if name !in Topos() {
      g := new Topo();
      return g, Some(UnknownTopo);
    }
    var t := Topos()[name];
    var args := Arguments(t, first, second);
    match t {
      case BCubeTopo =>
        var e;
        g, e := BCube.Build(args.0, args.1);
        err := if e.Some? then Some(BCubeFailed(e.value)) else None;
      case FatTreeTopo =>
        var e;
        g, e := FatTree.Build(args.0, args.1);
        err := if e.Some? then Some(FatTreeFailed(e.value)) else None;
    }
  }

  /** The registry holds exactly the two generators. */
  lemma ToposNames(name: string)
    ensures name in Topos() <==> name == "bcube" || name == "fattree"
  {
  }

  /** Both default argument pairs pass their constructor's validation. */
  lemma DefaultsValid(t: TopoKind)
    ensures Check(t, Defaults(t)) == None
  {
  }
}
