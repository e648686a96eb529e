/** The graph that breaks and heals follow, in the databases that can be reached. */
module ReachableStops {
  import opened Common
  import opened DependencyErrors
  import opened ErrorGraph
  import opened BreakSpec
  import Index = ReverseIndex

  /** The dependents graph read off the lists of the installed packages. */
  function GraphOf(ps: Index.Packages): Dependents {
    map p | p in ps && Index.IsInstalled(ps, p) :: Index.RecordOf(ps, p).dependents.Keys
  }

  /** Every installed package has an error map, and nothing else has. */
  ghost predicate TableOf(ps: Index.Packages, e: Errors) {
    forall p :: p in e <==> Index.IsInstalled(ps, p)
  }

  ghost predicate IsRemoving(ps: Index.Packages, p: PackageId) {
    p in ps && ps[p].Removing?
  }

  /** In every reachable database a dependent without an error map is one that is being removed. */
  lemma MissingIsRemoving(steps: seq<Index.Step>, e: Errors, y: PackageId, d: PackageId)
    requires TableOf(Index.Run(steps), e) && Edge(GraphOf(Index.Run(steps)), y, d)
    ensures d !in e <==> IsRemoving(Index.Run(steps), d)
  {
    var ps := Index.Run(steps);
    assert Index.Listed(ps, y, d).Some?;
    Index.ListedIsInstalledOrRemoving(steps, y, d);
  }

  /** So a break fails exactly when it comes to a package that is being removed, and never while there is none. */
  lemma BreaksFailOnRemovals(steps: seq<Index.Step>, e: Errors, id: PackageId, error: DependencyError)
    requires TableOf(Index.Run(steps), e)
    ensures var ps, g := Index.Run(steps), GraphOf(Index.Run(steps));
            && (ReachesMissing(g, e, id, error) <==>
                 exists y, d :: Edge(g, y, d) && IsRemoving(ps, d) && (y == id || NewlyBroken(g, e, id, error, y)))
            && ((forall p :: !IsRemoving(ps, p)) ==> !ReachesMissing(g, e, id, error))
  {
    var g := GraphOf(Index.Run(steps));
    forall y, d | Edge(g, y, d)
      ensures d !in e <==> IsRemoving(Index.Run(steps), d)
    {
      MissingIsRemoving(steps, e, y, d);
    }
  }
}
