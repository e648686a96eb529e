/** What breaks and heals keep, on any finite dependents graph, cyclic or not. */
module DependencyTheorems {
  import opened Common
  import opened DependencyErrors
  import opened ErrorGraph
  import opened PackageInfo
  import opened TryHealing
  import opened BreakSpec
  import opened BreakSteps
  import opened HealSpec

  // ----- breaking

  /** A break of one entry keeps the table closed, round every cycle. */
  lemma BreakOneKeepsClosed(g: Dependents, e: Errors, f: Errors, d: PackageId, y: PackageId, error: DependencyError)
    requires Closed(g, e) && OneBroken(g, e, f, d, y, error)
    ensures Closed(g, f)
  {
    OneBrokenGrows(g, e, f, d, y, error);
    forall a, c | a in f && f[a] != map[] && Edge(g, a, c)
      ensures Has(f, c, a)
    {
      PassesOn(g, e, f, a, c);
    }
  }

  lemma PassesOn(g: Dependents, e: Errors, f: Errors, a: PackageId, c: PackageId)
    requires Closed(g, e) && PassedOn(g, e, f) && e.Keys == f.Keys
    requires forall a, b :: Has(e, a, b) ==> Has(f, a, b)
    requires a in f && f[a] != map[] && Edge(g, a, c)
    ensures Has(f, c, a)
  {
    DirtyHas(f, a);
    var b :| Has(f, a, b);
    if Has(e, a, b) {
      assert Has(e, c, a);
    } else {
      assert Saturated(g, f, a);
    }
  }

  /** Breaking all dependents keeps the table closed. */
  lemma BreakKeepsClosed(g: Dependents, e: Errors, f: Errors, id: PackageId, error: DependencyError)
    requires Closed(g, e) && SomeBroken(g, e, f, id, error, DependentsOf(g, id))
    ensures Closed(g, f)
  {
    SomeBrokenGrows(g, e, f, id, error, DependentsOf(g, id));
    forall a, c | a in f && f[a] != map[] && Edge(g, a, c)
      ensures Has(f, c, a)
    {
      PassesOn(g, e, f, a, c);
    }
  }

  /** The last package of a bare path from one that passed its error on has an error itself. */
  lemma BareEndIsDirty(g: Dependents, e: Errors, f: Errors, x: PackageId, y: PackageId)
    requires Dirty(f, x) && Saturated(g, f, x) && PassedOn(g, e, f) && BareReach(g, e, x, y)
    ensures Dirty(f, y)
  {
    var p :| BarePath(g, e, p) && p[0] == x && p[|p| - 1] == y;
    if |p| > 1 {
      var q := p[..|p| - 1];
      assert BarePath(g, e, q) && q[0] == x;
      SaturationSpreads(g, e, f, q);
      assert Edge(g, p[|p| - 2], p[|p| - 1]);
      assert Has(f, y, q[|q| - 1]);
      DirtyHas(f, y);
    }
  }

  /** A break of one entry keeps every Transitive backed, unless it is itself an unbacked Transitive. */
  lemma BreakOneKeepsSound(g: Dependents, e: Errors, f: Errors, d: PackageId, y: PackageId, error: DependencyError)
    requires Sound(e) && OneBroken(g, e, f, d, y, error)
    requires error == Transitive ==> Dirty(e, y)
    ensures Sound(f)
  {
    OneBrokenGrows(g, e, f, d, y, error);
    assert Has(f, d, y);
    DirtyHas(f, d);
    forall a, b | Has(f, a, b) && f[a][b] == Transitive
      ensures Dirty(f, b)
    {
      DirtyHas(e, b);
      DirtyHas(f, b);
      if a == d && b == y {
        if Has(e, d, y) {
          MergeRankIsMax(e[d][y], error);
          assert Rank(error) == 1;
        }
        assert error == Transitive;
      } else if Has(e, a, b) {
        assert Lookup(f, a, b) == Lookup(e, a, b);
      } else {
        BareEndIsDirty(g, e, f, d, b);
      }
    }
  }

  lemma BreakKeepsSound(g: Dependents, e: Errors, f: Errors, id: PackageId, error: DependencyError)
    requires Sound(e) && SomeBroken(g, e, f, id, error, DependentsOf(g, id))
    requires error == Transitive ==> Dirty(e, id)
    ensures Sound(f)
  {
    var all := DependentsOf(g, id);
    SomeBrokenGrows(g, e, f, id, error, all);
    forall a, b | Has(f, a, b) && f[a][b] == Transitive
      ensures Dirty(f, b)
    {
      DirtyHas(e, b);
      DirtyHas(f, b);
      if b == id && a in all {
        if Has(e, a, b) {
          MergeRankIsMax(e[a][b], error);
          assert Rank(error) == 1;
        }
        assert error == Transitive;
      } else if Has(e, a, b) {
        assert Lookup(f, a, b) == Lookup(e, a, b);
      } else {
        NewlyBrokenIsDirty(g, e, f, id, error, b);
      }
    }
  }

  lemma NewlyBrokenIsDirty(g: Dependents, e: Errors, f: Errors, id: PackageId, error: DependencyError, y: PackageId)
    requires SomeBroken(g, e, f, id, error, DependentsOf(g, id))
    requires NewlyBroken(g, e, id, error, y)
    ensures Dirty(f, y)
  {
    var d :| Edge(g, id, d) && IsNews(e, d, id, error) && BareReach(g, e, d, y);
    assert Has(f, d, id);
    DirtyHas(f, d);
    BareEndIsDirty(g, e, f, d, y);
  }

  /**
   * Two rounds of failed health checks on one edge that held nothing worse: the entry has every
   * check that failed in either round or before, with the result of the last round it failed in.
   */
  lemma LaterChecksPrevail(g: Dependents, e: Errors, f: Errors, h: Errors, d: PackageId, y: PackageId,
                           first: map<HealthCheckId, HealthCheckResult>, second: map<HealthCheckId, HealthCheckResult>)
    requires RankAt(e, d, y) <= Rank(HealthChecksFailed(first))
    requires OneBroken(g, e, f, d, y, HealthChecksFailed(first)) && OneBroken(g, f, h, d, y, HealthChecksFailed(second))
    ensures Has(h, d, y) && h[d][y].HealthChecksFailed?
    ensures forall c :: c in second ==> c in h[d][y].failures && h[d][y].failures[c] == second[c]
    ensures forall c :: c in first && c !in second ==> c in h[d][y].failures && h[d][y].failures[c] == first[c]
    ensures forall c :: c in h[d][y].failures && c !in first && c !in second ==>
              Has(e, d, y) && e[d][y].HealthChecksFailed? && c in e[d][y].failures && h[d][y].failures[c] == e[d][y].failures[c]
  {
    if Has(e, d, y) {
      MergeKeeps(e[d][y], HealthChecksFailed(first));
    }
    assert f[d][y].HealthChecksFailed?;
    MergeKeeps(f[d][y], HealthChecksFailed(second));
  }

  /** A worse error on the edge is left as it is. */
  lemma WorseErrorStays(g: Dependents, e: Errors, f: Errors, d: PackageId, y: PackageId, error: DependencyError)
    requires OneBroken(g, e, f, d, y, error) && RankAt(e, d, y) > Rank(error)
    ensures Lookup(f, d, y) == Lookup(e, d, y)
  {
    MergeKeeps(e[d][y], error);
  }

  /** Breaks record errors on graph edges only. */
  lemma BreakKeepsOnEdges(g: Dependents, e: Errors, f: Errors, id: PackageId, error: DependencyError)
    requires OnEdges(g, e) && SomeBroken(g, e, f, id, error, DependentsOf(g, id))
    ensures OnEdges(g, f)
  {
  }

  /** Whoever is hit harder by a break has an entry for itself in each of its dependents. */
  lemma HitIsPassedOn(g: Dependents, e: Errors, f: Errors, id: PackageId, error: DependencyError, d: PackageId)
    requires SomeBroken(g, e, f, id, error, DependentsOf(g, id))
    requires Rose(e, f, d)
    ensures forall c :: Edge(g, d, c) ==> Has(f, c, d)
  {
  }

  /** The entry (d, y) after a break of all dependents of `id`, when the table was closed: reachability alone decides. */
  ghost function ClosedBrokenEntry(g: Dependents, e: Errors, id: PackageId, error: DependencyError,
                                   d: PackageId, y: PackageId): Option<DependencyError> {
    if y == id && Edge(g, id, d) then Some(Merged(e, d, id, error))
    else if Has(e, d, y) then Some(e[d][y])
    else if Edge(g, y, d) && Reachable(g, id, y) then Some(Transitive)
    else None
  }

  /**
   * From a closed table, an edge leaving any package reachable from `id` keeps its entry or
   * gains Transitive, direct edges are merged with the error, and nothing else changes.
   */
  lemma BreakFromClosed(g: Dependents, e: Errors, f: Errors, id: PackageId, error: DependencyError)
    requires Closed(g, e) && SomeBroken(g, e, f, id, error, DependentsOf(g, id))
    ensures forall d, y :: Lookup(f, d, y) == ClosedBrokenEntry(g, e, id, error, d, y)
  {
    AllBroken(g, e, f, id, error);
    forall d, y
      ensures Lookup(f, d, y) == ClosedBrokenEntry(g, e, id, error, d, y)
    {
      assert Lookup(f, d, y) == BrokenEntry(g, e, id, error, d, y);
      if y != id && !Has(e, d, y) && Edge(g, y, d) {
        if NewlyBroken(g, e, id, error, y) {
          NewlyBrokenIsReachable(g, e, id, error, y);
        }
        if Reachable(g, id, y) {
          var p :| IsPath(g, p) && p[0] == id && p[|p| - 1] == y;
          BreakKeepsClosed(g, e, f, id, error);
          DirtyAlong(g, f, p);
        }
      }
    }
  }

  lemma NewlyBrokenIsReachable(g: Dependents, e: Errors, id: PackageId, error: DependencyError, y: PackageId)
    requires NewlyBroken(g, e, id, error, y)
    ensures Reachable(g, id, y)
  {
    var d :| Edge(g, id, d) && IsNews(e, d, id, error) && BareReach(g, e, d, y);
    var p :| BarePath(g, e, p) && p[0] == d && p[|p| - 1] == y;
    var q := [id] + p;
    assert IsPath(g, q) by {
      forall i | 0 <= i < |q| - 1
        ensures Edge(g, q[i], q[i + 1])
      {
        if i > 0 {
          assert q[i] == p[i - 1] && q[i + 1] == p[i - 1 + 1];
        }
      }
    }
    assert q[0] == id && q[|q| - 1] == y;
  }

  /** In a closed table, errors are present all along a path whose first edge carries one. */
  lemma {:induction false} DirtyAlong(g: Dependents, e: Errors, p: seq<PackageId>)
    requires Closed(g, e) && IsPath(g, p) && |p| > 1 && Has(e, p[1], p[0])
    ensures Dirty(e, p[|p| - 1])
    ensures Saturated(g, e, p[|p| - 1])
    decreases |p|
  {
    DirtyHas(e, p[1]);
    if |p| > 2 {
      var q := p[1..];
      assert Edge(g, p[1], p[1 + 1]);
      assert IsPath(g, q) by {
        forall i | 0 <= i < |q| - 1
          ensures Edge(g, q[i], q[i + 1])
        {
          assert q[i] == p[i + 1] && q[i + 1] == p[i + 1 + 1];
        }
      }
      DirtyAlong(g, e, q);
    }
  }

  // ----- healing

  /** Healing keeps the table closed: an entry goes only once its dependency has no error left. */
  lemma HealKeepsClosed(w: World, g: Dependents, e: Errors, f: Errors, y: PackageId, done: set<PackageId>)
    requires Closed(g, e) && Healed(w, g, e, f, y, done)
    ensures Closed(g, f)
  {
    forall a, c | a in f && f[a] != map[] && Edge(g, a, c)
      ensures Has(f, c, a)
    {
      DirtyShrinks(e, f, a);
      assert Has(e, c, a);
      RehealSame(w, f, f, c, a, e[c][a]);
    }
  }

  /** Healing keeps every Transitive backed, provided errors lie on edges. */
  lemma HealKeepsSound(w: World, g: Dependents, e: Errors, f: Errors, y: PackageId, done: set<PackageId>)
    requires Sound(e) && OnEdges(g, e) && Healed(w, g, e, f, y, done)
    ensures Sound(f) && OnEdges(g, f)
  {
    forall a, b | Has(f, a, b) && f[a][b] == Transitive
      ensures Dirty(f, b)
    {
      assert Has(e, a, b);
      RehealSame(w, f, f, a, b, e[a][b]);
      DirtyShrinks(e, f, b);
    }
  }

  /**
   * If every entry on an edge would survive re-examination, except perhaps those of the
   * dependents being healed, then after the heal all of them would.
   */
  lemma HealSettles(w: World, g: Dependents, e: Errors, f: Errors, y: PackageId, done: set<PackageId>)
    requires Healed(w, g, e, f, y, done)
    requires forall a, b :: Edge(g, b, a) && !(b == y && a in done) ==> Settled(w, e, a, b)
    ensures forall a, b :: Edge(g, b, a) ==> Settled(w, f, a, b)
  {
    forall a, b | Edge(g, b, a) && Has(f, a, b)
      ensures Settled(w, f, a, b)
    {
      assert Has(e, a, b);
      if LookedAt(g, e, f, y, done, a, b) {
        RehealAbsorbs(w, f, f, a, b, e[a][b], f[a][b]);
      } else {
        assert Settled(w, e, a, b);
        DirtyShrinks(e, f, b);
        RehealSame(w, e, f, a, b, e[a][b]);
      }
    }
  }

  lemma HealedIsFloor(w: World, g: Dependents, e: Errors, f: Errors, y: PackageId, done: set<PackageId>)
    requires Healed(w, g, e, f, y, done)
    ensures Floor(w, g, e, f, y, done)
  {
  }

  /** On any graph, cyclic or not, two heals of the same table end in the same table, whatever their order of visits. */
  lemma HealIsDeterministic(w: World, g: Dependents, e: Errors, f: Errors, h: Errors, y: PackageId, done: set<PackageId>)
    requires Healed(w, g, e, f, y, done) && AboveFloors(w, g, e, f, y, done)
    requires Healed(w, g, e, h, y, done) && AboveFloors(w, g, e, h, y, done)
    ensures f == h
  {
    HealedIsFloor(w, g, e, f, y, done);
    HealedIsFloor(w, g, e, h, y, done);
    forall a, b
      ensures Lookup(f, a, b) == Lookup(h, a, b)
    {
      assert Has(f, a, b) <==> Has(h, a, b);
      if Has(e, a, b) {
        DirtyHas(f, b);
        DirtyHas(h, b);
        RehealSame(w, f, h, a, b, e[a][b]);
        assert Shrunk(e, f, b) <==> Shrunk(e, h, b);
      }
    }
    SameEntriesSameTable(f, h);
  }

  // ----- runs

  datatype Propagation =
    | BreakAll(id: PackageId, error: DependencyError)
    | BreakOne(d: PackageId, y: PackageId, error: DependencyError)
    | HealAll(id: PackageId)
    | HealOne(d: PackageId, y: PackageId)

  /** One propagation. Callers start a break with an error of their own, never with Transitive, and on an edge. */
  ghost predicate Propagates(g: Dependents, w: World, e: Errors, p: Propagation, f: Errors) {
    match p
    case BreakAll(id, error) => error != Transitive && SomeBroken(g, e, f, id, error, DependentsOf(g, id))
    case BreakOne(d, y, error) => error != Transitive && Edge(g, y, d) && OneBroken(g, e, f, d, y, error)
    case HealAll(id) => Healed(w, g, e, f, id, DependentsOf(g, id))
    case HealOne(d, y) => Healed(w, g, e, f, y, {d})
  }

  /** A run: any propagations in any order, with statuses, versions and configs changing freely in between. */
  ghost predicate IsRun(g: Dependents, ws: seq<World>, ps: seq<Propagation>, es: seq<Errors>) {
    |es| == |ps| + 1 && |ws| == |ps| && forall i :: 0 <= i < |ps| ==> Propagates(g, ws[i], es[i], ps[i], es[i + 1])
  }

  lemma PropagationKeeps(g: Dependents, w: World, e: Errors, p: Propagation, f: Errors)
    requires Propagates(g, w, e, p, f) && Closed(g, e) && Sound(e) && OnEdges(g, e)
    ensures Closed(g, f) && Sound(f) && OnEdges(g, f)
  {
    match p
    case BreakAll(id, error) =>
      BreakKeepsClosed(g, e, f, id, error);
      BreakKeepsSound(g, e, f, id, error);
    case BreakOne(d, y, error) =>
      BreakOneKeepsClosed(g, e, f, d, y, error);
      BreakOneKeepsSound(g, e, f, d, y, error);
    case HealAll(id) =>
      HealKeepsClosed(w, g, e, f, id, DependentsOf(g, id));
      HealKeepsSound(w, g, e, f, id, DependentsOf(g, id));
    case HealOne(d, y) =>
      HealKeepsClosed(w, g, e, f, y, {d});
      HealKeepsSound(w, g, e, f, y, {d});
  }

  /** Closure and soundness hold throughout every run that starts with them. */
  lemma {:induction false} RunsStayClosedAndSound(g: Dependents, ws: seq<World>, ps: seq<Propagation>, es: seq<Errors>, i: nat)
    requires IsRun(g, ws, ps, es) && Closed(g, es[0]) && Sound(es[0]) && OnEdges(g, es[0])
    requires i < |es|
    ensures Closed(g, es[i]) && Sound(es[i]) && OnEdges(g, es[i])
  {
    if i > 0 {
      RunsStayClosedAndSound(g, ws, ps, es, i - 1);
      assert Propagates(g, ws[i - 1], es[i - 1], ps[i - 1], es[i - 1 + 1]);
      PropagationKeeps(g, ws[i - 1], es[i - 1], ps[i - 1], es[i]);
    }
  }
}
