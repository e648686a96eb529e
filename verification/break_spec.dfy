/**
 * What breaking the dependents of a package does to the error table, stated
 * without reference to the order in which dependents are visited.
 */
module BreakSpec {
  import opened Common
  import opened DependencyErrors
  import opened ErrorGraph

  /** The error is news for this edge: nothing recorded yet, or something of lower priority. */
  predicate IsNews(e: Errors, d: PackageId, y: PackageId, error: DependencyError) {
    Has(e, d, y) ==> CmpPriority(error, e[d][y]) == Greater
  }

  function Merged(e: Errors, d: PackageId, y: PackageId, error: DependencyError): DependencyError {
    if Has(e, d, y) then MergeWith(e[d][y], error) else error
  }

  /** A path along edges on which nothing is recorded. */
  ghost predicate BarePath(g: Dependents, e: Errors, p: seq<PackageId>) {
    |p| > 0 && forall i :: 0 <= i < |p| - 1 ==> Edge(g, p[i], p[i + 1]) && !Has(e, p[i + 1], p[i])
  }

  ghost predicate BareReach(g: Dependents, e: Errors, x: PackageId, y: PackageId) {
    exists p :: BarePath(g, e, p) && p[0] == x && p[|p| - 1] == y
  }

  /**
   * Breaking the dependents of `id` with `error` newly breaks y: some dependent for
   * which the error is news leads to y along edges on which nothing is recorded.
   */
  ghost predicate NewlyBroken(g: Dependents, e: Errors, id: PackageId, error: DependencyError, y: PackageId) {
    exists d :: Edge(g, id, d) && IsNews(e, d, id, error) && BareReach(g, e, d, y)
  }

  /** The entry (d, y) after breaking the dependents of `id` with `error` in table e. */
  ghost function BrokenEntry(g: Dependents, e: Errors, id: PackageId, error: DependencyError,
                             d: PackageId, y: PackageId): Option<DependencyError> {
    if y == id && Edge(g, id, d) then Some(Merged(e, d, id, error))
    else if Has(e, d, y) then Some(e[d][y])
    else if Edge(g, y, d) && NewlyBroken(g, e, id, error, y) then Some(Transitive)
    else None
  }

  /** A dependent that the propagation comes to is not installed. */
  ghost predicate ReachesMissing(g: Dependents, e: Errors, id: PackageId, error: DependencyError) {
    exists y, d :: Edge(g, y, d) && d !in e && (y == id || NewlyBroken(g, e, id, error, y))
  }

  /** d gained an entry, or one of its entries rose in priority. */
  ghost predicate Rose(e: Errors, f: Errors, d: PackageId) {
    exists y :: RankAt(e, d, y) < RankAt(f, d, y)
  }

  ghost predicate RanksGrow(e: Errors, f: Errors) {
    forall d, y :: RankAt(e, d, y) <= RankAt(f, d, y)
  }

  // ----- facts about bare paths

  lemma BareReachRefl(g: Dependents, e: Errors, x: PackageId)
    ensures BareReach(g, e, x, x)
  {
    var p := [x];
    assert BarePath(g, e, p) && p[0] == x && p[|p| - 1] == x;
  }

  lemma BareReachStep(g: Dependents, e: Errors, x: PackageId, y: PackageId, z: PackageId)
    requires Edge(g, x, y) && !Has(e, y, x) && BareReach(g, e, y, z)
    ensures BareReach(g, e, x, z)
  {
    var p :| BarePath(g, e, p) && p[0] == y && p[|p| - 1] == z;
    var q := [x] + p;
    assert BarePath(g, e, q) by {
      forall i | 0 <= i < |q| - 1
        ensures Edge(g, q[i], q[i + 1]) && !Has(e, q[i + 1], q[i])
      {
        if i > 0 {
          assert q[i] == p[i - 1] && q[i + 1] == p[i - 1 + 1];
        }
      }
    }
    assert q[0] == x && q[|q| - 1] == z;
  }

  lemma BareReachTrans(g: Dependents, e: Errors, x: PackageId, y: PackageId, z: PackageId)
    requires BareReach(g, e, x, y) && BareReach(g, e, y, z)
    ensures BareReach(g, e, x, z)
  {
    var p :| BarePath(g, e, p) && p[0] == x && p[|p| - 1] == y;
    var q :| BarePath(g, e, q) && q[0] == y && q[|q| - 1] == z;
    var r := p + q[1..];
    assert BarePath(g, e, r) by {
      forall i | 0 <= i < |r| - 1
        ensures Edge(g, r[i], r[i + 1]) && !Has(e, r[i + 1], r[i])
      {
        if i < |p| - 1 {
          assert r[i] == p[i] && r[i + 1] == p[i + 1];
        } else {
          var j := i - (|p| - 1);
          assert r[i] == q[j] && r[i + 1] == q[j + 1];
        }
      }
    }
    assert r[0] == x && r[|r| - 1] == z;
  }

  /** Recording more errors leaves fewer bare paths. */
  lemma BareReachShrinks(g: Dependents, e: Errors, f: Errors, x: PackageId, y: PackageId)
    requires forall d, y :: Has(e, d, y) ==> Has(f, d, y)
    requires BareReach(g, f, x, y)
    ensures BareReach(g, e, x, y)
  {
  }
}

/** The bookkeeping that carries the effect of a break through its recursion. */
module BreakSteps {
  import opened Common
  import opened DependencyErrors
  import opened ErrorGraph
  import opened BreakSpec

  ghost predicate Saturated(g: Dependents, e: Errors, x: PackageId) {
    forall d :: Edge(g, x, d) ==> Has(e, d, x)
  }

  /** Every package that gained an entry between e and f has passed it on to all its dependents. */
  ghost predicate PassedOn(g: Dependents, e: Errors, f: Errors) {
    forall a, b :: Has(f, a, b) && !Has(e, a, b) ==> Saturated(g, f, a)
  }

  /** Effect of recording `error` on the single entry (d, y) and propagating from there. */
  ghost predicate OneBroken(g: Dependents, e: Errors, f: Errors, d: PackageId, y: PackageId, error: DependencyError) {
    && f.Keys == e.Keys
    && Lookup(f, d, y) == Some(Merged(e, d, y, error))
    && (forall a, b :: (a != d || b != y) && Has(e, a, b) ==> Lookup(f, a, b) == Lookup(e, a, b))
    && (forall a, b :: (a != d || b != y) && !Has(e, a, b) && Has(f, a, b) ==>
          f[a][b] == Transitive && Edge(g, b, a) && IsNews(e, d, y, error) && BareReach(g, e, d, b))
    && (IsNews(e, d, y, error) ==> Saturated(g, f, d))
    && PassedOn(g, e, f)
  }

  /** Effect of having broken the dependents `done` of `id` so far. */
  ghost predicate SomeBroken(g: Dependents, e: Errors, f: Errors, id: PackageId, error: DependencyError, done: set<PackageId>) {
    && f.Keys == e.Keys
    && (forall a :: a in done ==> Lookup(f, a, id) == Some(Merged(e, a, id, error)))
    && (forall a, b :: (b != id || a !in done) && Has(e, a, b) ==> Lookup(f, a, b) == Lookup(e, a, b))
    && (forall a, b :: (b != id || a !in done) && !Has(e, a, b) && Has(f, a, b) ==>
          f[a][b] == Transitive && Edge(g, b, a) && NewlyBroken(g, e, id, error, b))
    && (forall a :: a in done && IsNews(e, a, id, error) ==> Saturated(g, f, a))
    && PassedOn(g, e, f)
  }

  /** A dependent reached from (d, y) is not installed. */
  ghost predicate OneReachesMissing(g: Dependents, e: Errors, d: PackageId, y: PackageId, error: DependencyError) {
    d !in e || (IsNews(e, d, y, error) && exists b, a :: Edge(g, b, a) && a !in e && BareReach(g, e, d, b))
  }

  lemma SomeBrokenGrows(g: Dependents, e: Errors, f: Errors, id: PackageId, error: DependencyError, done: set<PackageId>)
    requires SomeBroken(g, e, f, id, error, done)
    ensures forall a, b :: Has(e, a, b) ==> Has(f, a, b)
    ensures RanksGrow(e, f)
  {
  }

  lemma OneBrokenGrows(g: Dependents, e: Errors, f: Errors, d: PackageId, y: PackageId, error: DependencyError)
    requires OneBroken(g, e, f, d, y, error)
    ensures forall a, b :: Has(e, a, b) ==> Has(f, a, b)
    ensures RanksGrow(e, f)
  {
  }

  /** While breaking the dependents of `id`, the entry of one not yet visited is old, or a Transitive that came round a cycle. */
  lemma NewsIsStable(g: Dependents, e: Errors, f: Errors, id: PackageId, error: DependencyError,
                     done: set<PackageId>, d: PackageId)
    requires SomeBroken(g, e, f, id, error, done)
    requires Edge(g, id, d) && d !in done
    ensures Merged(f, d, id, error) == Merged(e, d, id, error)
    ensures IsNews(f, d, id, error) ==> IsNews(e, d, id, error)
    ensures IsNews(e, d, id, error) ==> IsNews(f, d, id, error) || Saturated(g, f, d)
  {
  }

  /** One more dependent visited. */
  lemma BreakOneMore(g: Dependents, e: Errors, f: Errors, h: Errors, id: PackageId, error: DependencyError,
                     done: set<PackageId>, d: PackageId)
    requires SomeBroken(g, e, f, id, error, done)
    requires Edge(g, id, d) && d !in done
    requires OneBroken(g, f, h, d, id, error)
    ensures SomeBroken(g, e, h, id, error, done + {d})
  {
    SomeBrokenGrows(g, e, f, id, error, done);
    OneBrokenGrows(g, f, h, d, id, error);
    NewsIsStable(g, e, f, id, error, done, d);
    var now := done + {d};
    forall a, b | (b != id || a !in now) && !Has(e, a, b) && Has(h, a, b)
      ensures h[a][b] == Transitive && Edge(g, b, a) && NewlyBroken(g, e, id, error, b)
    {
      if Has(f, a, b) {
        assert Lookup(h, a, b) == Lookup(f, a, b);
      } else {
        BareReachShrinks(g, e, f, d, b);
      }
    }
  }

  lemma MissingFromDependent(g: Dependents, e: Errors, f: Errors, id: PackageId, error: DependencyError,
                             done: set<PackageId>, d: PackageId)
    requires SomeBroken(g, e, f, id, error, done)
    requires Edge(g, id, d) && d !in done
    requires OneReachesMissing(g, f, d, id, error)
    ensures ReachesMissing(g, e, id, error)
  {
  }

  /** Recording a newsworthy error on (d, y), then breaking all dependents of d with Transitive. */
  lemma BreakThrough(g: Dependents, e: Errors, f: Errors, h: Errors, d: PackageId, y: PackageId, error: DependencyError)
    requires d in e && IsNews(e, d, y, error)
    requires f == Put(e, d, y, Merged(e, d, y, error))
    requires SomeBroken(g, f, h, d, Transitive, DependentsOf(g, d))
    ensures OneBroken(g, e, h, d, y, error)
  {
    SomeBrokenGrows(g, f, h, d, Transitive, DependentsOf(g, d));
    forall a, b | Has(f, a, b)
      ensures Lookup(h, a, b) == Lookup(f, a, b)
    {
      MergeIsMonoid(f[a][b], f[a][b], f[a][b]);
    }
    forall a, b | (a != d || b != y) && !Has(e, a, b) && Has(h, a, b)
      ensures h[a][b] == Transitive && Edge(g, b, a) && BareReach(g, e, d, b)
    {
      BareFromTransitive(g, e, f, d, a, b, h);
    }
  }

  lemma BareFromTransitive(g: Dependents, e: Errors, f: Errors, d: PackageId, a: PackageId, b: PackageId, h: Errors)
    requires forall a, b :: Has(e, a, b) ==> Has(f, a, b)
    requires SomeBroken(g, f, h, d, Transitive, DependentsOf(g, d))
    requires !Has(f, a, b) && Has(h, a, b)
    ensures h[a][b] == Transitive && Edge(g, b, a) && BareReach(g, e, d, b)
  {
    if b == d {
      BareReachRefl(g, e, d);
      if a in DependentsOf(g, d) {
        assert Lookup(h, a, d) == Some(Merged(f, a, d, Transitive));
      }
    } else {
      assert NewlyBroken(g, f, d, Transitive, b);
      NewlyBrokenIsBare(g, f, d, b);
      BareReachShrinks(g, e, f, d, b);
    }
  }

  lemma NewlyBrokenIsBare(g: Dependents, e: Errors, x: PackageId, y: PackageId)
    requires NewlyBroken(g, e, x, Transitive, y)
    ensures BareReach(g, e, x, y)
  {
    var d :| Edge(g, x, d) && IsNews(e, d, x, Transitive) && BareReach(g, e, d, y);
    assert !Has(e, d, x);
    BareReachStep(g, e, x, d, y);
  }

  lemma MissingThrough(g: Dependents, e: Errors, f: Errors, d: PackageId, y: PackageId, error: DependencyError)
    requires d in e && IsNews(e, d, y, error)
    requires f == Put(e, d, y, Merged(e, d, y, error))
    requires ReachesMissing(g, f, d, Transitive)
    ensures OneReachesMissing(g, e, d, y, error)
  {
    var b, a :| Edge(g, b, a) && a !in f && (b == d || NewlyBroken(g, f, d, Transitive, b));
    if b == d {
      BareReachRefl(g, e, d);
    } else {
      NewlyBrokenIsBare(g, f, d, b);
      BareReachShrinks(g, e, f, d, b);
    }
  }

  /** Along a bare path from a package that has passed its error on, every package has. */
  lemma {:induction false} SaturationSpreads(g: Dependents, e: Errors, f: Errors, p: seq<PackageId>)
    requires BarePath(g, e, p) && Saturated(g, f, p[0]) && PassedOn(g, e, f)
    ensures Saturated(g, f, p[|p| - 1])
    decreases |p|
  {
    if |p| > 1 {
      assert Edge(g, p[0], p[1]);
      assert Has(f, p[1], p[0]) && !Has(e, p[1], p[0]);
      var q := p[1..];
      assert BarePath(g, e, q) by {
        forall i | 0 <= i < |q| - 1
          ensures Edge(g, q[i], q[i + 1]) && !Has(e, q[i + 1], q[i])
        {
          assert q[i] == p[i + 1] && q[i + 1] == p[i + 1 + 1];
        }
      }
      SaturationSpreads(g, e, f, q);
    }
  }

  lemma NothingMissing(g: Dependents, e: Errors, f: Errors, d: PackageId, y: PackageId, error: DependencyError)
    requires OneBroken(g, e, f, d, y, error)
    ensures !OneReachesMissing(g, e, d, y, error)
  {
    assert Has(f, d, y);
    forall b, a | Edge(g, b, a) && IsNews(e, d, y, error) && BareReach(g, e, d, b)
      ensures a in e
    {
      var p :| BarePath(g, e, p) && p[0] == d && p[|p| - 1] == b;
      SaturationSpreads(g, e, f, p);
      assert Has(f, a, b);
    }
  }

  lemma NewlyBrokenIsSaturated(g: Dependents, e: Errors, f: Errors, id: PackageId, error: DependencyError, y: PackageId)
    requires SomeBroken(g, e, f, id, error, DependentsOf(g, id))
    requires NewlyBroken(g, e, id, error, y)
    ensures Saturated(g, f, y)
  {
    var d :| Edge(g, id, d) && IsNews(e, d, id, error) && BareReach(g, e, d, y);
    var p :| BarePath(g, e, p) && p[0] == d && p[|p| - 1] == y;
    SaturationSpreads(g, e, f, p);
  }

  /** Once all dependents are visited the table is exactly the announced one, and nothing missing was reached. */
  lemma AllBroken(g: Dependents, e: Errors, f: Errors, id: PackageId, error: DependencyError)
    requires SomeBroken(g, e, f, id, error, DependentsOf(g, id))
    ensures forall d, y :: Lookup(f, d, y) == BrokenEntry(g, e, id, error, d, y)
    ensures !ReachesMissing(g, e, id, error)
  {
    forall d, y
      ensures Lookup(f, d, y) == BrokenEntry(g, e, id, error, d, y)
    {
      if !(y == id && Edge(g, id, d)) && !Has(e, d, y) && Edge(g, y, d) && NewlyBroken(g, e, id, error, y) {
        NewlyBrokenIsSaturated(g, e, f, id, error, y);
        assert Has(f, d, y);
      }
    }
    forall y, d | Edge(g, y, d) && (y == id || NewlyBroken(g, e, id, error, y))
      ensures d in e
    {
      if y != id {
        NewlyBrokenIsSaturated(g, e, f, id, error, y);
      }
      assert Has(f, d, y);
    }
  }
}
