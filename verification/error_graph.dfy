/**
 * The dependents graph and the error table, as values.
 *
 * An edge from y to d says that d currently depends on y: d is a key of y's
 * `current_dependents`. The entry (d, y) of the error table is what d's
 * `dependency_errors` holds under the key y. A self edge is never followed.
 */
module ErrorGraph {
  import opened Common
  import opened DependencyErrors

  type Dependents = map<PackageId, set<PackageId>>
  type ErrorMap = map<PackageId, DependencyError>
  type Errors = map<PackageId, ErrorMap>

  predicate Edge(g: Dependents, y: PackageId, d: PackageId) {
    y in g && d in g[y] && d != y
  }

  function DependentsOf(g: Dependents, y: PackageId): set<PackageId>
    ensures forall d :: d in DependentsOf(g, y) <==> Edge(g, y, d)
  {
    if y in g then g[y] - {y} else {}
  }

  predicate Has(e: Errors, d: PackageId, y: PackageId) {
    d in e && y in e[d]
  }

  function Lookup(e: Errors, d: PackageId, y: PackageId): Option<DependencyError> {
    if Has(e, d, y) then Some(e[d][y]) else None
  }

  function RankAt(e: Errors, d: PackageId, y: PackageId): nat {
    if Has(e, d, y) then Rank(e[d][y]) else 0
  }

  function Put(e: Errors, d: PackageId, y: PackageId, v: DependencyError): (r: Errors)
    requires d in e
    ensures r.Keys == e.Keys
    ensures forall a, b :: Lookup(r, a, b) == if a == d && b == y then Some(v) else Lookup(e, a, b)
  {
    e[d := e[d][y := v]]
  }

  function Drop(e: Errors, d: PackageId, y: PackageId): (r: Errors)
    requires d in e
    ensures r.Keys == e.Keys
    ensures forall a, b :: Lookup(r, a, b) == if a == d && b == y then None else Lookup(e, a, b)
  {
    e[d := e[d] - {y}]
  }

  /** Two tables over the same packages with the same entries are the same table. */
  lemma SameEntriesSameTable(e: Errors, f: Errors)
    requires e.Keys == f.Keys
    requires forall d, y :: Lookup(e, d, y) == Lookup(f, d, y)
    ensures e == f
  {
    forall d | d in e
      ensures e[d] == f[d]
    {
      forall y
        ensures y in e[d] <==> y in f[d]
        ensures y in e[d] ==> e[d][y] == f[d][y]
      {
        assert Lookup(e, d, y) == Lookup(f, d, y);
      }
    }
  }

  /** A path along edges of the dependents graph. */
  ghost predicate IsPath(g: Dependents, p: seq<PackageId>) {
    |p| > 0 && forall i :: 0 <= i < |p| - 1 ==> Edge(g, p[i], p[i + 1])
  }

  /** No path of two or more packages returns to its start. */
  ghost predicate Acyclic(g: Dependents) {
    forall p :: IsPath(g, p) && |p| > 1 ==> p[0] != p[|p| - 1]
  }

  ghost predicate Reachable(g: Dependents, x: PackageId, y: PackageId) {
    exists p :: IsPath(g, p) && p[0] == x && p[|p| - 1] == y
  }

  /** The edges on which no error is recorded: what a propagating break has yet to visit. */
  ghost function MissingEdges(g: Dependents, e: Errors): set<(PackageId, PackageId)> {
    set y, d | y in g && d in g[y] && d != y && !Has(e, d, y) :: (y, d)
  }

  lemma MissingShrinks(g: Dependents, e: Errors, f: Errors)
    requires forall d, y :: Has(e, d, y) ==> Has(f, d, y)
    ensures |MissingEdges(g, f)| <= |MissingEdges(g, e)|
    ensures forall y, d :: Edge(g, y, d) && !Has(e, d, y) && Has(f, d, y) ==> |MissingEdges(g, f)| < |MissingEdges(g, e)|
  {
    assert MissingEdges(g, f) <= MissingEdges(g, e);
    SubsetSize(MissingEdges(g, f), MissingEdges(g, e));
    forall y, d | Edge(g, y, d) && !Has(e, d, y) && Has(f, d, y)
      ensures |MissingEdges(g, f)| < |MissingEdges(g, e)|
    {
      assert (y, d) in MissingEdges(g, e) - MissingEdges(g, f);
      SubsetSize(MissingEdges(g, f), MissingEdges(g, e) - {(y, d)});
    }
  }

  /** Every package with an error has an entry for itself in each of its dependents. */
  ghost predicate Closed(g: Dependents, e: Errors) {
    forall y, d :: y in e && e[y] != map[] && Edge(g, y, d) ==> Has(e, d, y)
  }

  /** A Transitive entry is backed by an error of the dependency it names. */
  ghost predicate Sound(e: Errors) {
    forall d, y :: Has(e, d, y) && e[d][y] == Transitive ==> y in e && e[y] != map[]
  }

  /** Entries lie on graph edges only. */
  ghost predicate OnEdges(g: Dependents, e: Errors) {
    forall d, y :: Has(e, d, y) ==> Edge(g, y, d)
  }
}
