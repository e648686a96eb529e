/** Exactly when stopping a service and starting it again leaves no trace in the error tables. */
module RoundTrip {
  import opened Common
  import opened DependencyErrors
  import opened ErrorGraph
  import opened PackageInfo
  import opened TryHealing
  import opened BreakSpec
  import opened BreakSteps
  import opened HealSpec
  import opened DependencyTheorems

  /** The table before the stop: closed, settled, and with no dependent holding anything against `id`. */
  ghost predicate Calm(w: World, g: Dependents, e: Errors, id: PackageId) {
    && Closed(g, e)
    && (forall a, b :: Has(e, a, b) ==> Settled(w, e, a, b))
    && (forall d :: Edge(g, id, d) ==> !Has(e, d, id))
  }

  /** Only the status of `id` differs between the two worlds, and in the second it is starting. */
  ghost predicate Started(v: World, w: World, id: PackageId) {
    && v.env == w.env && id in v.packages && w.packages.Keys == v.packages.Keys
    && (forall p :: p in v.packages && p != id ==> w.packages[p] == v.packages[p])
    && w.packages[id] == v.packages[id].(main := MainStatus.Starting(false))
  }

  lemma RehealElsewhere(v: World, w: World, id: PackageId, e: Errors, a: PackageId, b: PackageId, u: DependencyError)
    requires Started(v, w, id) && b != id
    ensures Reheal(w, e, a, b, u) == Reheal(v, e, a, b, u)
  {
    if a in v.packages && b in v.packages[a].requirements {
      OtherStatusIgnored(v.env, v.packages, w.packages, id, e, u, a, b, None, v.packages[a].requirements[b]);
    }
  }

  /** Once the service is starting, a NotRunning held against it is down to the Transitive rung. */
  lemma StartingClears(w: World, e: Errors, d: PackageId, id: PackageId)
    requires id in w.packages && w.packages[id].main == MainStatus.Starting(false)
    requires d in w.packages && id in w.packages[d].requirements
    ensures Reheal(w, e, d, id, NotRunning) == Ok(if Dirty(e, id) then Some(Transitive) else None)
  {
  }

  /** A way round a cycle along edges on which nothing is recorded. */
  ghost predicate BareCycle(g: Dependents, e: Errors, p: seq<PackageId>) {
    BarePath(g, e, p) && |p| > 1 && p[0] == p[|p| - 1]
  }

  /** Errors that a stop of `id` records could come to rest on each other: it leads to a cycle with no error on it. */
  ghost predicate Tangled(g: Dependents, e: Errors, id: PackageId) {
    exists p :: BareCycle(g, e, p) && BareReach(g, e, id, p[0])
  }

  /** b is led to from a cycle with no error on it that `id` leads to, all along edges with no error. */
  ghost predicate Behind(g: Dependents, e: Errors, id: PackageId, b: PackageId) {
    exists p :: BareCycle(g, e, p) && BareReach(g, e, id, p[0]) && BareReach(g, e, p[0], b)
  }

  /** The entry (a, b) once `id` has been stopped and started again. */
  ghost function EntryAfter(g: Dependents, e: Errors, id: PackageId, a: PackageId, b: PackageId): Option<DependencyError> {
    if Has(e, a, b) then Some(e[a][b])
    else if Edge(g, b, a) && Behind(g, e, id, b) then Some(Transitive)
    else None
  }

  lemma BarePart(g: Dependents, e: Errors, p: seq<PackageId>, i: nat, j: nat)
    requires BarePath(g, e, p) && i <= j < |p|
    ensures BarePath(g, e, p[i..j + 1]) && p[i..j + 1][0] == p[i] && p[i..j + 1][j - i] == p[j]
    ensures BareReach(g, e, p[i], p[j])
  {
    var q := p[i..j + 1];
    assert BarePath(g, e, q) by {
      forall k | 0 <= k < |q| - 1
        ensures Edge(g, q[k], q[k + 1]) && !Has(e, q[k + 1], q[k])
      {
        assert q[k] == p[i + k] && q[k + 1] == p[i + k + 1];
      }
    }
    assert q[0] == p[i] && q[|q| - 1] == p[j];
  }

  /** A bare path that `id` leads to and whose end is not behind a cycle visits no package twice, so it is no longer than the graph. */
  lemma BarePathBound(g: Dependents, e: Errors, id: PackageId, p: seq<PackageId>)
    requires BarePath(g, e, p) && BareReach(g, e, id, p[0]) && !Behind(g, e, id, p[|p| - 1])
    ensures |p| <= |g.Keys| + 1
  {
    forall i | 0 <= i < |p| - 1
      ensures p[i] in g.Keys
    {
      assert Edge(g, p[i], p[i + 1]);
    }
    forall i, j | 0 <= i < j < |p|
      ensures p[i] != p[j]
    {
      var q := p[i..j + 1];
      BarePart(g, e, p, 0, i);
      BareReachTrans(g, e, id, p[0], p[i]);
      BarePart(g, e, p, i, |p| - 1);
      BarePart(g, e, p, i, j);
      assert p[i] == p[j] ==> BareCycle(g, e, q);
    }
    DistinctCount(p[..|p| - 1], g.Keys);
  }

  lemma AcyclicIsUntangled(g: Dependents, e: Errors, id: PackageId)
    requires Acyclic(g)
    ensures !Tangled(g, e, id)
  {
    forall p | BarePath(g, e, p) && |p| > 1
      ensures p[0] != p[|p| - 1]
    {
      assert IsPath(g, p);
    }
  }

  lemma {:induction false} DistinctCount(p: seq<PackageId>, s: set<PackageId>)
    requires forall i, j :: 0 <= i < j < |p| ==> p[i] != p[j]
    requires forall i :: 0 <= i < |p| ==> p[i] in s
    ensures |p| <= |s|
  {
    if |p| > 0 {
      DistinctCount(p[1..], s - {p[0]});
    }
  }

  /** In a table that has all the original entries, an original entry is not found gone. */
  lemma OriginalHolds(v: World, w: World, g: Dependents, e: Errors, f: Errors, z: Errors, id: PackageId, a: PackageId, b: PackageId)
    requires Calm(v, g, e, id) && Started(v, w, id)
    requires SomeBroken(g, e, f, id, NotRunning, DependentsOf(g, id))
    requires Has(e, a, b) && Edge(g, b, a) && forall c, d :: Has(e, c, d) ==> Has(z, c, d)
    ensures Has(f, a, b) && Reheal(w, z, a, b, f[a][b]) != Ok(None)
  {
    assert Lookup(f, a, b) == Lookup(e, a, b);
    assert Settled(v, e, a, b);
    RehealElsewhere(v, w, id, e, a, b, e[a][b]);
    DirtyHas(e, b);
    DirtyHas(z, b);
    RehealSame(w, z, e, a, b, e[a][b]);
  }

  /** The original table is consistent with the heal, so nothing of it is removed. */
  lemma OriginalIsFloor(v: World, w: World, g: Dependents, e: Errors, f: Errors, id: PackageId)
    requires Calm(v, g, e, id) && Started(v, w, id)
    requires SomeBroken(g, e, f, id, NotRunning, DependentsOf(g, id))
    ensures Floor(w, g, f, e, id, DependentsOf(g, id))
  {
    SomeBrokenGrows(g, e, f, id, NotRunning, DependentsOf(g, id));
    forall a, b | Has(e, a, b) && LookedAt(g, f, e, id, DependentsOf(g, id), a, b)
      ensures Reheal(w, e, a, b, f[a][b]) != Ok(None)
    {
      OriginalHolds(v, w, g, e, f, e, id, a, b);
    }
  }

  /** The dependency that a recorded error names is reached from `id` along bare edges. */
  lemma FreshIsReached(v: World, g: Dependents, e: Errors, f: Errors, id: PackageId, a: PackageId, b: PackageId)
    requires Calm(v, g, e, id) && SomeBroken(g, e, f, id, NotRunning, DependentsOf(g, id))
    requires Has(f, a, b) && !Has(e, a, b)
    ensures Edge(g, b, a) && BareReach(g, e, id, b)
  {
    BareReachRefl(g, e, id);
    if b != id {
      var d :| Edge(g, id, d) && IsNews(e, d, id, NotRunning) && BareReach(g, e, d, b);
      BareReachStep(g, e, id, d, b);
    }
  }

  /** A leftover of the break rests on another leftover one step closer to `id`: impossible unless behind a bare cycle. */
  lemma {:induction false} NoLeftover(v: World, w: World, g: Dependents, e: Errors, f: Errors, h: Errors, id: PackageId,
                                      p: seq<PackageId>, c: PackageId)
    requires Calm(v, g, e, id) && Started(v, w, id)
    requires SomeBroken(g, e, f, id, NotRunning, DependentsOf(g, id))
    requires Healed(w, g, f, h, id, DependentsOf(g, id))
    requires BarePath(g, e, p) && BareReach(g, e, id, p[0]) && !Behind(g, e, id, p[|p| - 1])
    ensures Has(h, p[0], c) ==> Has(e, p[0], c)
    decreases |g.Keys| + 1 - |p|
  {
    BarePathBound(g, e, id, p);
    if Has(h, p[0], c) && !Has(e, p[0], c) {
      FreshIsReached(v, g, e, f, id, p[0], c);
      LeftoverIsFed(v, w, g, e, f, h, id, p[0], c);
      var d := Feeder(g, e, h, p[0], c);
      BarePathCons(g, e, c, p);
      BarePathBound(g, e, id, [c] + p);
      NoLeftover(v, w, g, e, f, h, id, [c] + p, d);
    }
  }

  lemma Feeder(g: Dependents, e: Errors, h: Errors, a: PackageId, b: PackageId) returns (c: PackageId)
    requires Closed(g, e) && Edge(g, b, a) && !Has(e, a, b) && Dirty(h, b)
    ensures Has(h, b, c) && !Has(e, b, c)
  {
    DirtyHas(h, b);
    DirtyHas(e, b);
    c :| Has(h, b, c);
  }

  lemma BarePathCons(g: Dependents, e: Errors, c: PackageId, p: seq<PackageId>)
    requires BarePath(g, e, p) && Edge(g, c, p[0]) && !Has(e, p[0], c)
    ensures BarePath(g, e, [c] + p)
  {
    var q := [c] + p;
    forall i | 0 <= i < |q| - 1
      ensures Edge(g, q[i], q[i + 1]) && !Has(e, q[i + 1], q[i])
    {
      if i > 0 {
        assert q[i] == p[i - 1] && q[i + 1] == p[i - 1 + 1];
      }
    }
  }

  lemma LeftoverIsFed(v: World, w: World, g: Dependents, e: Errors, f: Errors, h: Errors, id: PackageId, a: PackageId, b: PackageId)
    requires Calm(v, g, e, id) && Started(v, w, id)
    requires SomeBroken(g, e, f, id, NotRunning, DependentsOf(g, id))
    requires Healed(w, g, f, h, id, DependentsOf(g, id))
    requires Edge(g, b, a) && Has(h, a, b) && !Has(e, a, b)
    ensures Dirty(h, b) && h[a][b] == Transitive
  {
    assert Has(f, a, b);
    if b == id {
      assert Lookup(f, a, id) == Some(Merged(e, a, id, NotRunning));
      assert LookedAt(g, f, h, id, DependentsOf(g, id), a, b);
      assert Reheal(w, h, a, b, NotRunning) == Ok(Lookup(h, a, b));
      StartingClears(w, h, a, id);
    } else {
      FreshIsTransitive(g, e, f, id, a, b);
      TransitiveIsFed(w, g, f, h, id, a, b);
    }
  }

  lemma FreshIsTransitive(g: Dependents, e: Errors, f: Errors, id: PackageId, a: PackageId, b: PackageId)
    requires SomeBroken(g, e, f, id, NotRunning, DependentsOf(g, id))
    requires b != id && Has(f, a, b) && !Has(e, a, b)
    ensures f[a][b] == Transitive && Edge(g, b, a) && Dirty(f, b)
  {
    NewlyBrokenIsDirty(g, e, f, id, NotRunning, b);
  }

  lemma TransitiveIsFed(w: World, g: Dependents, f: Errors, h: Errors, id: PackageId, a: PackageId, b: PackageId)
    requires Healed(w, g, f, h, id, DependentsOf(g, id))
    requires Has(f, a, b) && f[a][b] == Transitive && Edge(g, b, a) && Dirty(f, b) && Has(h, a, b)
    ensures Dirty(h, b) && h[a][b] == Transitive
  {
  }

  // ----- what is behind a bare cycle keeps its errors

  /** The break records an error on every bare edge from a package that `id` leads to. */
  lemma ReachedIsBroken(v: World, g: Dependents, e: Errors, f: Errors, id: PackageId, a: PackageId, b: PackageId)
    requires Calm(v, g, e, id) && SomeBroken(g, e, f, id, NotRunning, DependentsOf(g, id))
    requires BareReach(g, e, id, b) && Edge(g, b, a)
    ensures Has(f, a, b)
  {
    var q :| BarePath(g, e, q) && q[0] == id && q[|q| - 1] == b;
    assert Saturated(g, f, id) by {
      forall d | Edge(g, id, d)
        ensures Has(f, d, id)
      {
        assert Lookup(f, d, id) == Some(Merged(e, d, id, NotRunning));
      }
    }
    SaturationSpreads(g, e, f, q);
  }

  /** What is behind a cycle is reached, and is led to by a bare edge from something behind a cycle. */
  lemma BehindIsFed(g: Dependents, e: Errors, id: PackageId, b: PackageId) returns (c: PackageId)
    requires Behind(g, e, id, b)
    ensures BareReach(g, e, id, b) && Edge(g, c, b) && !Has(e, b, c) && Behind(g, e, id, c)
  {
    var p :| BareCycle(g, e, p) && BareReach(g, e, id, p[0]) && BareReach(g, e, p[0], b);
    BareReachTrans(g, e, id, p[0], b);
    var q :| BarePath(g, e, q) && q[0] == p[0] && q[|q| - 1] == b;
    var r := if |q| > 1 then q else p;
    c := r[|r| - 2];
    BarePart(g, e, r, 0, |r| - 2);
    assert Edge(g, r[|r| - 2], r[|r| - 2 + 1]);
  }

  /** The original table with the errors that the break recorded behind cycles. */
  ghost function WithCycles(g: Dependents, e: Errors, f: Errors, id: PackageId): (z: Errors)
    ensures z.Keys == f.Keys
    ensures forall a, b :: Has(z, a, b) <==> Has(f, a, b) && (Has(e, a, b) || Behind(g, e, id, b))
  {
    map a | a in f :: map b | b in f[a] && (Has(e, a, b) || Behind(g, e, id, b)) :: f[a][b]
  }

  /** The errors behind cycles rest on each other. */
  lemma CyclesAreFed(v: World, g: Dependents, e: Errors, f: Errors, id: PackageId, b: PackageId)
    requires Calm(v, g, e, id) && SomeBroken(g, e, f, id, NotRunning, DependentsOf(g, id)) && Behind(g, e, id, b)
    ensures Dirty(WithCycles(g, e, f, id), b)
  {
    var c := BehindIsFed(g, e, id, b);
    var d := BehindIsFed(g, e, id, c);
    ReachedIsBroken(v, g, e, f, id, b, c);
    DirtyHas(WithCycles(g, e, f, id), b);
  }

  lemma CyclesAreFloor(v: World, w: World, g: Dependents, e: Errors, f: Errors, id: PackageId)
    requires Calm(v, g, e, id) && Started(v, w, id)
    requires SomeBroken(g, e, f, id, NotRunning, DependentsOf(g, id))
    ensures Floor(w, g, f, WithCycles(g, e, f, id), id, DependentsOf(g, id))
  {
    var z := WithCycles(g, e, f, id);
    SomeBrokenGrows(g, e, f, id, NotRunning, DependentsOf(g, id));
    forall a, b | Has(z, a, b) && LookedAt(g, f, z, id, DependentsOf(g, id), a, b)
      ensures Reheal(w, z, a, b, f[a][b]) != Ok(None)
    {
      if Has(e, a, b) {
        OriginalHolds(v, w, g, e, f, z, id, a, b);
      } else {
        CyclesAreFed(v, g, e, f, id, b);
        RehealSame(w, z, z, a, b, f[a][b]);
      }
    }
  }

  /** An entry that was not there before is there after the start exactly on the edges from what is behind a cycle. */
  lemma FreshAfter(v: World, w: World, g: Dependents, e: Errors, f: Errors, h: Errors, id: PackageId, a: PackageId, b: PackageId)
    requires Calm(v, g, e, id) && Started(v, w, id)
    requires SomeBroken(g, e, f, id, NotRunning, DependentsOf(g, id))
    requires FullyHealed(w, g, f, h, id, DependentsOf(g, id)) && !Has(e, a, b)
    ensures Lookup(h, a, b) == EntryAfter(g, e, id, a, b)
  {
    if Edge(g, b, a) && Behind(g, e, id, b) {
      var c := BehindIsFed(g, e, id, b);
      ReachedIsBroken(v, g, e, f, id, a, b);
      CyclesAreFloor(v, w, g, e, f, id);
      assert Has(WithCycles(g, e, f, id), a, b);
      LeftoverIsFed(v, w, g, e, f, h, id, a, b);
    } else if Has(h, a, b) {
      FreshIsReached(v, g, e, f, id, a, b);
      LeftoverIsFed(v, w, g, e, f, h, id, a, b);
      var c := Feeder(g, e, h, a, b);
      NoLeftover(v, w, g, e, f, h, id, [b], c);
    }
  }

  lemma OriginalAfter(v: World, w: World, g: Dependents, e: Errors, f: Errors, h: Errors, id: PackageId, a: PackageId, b: PackageId)
    requires Calm(v, g, e, id) && Started(v, w, id)
    requires SomeBroken(g, e, f, id, NotRunning, DependentsOf(g, id))
    requires FullyHealed(w, g, f, h, id, DependentsOf(g, id)) && Has(e, a, b)
    ensures Lookup(h, a, b) == Lookup(e, a, b)
  {
    OriginalIsFloor(v, w, g, e, f, id);
    assert Within(h, e);
    OriginalKept(v, w, g, e, f, h, id, a, b);
  }

  /**
   * On any graph, breaking with NotRunning and then healing once the service is starting leaves
   * every entry that was there as it was, and adds Transitive exactly on the edges without an
   * error from packages behind a cycle without errors.
   */
  lemma StartAfterStop(v: World, w: World, g: Dependents, e: Errors, f: Errors, h: Errors, id: PackageId)
    requires Calm(v, g, e, id) && Started(v, w, id)
    requires SomeBroken(g, e, f, id, NotRunning, DependentsOf(g, id))
    requires FullyHealed(w, g, f, h, id, DependentsOf(g, id))
    ensures h.Keys == e.Keys && forall a, b :: Lookup(h, a, b) == EntryAfter(g, e, id, a, b)
  {
    forall a, b
      ensures Lookup(h, a, b) == EntryAfter(g, e, id, a, b)
    {
      if Has(e, a, b) {
        OriginalAfter(v, w, g, e, f, h, id, a, b);
      } else {
        FreshAfter(v, w, g, e, f, h, id, a, b);
      }
    }
  }

  /** So the table before comes back exactly when `id` did not lead to such a cycle. */
  lemma RestoredUnlessTangled(g: Dependents, e: Errors, h: Errors, id: PackageId)
    requires h.Keys == e.Keys && forall a, b :: Lookup(h, a, b) == EntryAfter(g, e, id, a, b)
    ensures h == e <==> !Tangled(g, e, id)
    ensures Acyclic(g) ==> h == e
  {
    if Tangled(g, e, id) {
      var p :| BareCycle(g, e, p) && BareReach(g, e, id, p[0]);
      BareReachRefl(g, e, p[0]);
      assert Edge(g, p[0], p[0 + 1]) && !Has(e, p[0 + 1], p[0]);
      assert Lookup(h, p[1], p[0]) == EntryAfter(g, e, id, p[1], p[0]);
    } else {
      assert forall b :: !Behind(g, e, id, b);
      SameEntriesSameTable(h, e);
    }
    if Acyclic(g) {
      AcyclicIsUntangled(g, e, id);
    }
  }

  lemma StartUndoesStop(v: World, w: World, g: Dependents, e: Errors, f: Errors, h: Errors, id: PackageId)
    requires Calm(v, g, e, id) && Started(v, w, id)
    requires SomeBroken(g, e, f, id, NotRunning, DependentsOf(g, id))
    requires FullyHealed(w, g, f, h, id, DependentsOf(g, id))
    ensures h == e <==> !Tangled(g, e, id)
    ensures Acyclic(g) ==> h == e
  {
    StartAfterStop(v, w, g, e, f, h, id);
    RestoredUnlessTangled(g, e, h, id);
  }

  /** Two packages that depend on each other, one of them on the service, and no errors. */
  ghost predicate Mutual(g: Dependents, e: Errors, id: PackageId, a: PackageId, b: PackageId) {
    && id != a && a != b && id != b
    && g == map[id := {a}, a := {b}, b := {a}] && e == map[id := map[], a := map[], b := map[]]
  }

  lemma MutualDependentsTangle(v: World, g: Dependents, e: Errors, id: PackageId, a: PackageId, b: PackageId)
    requires Mutual(g, e, id, a, b)
    ensures Calm(v, g, e, id) && Tangled(g, e, id) && Behind(g, e, id, a) && Behind(g, e, id, b)
  {
    BareReachRefl(g, e, a);
    BareReachRefl(g, e, b);
    BareReachStep(g, e, id, a, a);
    BareReachStep(g, e, a, b, b);
    assert BareCycle(g, e, [a, b, a]);
  }

  /** There every stop and start leaves the two holding Transitive against each other. */
  lemma MutualDependentsStayBroken(v: World, w: World, g: Dependents, e: Errors, f: Errors, h: Errors, id: PackageId, a: PackageId, b: PackageId)
    requires Mutual(g, e, id, a, b) && Started(v, w, id)
    requires SomeBroken(g, e, f, id, NotRunning, DependentsOf(g, id))
    requires FullyHealed(w, g, f, h, id, DependentsOf(g, id))
    ensures Lookup(h, a, b) == Lookup(h, b, a) == Some(Transitive) && h != e
  {
    MutualDependentsTangle(v, g, e, id, a, b);
    StartAfterStop(v, w, g, e, f, h, id);
    assert EntryAfter(g, e, id, a, b) == EntryAfter(g, e, id, b, a) == Some(Transitive);
    assert Lookup(e, a, b) == None;
  }

  lemma OriginalKept(v: World, w: World, g: Dependents, e: Errors, f: Errors, h: Errors, id: PackageId, a: PackageId, b: PackageId)
    requires Calm(v, g, e, id) && Started(v, w, id)
    requires SomeBroken(g, e, f, id, NotRunning, DependentsOf(g, id))
    requires Healed(w, g, f, h, id, DependentsOf(g, id))
    requires Has(e, a, b) && Has(h, a, b)
    ensures Lookup(h, a, b) == Lookup(e, a, b)
  {
    assert !(b == id && a in DependentsOf(g, id));
    assert Lookup(f, a, b) == Lookup(e, a, b);
    if LookedAt(g, f, h, id, DependentsOf(g, id), a, b) {
      assert b != id || !Edge(g, id, a);
      assert Settled(v, e, a, b);
      RehealElsewhere(v, w, id, h, a, b, e[a][b]);
      RehealSame(v, e, h, a, b, e[a][b]);
      if a in v.packages && b in v.packages[a].requirements {
        TableMattersLast(v.env, v.packages, e, h, e[a][b], a, b, None, v.packages[a].requirements[b]);
      }
    }
  }

  /** Every dependent is installed and its manifest lists the dependency. */
  ghost predicate Covered(w: World, g: Dependents) {
    forall a, b :: Edge(g, b, a) ==> a in w.packages && b in w.packages[a].requirements
  }

  /** After the stop, no entry can make the heal of the start fail. */
  lemma StartCannotFail(v: World, w: World, g: Dependents, e: Errors, f: Errors, id: PackageId, a: PackageId, b: PackageId)
    requires Calm(v, g, e, id) && Started(v, w, id) && Covered(v, g) && e.Keys == v.packages.Keys
    requires SomeBroken(g, e, f, id, NotRunning, DependentsOf(g, id))
    requires Edge(g, b, a)
    ensures !Unhealable(w, f, a, b)
  {
    assert a in v.packages && b in v.packages[a].requirements;
    if Has(f, a, b) {
      if b == id {
        assert Lookup(f, a, id) == Some(Merged(e, a, id, NotRunning));
        StartingClears(w, f, a, id);
      } else if Has(e, a, b) {
        assert Lookup(f, a, b) == Lookup(e, a, b);
        assert Settled(v, e, a, b);
        RehealElsewhere(v, w, id, f, a, b, e[a][b]);
        RehealSame(v, e, f, a, b, e[a][b]);
      } else {
        assert f[a][b] == Transitive;
      }
    }
  }
}
