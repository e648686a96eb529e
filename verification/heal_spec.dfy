/**
 * What healing the dependents of a package does to the error table. The table
 * reached is characterised by an equation on itself together with being the largest
 * table that satisfies it, so that it does not depend on the order of visits.
 */
module HealSpec {
  import opened Common
  import opened DependencyErrors
  import opened ErrorGraph
  import opened PackageInfo
  import opened TryHealing

  datatype World = World(env: Env, packages: Packages)

  /** The outcome of re-examining error v, held by d about y, in table e. */
  function Reheal(w: World, e: Errors, d: PackageId, y: PackageId, v: DependencyError): Result<Option<DependencyError>> {
    if d in w.packages && y in w.packages[d].requirements then
      TryHeal(w.env, w.packages, e, v, d, y, None, w.packages[d].requirements[y])
    else Err(NotFound(y))
  }

  /** The entry (d, y), if there is one, would survive re-examination unchanged. */
  predicate Settled(w: World, e: Errors, d: PackageId, y: PackageId) {
    Has(e, d, y) ==> Reheal(w, e, d, y, e[d][y]) == Ok(Some(e[d][y]))
  }

  /** b lost an entry between e and f. */
  ghost predicate Shrunk(e: Errors, f: Errors, b: PackageId) {
    exists c :: Has(e, b, c) && !Has(f, b, c)
  }

  /** f has entries only where e has. */
  ghost predicate Within(e: Errors, f: Errors) {
    f.Keys == e.Keys && forall a, b :: Has(f, a, b) ==> Has(e, a, b)
  }

  /** The entry (a, b) is looked at: a is one of the dependents of y being healed, or b lost an entry. */
  ghost predicate LookedAt(g: Dependents, e: Errors, f: Errors, y: PackageId, done: set<PackageId>, a: PackageId, b: PackageId) {
    (b == y && a in done) || (Edge(g, b, a) && Shrunk(e, f, b))
  }

  /** Every entry looked at is what the ladder makes of the original in the final table; the others are untouched. */
  ghost predicate Healed(w: World, g: Dependents, e: Errors, f: Errors, y: PackageId, done: set<PackageId>) {
    && Within(e, f)
    && forall a, b :: Has(e, a, b) ==>
         if LookedAt(g, e, f, y, done, a, b) then Reheal(w, f, a, b, e[a][b]) == Ok(Lookup(f, a, b))
         else Lookup(f, a, b) == Lookup(e, a, b)
  }

  /** z is consistent in one direction: it keeps no entry that would be looked at and found gone. */
  ghost predicate Floor(w: World, g: Dependents, e: Errors, z: Errors, y: PackageId, done: set<PackageId>) {
    && Within(e, z)
    && forall a, b :: Has(z, a, b) && LookedAt(g, e, z, y, done, a, b) ==> Reheal(w, z, a, b, e[a][b]) != Ok(None)
  }

  /** Healing removes nothing that a consistent table could keep. */
  ghost predicate AboveFloors(w: World, g: Dependents, e: Errors, f: Errors, y: PackageId, done: set<PackageId>) {
    forall z :: Floor(w, g, e, z, y, done) ==> Within(f, z)
  }

  /** The entry (a, b) cannot be re-examined, or belongs to a package that is not installed. */
  ghost predicate Unhealable(w: World, e: Errors, a: PackageId, b: PackageId) {
    a !in e || (Has(e, a, b) && Reheal(w, e, a, b, e[a][b]).Err?)
  }

  ghost function Entries(e: Errors): set<(PackageId, PackageId)> {
    set a, b | a in e && b in e[a] :: (a, b)
  }

  lemma EntriesShrink(e: Errors, f: Errors)
    requires Within(e, f)
    ensures |Entries(f)| <= |Entries(e)|
    ensures forall b :: Shrunk(e, f, b) ==> |Entries(f)| < |Entries(e)|
  {
    assert Entries(f) <= Entries(e) by {
      forall p | p in Entries(f)
        ensures p in Entries(e)
      {
        assert Has(f, p.0, p.1);
      }
    }
    SubsetSize(Entries(f), Entries(e));
    forall b | Shrunk(e, f, b)
      ensures |Entries(f)| < |Entries(e)|
    {
      var c :| Has(e, b, c) && !Has(f, b, c);
      assert (b, c) in Entries(e) && (b, c) !in Entries(f);
      SubsetSize(Entries(f), Entries(e) - {(b, c)});
    }
  }

  lemma DirtyHas(e: Errors, y: PackageId)
    ensures Dirty(e, y) <==> exists c :: Has(e, y, c)
  {
    if Dirty(e, y) {
      var c :| c in e[y];
      assert Has(e, y, c);
    }
  }

  lemma DirtyShrinks(e: Errors, f: Errors, y: PackageId)
    requires Within(e, f)
    ensures Dirty(f, y) ==> Dirty(e, y)
    ensures !Shrunk(e, f, y) ==> Dirty(f, y) == Dirty(e, y)
  {
    DirtyHas(e, y);
    DirtyHas(f, y);
  }

  lemma ShrunkComposes(e: Errors, f: Errors, h: Errors, b: PackageId)
    requires Within(e, f) && Within(f, h)
    ensures Within(e, h)
    ensures Shrunk(e, h, b) <==> Shrunk(e, f, b) || Shrunk(f, h, b)
  {
  }

  lemma RehealSame(w: World, e: Errors, f: Errors, a: PackageId, b: PackageId, v: DependencyError)
    ensures Dirty(e, b) == Dirty(f, b) ==> Reheal(w, e, a, b, v) == Reheal(w, f, a, b, v)
    ensures Reheal(w, e, a, b, v) == Ok(None) && !Dirty(f, b) ==> Reheal(w, f, a, b, v) == Ok(None)
    ensures Reheal(w, e, a, b, v) == Ok(None) ==> !Dirty(e, b)
    ensures Reheal(w, e, a, b, v).Err? == Reheal(w, f, a, b, v).Err?
    ensures Reheal(w, e, a, b, v) == Ok(Some(Transitive)) ==> Dirty(e, b)
  {
    if a in w.packages && b in w.packages[a].requirements {
      TableMattersLast(w.env, w.packages, e, f, v, a, b, None, w.packages[a].requirements[b]);
    }
  }

  lemma RehealAbsorbs(w: World, e: Errors, f: Errors, a: PackageId, b: PackageId, v: DependencyError, u: DependencyError)
    requires Reheal(w, e, a, b, v) == Ok(Some(u))
    ensures Reheal(w, f, a, b, u) == Reheal(w, f, a, b, v)
  {
    HealAbsorbs(w.env, w.packages, e, f, v, a, b, None, w.packages[a].requirements[b], u);
  }

  /** An entry that survived so far is re-examined to the same effect as the original would be. */
  lemma SurvivorStandsIn(w: World, g: Dependents, e: Errors, f: Errors, y: PackageId, done: set<PackageId>,
                         h: Errors, a: PackageId, b: PackageId)
    requires Healed(w, g, e, f, y, done) && Has(f, a, b)
    ensures Has(e, a, b) && Reheal(w, h, a, b, f[a][b]) == Reheal(w, h, a, b, e[a][b])
  {
    if LookedAt(g, e, f, y, done, a, b) {
      RehealAbsorbs(w, f, h, a, b, e[a][b], f[a][b]);
    }
  }

  /** One more dependent healed. */
  lemma HealOneMore(w: World, g: Dependents, e: Errors, f: Errors, h: Errors, x: PackageId, done: set<PackageId>, d: PackageId)
    requires Healed(w, g, e, f, x, done) && Healed(w, g, f, h, x, {d}) && done <= DependentsOf(g, x)
    ensures Healed(w, g, e, h, x, done + {d})
  {
    forall a, b | Has(e, a, b)
      ensures if LookedAt(g, e, h, x, done + {d}, a, b) then Reheal(w, h, a, b, e[a][b]) == Ok(Lookup(h, a, b))
              else Lookup(h, a, b) == Lookup(e, a, b)
    {
      ShrunkComposes(e, f, h, b);
      if LookedAt(g, e, h, x, done + {d}, a, b) {
        HealedTwice(w, g, e, f, h, x, done, d, a, b);
      } else {
        assert Lookup(f, a, b) == Lookup(e, a, b);
      }
    }
  }

  lemma HealedTwice(w: World, g: Dependents, e: Errors, f: Errors, h: Errors, x: PackageId, done: set<PackageId>, d: PackageId,
                    a: PackageId, b: PackageId)
    requires Healed(w, g, e, f, x, done) && Healed(w, g, f, h, x, {d}) && done <= DependentsOf(g, x)
    requires Has(e, a, b)
    requires LookedAt(g, e, f, x, done, a, b) || LookedAt(g, f, h, x, {d}, a, b)
    ensures Reheal(w, h, a, b, e[a][b]) == Ok(Lookup(h, a, b))
  {
    DirtyShrinks(f, h, b);
    RehealSame(w, f, h, a, b, e[a][b]);
    if Has(f, a, b) {
      SurvivorStandsIn(w, g, e, f, x, done, h, a, b);
    }
  }

  /** The entry stays, possibly lower on the ladder. */
  lemma HealStays(w: World, g: Dependents, e: Errors, f: Errors, d: PackageId, y: PackageId, v: DependencyError)
    requires Has(e, d, y) && Reheal(w, e, d, y, e[d][y]) == Ok(Some(v))
    requires f == Put(e, d, y, v)
    ensures Healed(w, g, e, f, y, {d})
  {
    forall a, b
      ensures Has(f, a, b) <==> Has(e, a, b)
    {
      assert Lookup(f, a, b) == if a == d && b == y then Some(v) else Lookup(e, a, b);
    }
    DirtyHas(e, y);
    DirtyHas(f, y);
    RehealSame(w, e, f, d, y, e[d][y]);
  }

  /** The entry goes, and the dependents of its holder are healed in turn. */
  lemma HealGoes(w: World, g: Dependents, e: Errors, f: Errors, h: Errors, d: PackageId, y: PackageId)
    requires Has(e, d, y) && Reheal(w, e, d, y, e[d][y]) == Ok(None)
    requires f == Drop(e, d, y)
    requires Healed(w, g, f, h, d, DependentsOf(g, d))
    ensures Healed(w, g, e, h, y, {d})
  {
    RehealSame(w, e, e, d, y, e[d][y]);
    assert forall a, b :: Lookup(f, a, b) == if a == d && b == y then None else Lookup(e, a, b);
    forall a, b | Has(f, a, b)
      ensures Has(e, a, b)
    {
    }
    assert Within(e, f) && Within(f, h);
    forall a, b | Has(e, a, b)
      ensures if LookedAt(g, e, h, y, {d}, a, b) then Reheal(w, h, a, b, e[a][b]) == Ok(Lookup(h, a, b))
              else Lookup(h, a, b) == Lookup(e, a, b)
    {
      ShrunkComposes(e, f, h, b);
      assert Shrunk(e, f, b) <==> b == d;
      if a == d && b == y {
        DirtyShrinks(e, h, y);
        RehealSame(w, e, h, d, y, e[d][y]);
      }
    }
  }

  /** A table consistent with the whole heal is consistent with the visit of one dependent. */
  lemma FloorForOne(w: World, g: Dependents, e: Errors, f: Errors, z: Errors, x: PackageId,
                    done: set<PackageId>, all: set<PackageId>, d: PackageId)
    requires Healed(w, g, e, f, x, done) && Floor(w, g, e, z, x, all) && Within(f, z) && d in all
    ensures Floor(w, g, f, z, x, {d})
  {
    forall a, b | Has(z, a, b) && LookedAt(g, f, z, x, {d}, a, b)
      ensures Reheal(w, z, a, b, f[a][b]) != Ok(None)
    {
      ShrunkComposes(e, f, z, b);
      assert LookedAt(g, e, z, x, all, a, b);
      SurvivorStandsIn(w, g, e, f, x, done, z, a, b);
    }
  }

  lemma FloorStays(e: Errors, f: Errors, z: Errors, d: PackageId, y: PackageId, v: DependencyError)
    requires Has(e, d, y) && f == Put(e, d, y, v) && Within(e, z)
    ensures Within(f, z)
  {
  }

  /** A consistent table has already lost an entry that is found gone, and is consistent with what follows. */
  lemma FloorGoes(w: World, g: Dependents, e: Errors, f: Errors, z: Errors, d: PackageId, y: PackageId)
    requires Has(e, d, y) && Reheal(w, e, d, y, e[d][y]) == Ok(None)
    requires f == Drop(e, d, y) && Floor(w, g, e, z, y, {d})
    ensures Floor(w, g, f, z, d, DependentsOf(g, d))
  {
    RehealSame(w, e, z, d, y, e[d][y]);
    DirtyShrinks(e, z, y);
    assert LookedAt(g, e, z, y, {d}, d, y);
    assert !Has(z, d, y);
    forall a, b
      ensures Lookup(f, a, b) == if a == d && b == y then None else Lookup(e, a, b)
    {
    }
    assert Within(f, z);
    assert Shrunk(e, z, d);
    forall a, b | Has(z, a, b) && LookedAt(g, f, z, d, DependentsOf(g, d), a, b)
      ensures Reheal(w, z, a, b, f[a][b]) != Ok(None)
    {
      assert Within(e, f);
      ShrunkComposes(e, f, z, b);
      assert Edge(g, b, a);
      assert LookedAt(g, e, z, y, {d}, a, b);
      assert f[a][b] == e[a][b];
    }
  }

  lemma UnhealableEarlier(w: World, g: Dependents, e: Errors, f: Errors, y: PackageId, done: set<PackageId>, a: PackageId, b: PackageId)
    requires Healed(w, g, e, f, y, done) && Unhealable(w, f, a, b)
    ensures Unhealable(w, e, a, b)
  {
    if a in f {
      SurvivorStandsIn(w, g, e, f, y, done, f, a, b);
      RehealSame(w, e, f, a, b, e[a][b]);
    }
  }

  // ----- the effect of a heal as a whole, and when it fails

  /** An entry that was looked at cannot be re-examined, or belongs to a package that is not installed. */
  ghost predicate MetUnhealable(w: World, g: Dependents, e: Errors, f: Errors, y: PackageId, done: set<PackageId>) {
    exists a, b :: LookedAt(g, e, f, y, done, a, b) && Unhealable(w, e, a, b)
  }

  ghost predicate FullyHealed(w: World, g: Dependents, e: Errors, f: Errors, y: PackageId, done: set<PackageId>) {
    Healed(w, g, e, f, y, done) && AboveFloors(w, g, e, f, y, done)
  }

  /** The dependents `done` are healed without a failure, and nothing is removed that healing all would keep. */
  ghost predicate HealedSoFar(w: World, g: Dependents, e: Errors, f: Errors, y: PackageId, done: set<PackageId>, all: set<PackageId>) {
    && Healed(w, g, e, f, y, done) && AboveFloors(w, g, e, f, y, all)
    && !MetUnhealable(w, g, e, f, y, done)
  }

  lemma MetComposes(w: World, g: Dependents, e: Errors, f: Errors, h: Errors, x: PackageId, done: set<PackageId>, d: PackageId)
    requires Healed(w, g, e, f, x, done) && Within(f, h)
    requires !MetUnhealable(w, g, e, f, x, done) && !MetUnhealable(w, g, f, h, x, {d})
    ensures !MetUnhealable(w, g, e, h, x, done + {d})
  {
    forall a, b | LookedAt(g, e, h, x, done + {d}, a, b)
      ensures !Unhealable(w, e, a, b)
    {
      ShrunkComposes(e, f, h, b);
      if !LookedAt(g, e, f, x, done, a, b) {
        assert LookedAt(g, f, h, x, {d}, a, b);
        RehealSame(w, e, f, a, b, if Has(e, a, b) then e[a][b] else Transitive);
      }
    }
  }

  lemma HealedOneMore(w: World, g: Dependents, e: Errors, f: Errors, h: Errors, x: PackageId,
                      done: set<PackageId>, all: set<PackageId>, d: PackageId)
    requires HealedSoFar(w, g, e, f, x, done, all) && d in all && done <= DependentsOf(g, x)
    requires FullyHealed(w, g, f, h, x, {d}) && !MetUnhealable(w, g, f, h, x, {d})
    ensures HealedSoFar(w, g, e, h, x, done + {d}, all)
  {
    forall z | Floor(w, g, e, z, x, all)
      ensures Within(h, z)
    {
      FloorForOne(w, g, e, f, z, x, done, all, d);
    }
    HealOneMore(w, g, e, f, h, x, done, d);
    MetComposes(w, g, e, f, h, x, done, d);
  }

  /** A failure while healing one more dependent is a failure of the whole. */
  lemma MetEarlier(w: World, g: Dependents, e: Errors, f: Errors, h: Errors, x: PackageId,
                   done: set<PackageId>, all: set<PackageId>, d: PackageId)
    requires HealedSoFar(w, g, e, f, x, done, all) && d in all
    requires Within(f, h) && AboveFloors(w, g, f, h, x, {d}) && MetUnhealable(w, g, f, h, x, {d})
    ensures Within(e, h) && AboveFloors(w, g, e, h, x, all) && MetUnhealable(w, g, e, h, x, all)
  {
    forall z | Floor(w, g, e, z, x, all)
      ensures Within(h, z)
    {
      FloorForOne(w, g, e, f, z, x, done, all, d);
    }
    var a, b :| LookedAt(g, f, h, x, {d}, a, b) && Unhealable(w, f, a, b);
    ShrunkComposes(e, f, h, b);
    UnhealableEarlier(w, g, e, f, x, done, a, b);
    assert LookedAt(g, e, h, x, all, a, b);
  }

  lemma HealedStays(w: World, g: Dependents, e: Errors, f: Errors, d: PackageId, y: PackageId, v: DependencyError)
    requires Has(e, d, y) && Reheal(w, e, d, y, e[d][y]) == Ok(Some(v))
    requires f == Put(e, d, y, v)
    ensures FullyHealed(w, g, e, f, y, {d}) && !MetUnhealable(w, g, e, f, y, {d})
  {
    HealStays(w, g, e, f, d, y, v);
    forall z | Floor(w, g, e, z, y, {d})
      ensures Within(f, z)
    {
      FloorStays(e, f, z, d, y, v);
    }
    assert forall a, b :: Lookup(f, a, b) == if a == d && b == y then Some(v) else Lookup(e, a, b);
    assert forall b :: !Shrunk(e, f, b);
  }

  lemma DroppedWithin(e: Errors, f: Errors, d: PackageId, y: PackageId)
    requires Has(e, d, y) && f == Drop(e, d, y)
    ensures Within(e, f) && Shrunk(e, f, d)
    ensures forall b :: Shrunk(e, f, b) ==> b == d
  {
    assert forall a, b :: Lookup(f, a, b) == if a == d && b == y then None else Lookup(e, a, b);
    assert Has(e, d, y) && !Has(f, d, y);
  }

  lemma UnhealableSame(w: World, e: Errors, f: Errors, d: PackageId, y: PackageId, a: PackageId, b: PackageId)
    requires Has(e, d, y) && f == Drop(e, d, y) && Reheal(w, e, d, y, e[d][y]).Ok?
    ensures Unhealable(w, f, a, b) <==> Unhealable(w, e, a, b)
  {
    assert Lookup(f, a, b) == if a == d && b == y then None else Lookup(e, a, b);
    if Has(f, a, b) {
      RehealSame(w, e, f, a, b, e[a][b]);
    }
  }

  lemma HealedGoes(w: World, g: Dependents, e: Errors, f: Errors, h: Errors, d: PackageId, y: PackageId)
    requires Has(e, d, y) && Reheal(w, e, d, y, e[d][y]) == Ok(None) && f == Drop(e, d, y)
    requires FullyHealed(w, g, f, h, d, DependentsOf(g, d)) && !MetUnhealable(w, g, f, h, d, DependentsOf(g, d))
    ensures FullyHealed(w, g, e, h, y, {d}) && !MetUnhealable(w, g, e, h, y, {d})
  {
    HealGoes(w, g, e, f, h, d, y);
    forall z | Floor(w, g, e, z, y, {d})
      ensures Within(h, z)
    {
      FloorGoes(w, g, e, f, z, d, y);
    }
    DroppedWithin(e, f, d, y);
    forall a, b | LookedAt(g, e, h, y, {d}, a, b)
      ensures !Unhealable(w, e, a, b)
    {
      ShrunkComposes(e, f, h, b);
      UnhealableSame(w, e, f, d, y, a, b);
      if !(a == d && b == y) {
        assert LookedAt(g, f, h, d, DependentsOf(g, d), a, b);
      }
    }
  }

  /** A failure while healing the dependents of d, whose entry is gone, is a failure of the heal of that entry. */
  lemma MetThrough(w: World, g: Dependents, e: Errors, f: Errors, h: Errors, d: PackageId, y: PackageId)
    requires Has(e, d, y) && Reheal(w, e, d, y, e[d][y]) == Ok(None) && f == Drop(e, d, y)
    requires Within(f, h) && AboveFloors(w, g, f, h, d, DependentsOf(g, d)) && MetUnhealable(w, g, f, h, d, DependentsOf(g, d))
    ensures Within(e, h) && AboveFloors(w, g, e, h, y, {d}) && MetUnhealable(w, g, e, h, y, {d})
  {
    forall z | Floor(w, g, e, z, y, {d})
      ensures Within(h, z)
    {
      FloorGoes(w, g, e, f, z, d, y);
    }
    var a, b :| LookedAt(g, f, h, d, DependentsOf(g, d), a, b) && Unhealable(w, f, a, b);
    DroppedWithin(e, f, d, y);
    ShrunkComposes(e, f, h, b);
    UnhealableSame(w, e, f, d, y, a, b);
    assert LookedAt(g, e, h, y, {d}, a, b);
  }

  /** An entry that cannot be re-examined, or of a package not installed, is looked at in every consistent table. */
  ghost predicate Blocked(w: World, g: Dependents, e: Errors, y: PackageId) {
    exists a, b ::
      && Unhealable(w, e, a, b)
      && forall z :: Floor(w, g, e, z, y, DependentsOf(g, y)) ==> LookedAt(g, e, z, y, DependentsOf(g, y), a, b)
  }

  /** Whether a heal fails is decided by the table it starts from, whatever the order of visits. */
  lemma FailureIsForced(w: World, g: Dependents, e: Errors, h: Errors, y: PackageId)
    requires Within(e, h) && AboveFloors(w, g, e, h, y, DependentsOf(g, y))
    requires Healed(w, g, e, h, y, DependentsOf(g, y)) || MetUnhealable(w, g, e, h, y, DependentsOf(g, y))
    ensures MetUnhealable(w, g, e, h, y, DependentsOf(g, y)) <==> Blocked(w, g, e, y)
  {
    var all := DependentsOf(g, y);
    if MetUnhealable(w, g, e, h, y, all) {
      var a, b :| LookedAt(g, e, h, y, all, a, b) && Unhealable(w, e, a, b);
      forall z | Floor(w, g, e, z, y, all)
        ensures LookedAt(g, e, z, y, all, a, b)
      {
        assert Within(h, z);
        ShrunkComposes(e, h, z, b);
      }
    } else {
      assert Floor(w, g, e, h, y, all);
    }
  }

  /** Some entry on an edge of the graph cannot be re-examined. */
  ghost predicate CannotHeal(w: World, g: Dependents, e: Errors) {
    exists a, b :: Edge(g, b, a) && Unhealable(w, e, a, b)
  }

  lemma BlockedCannotHeal(w: World, g: Dependents, e: Errors, y: PackageId)
    requires Blocked(w, g, e, y)
    ensures CannotHeal(w, g, e)
  {
    var none: Errors := map a | a in e :: map[];
    assert Floor(w, g, e, none, y, DependentsOf(g, y));
  }
}
