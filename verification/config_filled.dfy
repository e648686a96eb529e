/**
 * What an update writes, stated without the update: which value each place of a config
 * holds afterwards, and for which configs there is one.
 */
module ConfigFilled {
  import opened Common
  import opened ConfigSpecs
  import opened ConfigTheorems

  /** The pointer can be followed: there is something to fetch, and a key of Tor is the package's own. */
  ghost predicate Follows(c: Context, p: Pointer) {
    c.fetch(p).Some? && (p.TorKey? ==> p.packageId == c.id)
  }

  /** The variant that a union's value chooses. */
  ghost predicate Chooses(tag: string, vs: Variants, v: Value) {
    v.Object? && tag in v.fields && v.fields[tag].String? && HasVariant(vs, v.fields[tag].s)
  }

  /**
   * w is v with its pointers followed: a pointer's place holds what is fetched for it, a scalar is as
   * it was, a list is filled member by member, an object and the chosen variant of a union field by
   * field, and keys without a field are untouched.
   */
  ghost predicate Filled(c: Context, spec: Spec, v: Value, w: Value)
    decreases spec, 0
  {
    match spec
    case PointerSpec(p) => Follows(c, p) && c.fetch(p) == Some(w)
    case ListSpec(m, _, _) =>
      v.Array? && w.Array? && |w.items| == |v.items| && forall i :: 0 <= i < |v.items| ==> Filled(c, m, v.items[i], w.items[i])
    case ObjectSpec(fs, _) => v.Object? && w.Object? && FilledIn(c, fs, v.fields, w.fields) && AgreeOff(fs, v.fields, w.fields)
    case UnionSpec(tag, vs, _) =>
      && Chooses(tag, vs, v) && w.Object?
      && FilledIn(c, GetVariant(vs, v.fields[tag].s), v.fields, w.fields) && AgreeOff(GetVariant(vs, v.fields[tag].s), v.fields, w.fields)
    case _ => w == v
  }

  ghost predicate FilledIn(c: Context, fs: Fields, a: Config, b: Config)
    decreases fs, 0
  {
    fs.Field? ==> fs.name in b && Filled(c, fs.val, Get(a, fs.name), b[fs.name]) && FilledIn(c, fs.rest, a, b)
  }

  lemma {:induction false} FilledFrame(c: Context, fs: Fields, a: Config, b: Config, w: Config)
    requires AgreeOn(fs, a, b)
    ensures FilledIn(c, fs, a, w) == FilledIn(c, fs, b, w)
    decreases fs
  {
    if fs.Field? {
      assert HasField(fs, fs.name);
      AgreeOnRest(fs, a, b);
      FilledFrame(c, fs.rest, a, b, w);
    }
  }

  // ----- an update fills

  lemma {:induction false} UpdateFills(c: Context, spec: Spec, v: Value)
    requires Typed(spec) && Updating(c, spec, v).Updated?
    ensures Filled(c, spec, v, Updating(c, spec, v).value)
    decreases spec, 0
  {
    match spec
    case ListSpec(m, _, _) =>
      var items := UpdatingItems(c, m, v.items).value;
      forall i | 0 <= i < |v.items|
        ensures Filled(c, m, v.items[i], items[i])
      {
        ItemUpdated(c, m, v.items, i);
        UpdateFills(c, m, v.items[i]);
      }
    case ObjectSpec(fs, _) => UpdateFillsIn(c, fs, v.fields);
    case UnionSpec(tag, vs, _) =>
      ChosenVariant(c, tag, vs, v.fields[tag].s);
      UpdateFillsIn(c, GetVariant(vs, v.fields[tag].s), v.fields);
    case _ =>
  }

  lemma {:induction false} UpdateFillsIn(c: Context, fs: Fields, cfg: Config)
    requires TypedFields(fs) && UpdatingFields(c, fs, cfg).Updated?
    ensures FilledIn(c, fs, cfg, UpdatingFields(c, fs, cfg).value) && AgreeOff(fs, cfg, UpdatingFields(c, fs, cfg).value)
    decreases fs, 0
  {
    if fs.Field? {
      var u := Updating(c, fs.val, Get(cfg, fs.name));
      var next := cfg[fs.name := u.value];
      var w := UpdatingFields(c, fs.rest, next).value;
      UpdateFills(c, fs.val, Get(cfg, fs.name));
      UpdateFillsIn(c, fs.rest, next);
      assert AgreeOn(fs.rest, next, cfg);
      FilledFrame(c, fs.rest, next, cfg, w);
      assert w[fs.name] == u.value;
      forall k | !HasField(fs, k)
        ensures (k in cfg <==> k in w) && (k in cfg ==> cfg[k] == w[k])
      {
        assert !HasField(fs.rest, k) && k != fs.name;
      }
    }
  }

  // ----- what is filled is what an update gives

  lemma {:induction false} FilledIsUpdated(c: Context, spec: Spec, v: Value, w: Value)
    requires Typed(spec) && Filled(c, spec, v, w)
    ensures Updating(c, spec, v) == Updated(w)
    decreases spec, 0
  {
    match spec
    case ListSpec(m, _, _) =>
      forall i | 0 <= i < |v.items|
        ensures Updating(c, m, v.items[i]) == Updated(w.items[i])
      {
        FilledIsUpdated(c, m, v.items[i], w.items[i]);
      }
      ItemsUpdated(c, m, v.items, w.items);
    case ObjectSpec(fs, _) => FilledInIsUpdated(c, fs, v.fields, w.fields);
    case UnionSpec(tag, vs, _) =>
      ChosenVariant(c, tag, vs, v.fields[tag].s);
      FilledInIsUpdated(c, GetVariant(vs, v.fields[tag].s), v.fields, w.fields);
    case _ =>
  }

  lemma {:induction false} ItemsUpdated(c: Context, member: Spec, items: seq<Value>, done: seq<Value>)
    requires |done| == |items| && forall i :: 0 <= i < |items| ==> Updating(c, member, items[i]) == Updated(done[i])
    ensures UpdatingItems(c, member, items) == Updated(done)
    decreases |items|
  {
    if items != [] {
      ItemsUpdated(c, member, items[..|items| - 1], done[..|done| - 1]);
      assert done == done[..|done| - 1] + [done[|done| - 1]];
    }
  }

  lemma {:induction false} FilledInIsUpdated(c: Context, fs: Fields, a: Config, b: Config)
    requires TypedFields(fs) && FilledIn(c, fs, a, b) && AgreeOff(fs, a, b)
    ensures UpdatingFields(c, fs, a) == Updated(b)
    decreases fs, 0
  {
    if fs.Field? {
      FilledIsUpdated(c, fs.val, Get(a, fs.name), b[fs.name]);
      var next := a[fs.name := b[fs.name]];
      assert AgreeOn(fs.rest, a, next);
      FilledFrame(c, fs.rest, a, next, b);
      assert AgreeOff(fs.rest, next, b) by {
        forall k | !HasField(fs.rest, k)
          ensures (k in next <==> k in b) && (k in next ==> next[k] == b[k])
        {
          assert k != fs.name ==> !HasField(fs, k);
        }
      }
      FilledInIsUpdated(c, fs.rest, next, b);
    } else {
      assert forall k :: !HasField(fs, k);
      assert a == b;
    }
  }

  /** An update gives w exactly when w is the value with its pointers followed. */
  lemma UpdateIsFilling(c: Context, spec: Spec, v: Value, w: Value)
    requires Typed(spec)
    ensures Updating(c, spec, v) == Updated(w) <==> Filled(c, spec, v, w)
  {
    if Updating(c, spec, v) == Updated(w) {
      UpdateFills(c, spec, v);
    }
    if Filled(c, spec, v, w) {
      FilledIsUpdated(c, spec, v, w);
    }
  }

  /** The same for a whole config. */
  lemma ConfigUpdateIsFilling(c: Context, fs: Fields, a: Config, b: Config)
    requires TypedFields(fs)
    ensures UpdatingFields(c, fs, a) == Updated(b) <==> FilledIn(c, fs, a, b) && AgreeOff(fs, a, b)
  {
    if UpdatingFields(c, fs, a) == Updated(b) {
      UpdateFillsIn(c, fs, a);
    }
    if FilledIn(c, fs, a, b) && AgreeOff(fs, a, b) {
      FilledInIsUpdated(c, fs, a, b);
    }
  }

  // ----- when there is one

  /** Every pointer met in the value can be followed. */
  ghost predicate AllFollow(c: Context, spec: Spec, v: Value)
    decreases spec, 0
  {
    match spec
    case PointerSpec(p) => Follows(c, p)
    case ListSpec(m, _, _) => v.Array? ==> forall i :: 0 <= i < |v.items| ==> AllFollow(c, m, v.items[i])
    case ObjectSpec(fs, _) => v.Object? ==> AllFollowIn(c, fs, v.fields)
    case UnionSpec(tag, vs, _) => Chooses(tag, vs, v) ==> AllFollowIn(c, GetVariant(vs, v.fields[tag].s), v.fields)
    case _ => true
  }

  ghost predicate AllFollowIn(c: Context, fs: Fields, cfg: Config)
    decreases fs, 0
  {
    fs.Field? ==> AllFollow(c, fs.val, Get(cfg, fs.name)) && AllFollowIn(c, fs.rest, cfg)
  }

  lemma {:induction false} FollowFrame(c: Context, fs: Fields, a: Config, b: Config)
    requires AgreeOn(fs, a, b)
    ensures AllFollowIn(c, fs, a) == AllFollowIn(c, fs, b)
    decreases fs
  {
    if fs.Field? {
      assert HasField(fs, fs.name);
      AgreeOnRest(fs, a, b);
      FollowFrame(c, fs.rest, a, b);
    }
  }

  /** The update of a value that matches succeeds exactly when every pointer met can be followed; otherwise a dereference fails. */
  lemma {:induction false} UpdateSucceeds(c: Context, spec: Spec, v: Value)
    requires Typed(spec) && Validates(c, spec) && Matches(c, spec, v)
    ensures Updating(c, spec, v).Updated? <==> AllFollow(c, spec, v)
    ensures Updating(c, spec, v).DerefFailed? <==> !AllFollow(c, spec, v)
    decreases spec, 0
  {
    UpdateOfMatch(c, spec, v);
    match spec
    case ListSpec(m, _, _) => ItemsSucceed(c, m, v.items);
    case ObjectSpec(fs, _) => FieldsSucceed(c, fs, v.fields);
    case UnionSpec(tag, vs, _) =>
      var fs := GetVariant(vs, v.fields[tag].s);
      ChosenVariant(c, tag, vs, v.fields[tag].s);
      assert AgreeOn(fs, v.fields, v.fields - {tag});
      MatchFrame(c, fs, v.fields, v.fields - {tag});
      FieldsSucceed(c, fs, v.fields);
    case _ =>
  }

  lemma {:induction false} ItemsSucceed(c: Context, member: Spec, items: seq<Value>)
    requires Typed(member) && Validates(c, member) && forall i :: 0 <= i < |items| ==> Matches(c, member, items[i])
    ensures UpdatingItems(c, member, items).Updated? <==> forall i :: 0 <= i < |items| ==> AllFollow(c, member, items[i])
    decreases member, 1 + |items|
  {
    if items != [] {
      ItemsSucceed(c, member, items[..|items| - 1]);
      UpdateSucceeds(c, member, items[|items| - 1]);
    }
  }

  lemma {:induction false} FieldsSucceed(c: Context, fs: Fields, cfg: Config)
    requires TypedFields(fs) && ValidatesFields(c, fs) && MatchesFields(c, fs, cfg)
    ensures UpdatingFields(c, fs, cfg).Updated? <==> AllFollowIn(c, fs, cfg)
    decreases fs, 0
  {
    if fs.Field? {
      UpdateSucceeds(c, fs.val, Get(cfg, fs.name));
      var u := Updating(c, fs.val, Get(cfg, fs.name));
      if u.Updated? {
        var next := cfg[fs.name := u.value];
        assert AgreeOn(fs.rest, cfg, next);
        MatchFrame(c, fs.rest, cfg, next);
        FollowFrame(c, fs.rest, cfg, next);
        FieldsSucceed(c, fs.rest, next);
      }
    }
  }

  // ----- the pointers met

  /** The pointer stands somewhere in the live part of the value, lists and absent fields included. */
  ghost predicate Meets(spec: Spec, v: Value, p: Pointer)
    decreases spec, 0
  {
    match spec
    case PointerSpec(q) => q == p
    case ListSpec(m, _, _) => v.Array? && exists x :: x in v.items && Meets(m, x, p)
    case ObjectSpec(fs, _) => v.Object? && MeetsIn(fs, v.fields, p)
    case UnionSpec(tag, vs, _) => Chooses(tag, vs, v) && MeetsIn(GetVariant(vs, v.fields[tag].s), v.fields, p)
    case _ => false
  }

  ghost predicate MeetsIn(fs: Fields, cfg: Config, p: Pointer)
    decreases fs, 0
  {
    fs.Field? && (Meets(fs.val, Get(cfg, fs.name), p) || MeetsIn(fs.rest, cfg, p))
  }

  /** A package is required exactly when a pointer to it is met, inside lists too. */
  lemma {:induction false} RequiresExactly(spec: Spec, id: PackageId, v: Value)
    ensures Requires(spec, id, v) <==> exists p: Pointer :: p.packageId == id && Meets(spec, v, p)
    decreases spec, 0
  {
    match spec
    case PointerSpec(q) => assert Meets(spec, v, q);
    case ListSpec(m, _, _) =>
      if v.Array? {
        forall i | 0 <= i < |v.items|
          ensures Requires(m, id, v.items[i]) <==> exists p: Pointer :: p.packageId == id && Meets(m, v.items[i], p)
        {
          RequiresExactly(m, id, v.items[i]);
        }
        forall p: Pointer | p.packageId == id && Meets(spec, v, p)
          ensures Requires(spec, id, v)
        {
          var x :| x in v.items && Meets(m, x, p);
          var i :| 0 <= i < |v.items| && v.items[i] == x;
        }
        if Requires(spec, id, v) {
          var i :| 0 <= i < |v.items| && Requires(m, id, v.items[i]);
          var p: Pointer :| p.packageId == id && Meets(m, v.items[i], p);
          assert Meets(spec, v, p);
        }
      }
    case ObjectSpec(fs, _) =>
      if v.Object? {
        RequiresInExactly(fs, id, v.fields);
        assert forall p :: Meets(spec, v, p) == MeetsIn(fs, v.fields, p);
      }
    case UnionSpec(tag, vs, _) =>
      if Chooses(tag, vs, v) {
        var fs := GetVariant(vs, v.fields[tag].s);
        RequiresInExactly(fs, id, v.fields);
        assert forall p :: Meets(spec, v, p) == MeetsIn(fs, v.fields, p);
      }
    case _ =>
  }

  lemma {:induction false} RequiresInExactly(fs: Fields, id: PackageId, cfg: Config)
    ensures RequiresIn(fs, id, cfg) <==> exists p: Pointer :: p.packageId == id && MeetsIn(fs, cfg, p)
    decreases fs, 0
  {
    if fs.Field? {
      RequiresExactly(fs.val, id, Get(cfg, fs.name));
      RequiresInExactly(fs.rest, id, cfg);
      assert forall p :: MeetsIn(fs, cfg, p) <==> Meets(fs.val, Get(cfg, fs.name), p) || MeetsIn(fs.rest, cfg, p);
    }
  }

  // ----- what scalars and lists accept, and what a validated spec may require

  ghost predicate IsWhole(x: real, n: int) {
    n as real == x
  }

  /** Null exactly where nullable, otherwise a number within the bounds and whole if so asked. */
  lemma NumbersAccepted(c: Context, nullable: bool, integral: bool, lo: Bound<real>, hi: Bound<real>, v: Value)
    ensures Matches(c, NumberSpec(nullable, integral, lo, hi), v) <==>
              || (v == Null && nullable)
              || (&& v.Number? && (integral ==> exists n :: IsWhole(v.n, n))
                  && (lo.Included? ==> lo.t <= v.n) && (lo.Excluded? ==> lo.t < v.n)
                  && (hi.Included? ==> v.n <= hi.t) && (hi.Excluded? ==> v.n < hi.t))
  {
    if v.Number? {
      assert IsWhole(v.n, v.n.Floor) <==> v.n.Floor as real == v.n;
      forall n | IsWhole(v.n, n)
        ensures v.n.Floor == n
      {
      }
    }
  }

  /** Strings with the pattern, one of the names, or a boolean; null only where nullable. */
  lemma TextAccepted(c: Context, nullable: bool, pattern: Option<string>, values: set<string>, v: Value)
    ensures Matches(c, StringSpec(nullable, pattern), v) <==>
              (v == Null && nullable) || exists s :: v == String(s) && (pattern == None || c.isMatch(pattern.value, s))
    ensures Matches(c, EnumSpec(values), v) <==> exists s :: s in values && v == String(s)
    ensures Matches(c, BooleanSpec, v) <==> v == Bool(true) || v == Bool(false)
  {
  }

  /** A list has a size within the bounds and members that match, no two of which are alike. */
  lemma ListsAccepted(c: Context, member: Spec, min: Bound<nat>, max: Bound<nat>, v: Value)
    ensures Matches(c, ListSpec(member, min, max), v) <==>
              && v.Array?
              && (min.Included? ==> min.t <= |v.items|) && (min.Excluded? ==> min.t < |v.items|)
              && (max.Included? ==> |v.items| <= max.t) && (max.Excluded? ==> |v.items| < max.t)
              && (forall i :: 0 <= i < |v.items| ==> Matches(c, member, v.items[i])) && AllApart(member, v.items)
  {
  }

  /** Scalars that match are alike exactly when they are the same and not null. */
  lemma ScalarsAlike(c: Context, spec: Spec, l: Value, r: Value)
    requires spec.EnumSpec? || spec.NumberSpec? || spec.StringSpec? || spec.BooleanSpec?
    requires Matches(c, spec, l) && Matches(c, spec, r)
    ensures Eq(spec, l, r) <==> l == r && l != Null
  {
  }

  /** A validated spec requires the package itself or what its manifest declares, whatever the config. */
  lemma {:induction false} ValidatedRequirements(c: Context, spec: Spec, id: PackageId, v: Value)
    requires Validates(c, spec) && Requires(spec, id, v)
    ensures id == c.id || id in c.dependencies
    decreases spec, 0
  {
    match spec
    case ListSpec(m, _, _) =>
      var i :| 0 <= i < |v.items| && Requires(m, id, v.items[i]);
      ValidatedRequirements(c, m, id, v.items[i]);
    case ObjectSpec(fs, _) => ValidatedRequirementsIn(c, fs, id, v.fields);
    case UnionSpec(tag, vs, _) =>
      ChosenVariant(c, tag, vs, v.fields[tag].s);
      ValidatedRequirementsIn(c, GetVariant(vs, v.fields[tag].s), id, v.fields);
    case _ =>
  }

  lemma {:induction false} ValidatedRequirementsIn(c: Context, fs: Fields, id: PackageId, cfg: Config)
    requires ValidatesFields(c, fs) && RequiresIn(fs, id, cfg)
    ensures id == c.id || id in c.dependencies
    decreases fs, 0
  {
    if Requires(fs.val, id, Get(cfg, fs.name)) {
      ValidatedRequirements(c, fs.val, id, Get(cfg, fs.name));
    } else {
      ValidatedRequirementsIn(c, fs.rest, id, cfg);
    }
  }
}
