/** What updating keeps, and how the pointers of a config relate to its requirements. */
module ConfigTheorems {
  import opened Common
  import opened ConfigSpecs

  // ----- frames

  ghost predicate AgreeOn(fs: Fields, a: Config, b: Config) {
    forall k :: HasField(fs, k) ==> Get(a, k) == Get(b, k)
  }

  ghost predicate AgreeOff(fs: Fields, a: Config, b: Config) {
    forall k :: !HasField(fs, k) ==> (k in a <==> k in b) && (k in a ==> a[k] == b[k])
  }

  lemma AgreeOnRest(fs: Fields, a: Config, b: Config)
    requires fs.Field? && AgreeOn(fs, a, b)
    ensures AgreeOn(fs.rest, a, b)
  {
    forall k | HasField(fs.rest, k)
      ensures Get(a, k) == Get(b, k)
    {
      assert HasField(fs, k);
    }
  }

  /** Matching depends on the named fields only. */
  lemma {:induction false} MatchFrame(c: Context, fs: Fields, a: Config, b: Config)
    requires AgreeOn(fs, a, b)
    ensures MatchesFields(c, fs, a) == MatchesFields(c, fs, b)
    decreases fs
  {
    if fs.Field? {
      assert HasField(fs, fs.name);
      AgreeOnRest(fs, a, b);
      MatchFrame(c, fs.rest, a, b);
    }
  }

  lemma {:induction false} ChosenVariant(c: Context, tag: string, vs: Variants, t: string)
    requires HasVariant(vs, t)
    ensures ValidatesVariants(c, tag, vs) ==> !HasField(GetVariant(vs, t), tag) && ValidatesFields(c, GetVariant(vs, t))
    ensures TypedVariants(vs) ==> TypedFields(GetVariant(vs, t))
    ensures DefaultUniqueVariants(vs) ==> DefaultUniqueFields(GetVariant(vs, t))
    decreases vs
  {
    if vs.variant != t {
      ChosenVariant(c, tag, vs.others, t);
    }
  }

  // ----- updating keeps the config a match

  /** Every union inside keeps its tag. */
  ghost predicate TagsKept(spec: Spec, v: Value, w: Value)
    decreases spec, 0
  {
    match spec
    case ListSpec(m, _, _) => v.Array? && w.Array? && |v.items| == |w.items| && forall i :: 0 <= i < |v.items| ==> TagsKept(m, v.items[i], w.items[i])
    case ObjectSpec(fs, _) => v.Object? && w.Object? && TagsKeptIn(fs, v.fields, w.fields)
    case UnionSpec(tag, vs, _) =>
      && v.Object? && w.Object? && tag in v.fields && tag in w.fields && w.fields[tag] == v.fields[tag]
      && (v.fields[tag].String? && HasVariant(vs, v.fields[tag].s) ==> TagsKeptIn(GetVariant(vs, v.fields[tag].s), v.fields, w.fields))
    case _ => true
  }

  ghost predicate TagsKeptIn(fs: Fields, a: Config, b: Config)
    decreases fs, 0
  {
    fs.Field? ==> TagsKept(fs.val, Get(a, fs.name), Get(b, fs.name)) && TagsKeptIn(fs.rest, a, b)
  }

  lemma {:induction false} TagsFrame(fs: Fields, a: Config, b: Config, d: Config)
    requires AgreeOn(fs, a, b)
    ensures TagsKeptIn(fs, a, d) == TagsKeptIn(fs, b, d)
    decreases fs
  {
    if fs.Field? {
      assert HasField(fs, fs.name);
      AgreeOnRest(fs, a, b);
      TagsFrame(fs.rest, a, b, d);
    }
  }

  // ----- when members of a list become alike, read off the config before the update

  /** What a key holds after the update: what its own field makes of it, or, without a field, what it held. */
  function KeyAfter(c: Context, fs: Fields, cfg: Config, key: string): Option<Value> {
    if HasField(fs, key) then (
      match Updating(c, GetField(fs, key), Get(cfg, key))
      case Updated(v) => Some(v)
      case _ => None
    )
    else if key in cfg then Some(cfg[key])
    else None
  }

  /** The unique-by will not tell the two configs apart, looking only at the keys that it names. */
  ghost predicate AlikeAfter(c: Context, u: UniqueBy, fs: Fields, l: Config, gs: Fields, r: Config) {
    match u
    case Any(any) => exists i :: 0 <= i < |any| && AlikeAfter(c, any[i], fs, l, gs, r)
    case All(all) => forall i :: 0 <= i < |all| ==> AlikeAfter(c, all[i], fs, l, gs, r)
    case Exactly(key) => KeyAfter(c, fs, l, key) == KeyAfter(c, gs, r, key)
    case NotUnique => false
  }

  /** The fields that a value of an object or a union is to have. */
  function FieldsFor(spec: Spec, v: Value): Fields {
    match spec
    case ObjectSpec(fs, _) => fs
    case UnionSpec(tag, vs, _) =>
      if v.Object? && tag in v.fields && v.fields[tag].String? && HasVariant(vs, v.fields[tag].s)
      then GetVariant(vs, v.fields[tag].s) else NoFields
    case _ => NoFields
  }

  ghost predicate MembersAlike(c: Context, member: Spec, l: Value, r: Value) {
    if member.ObjectSpec? || member.UnionSpec? then
      l.Object? && r.Object? && AlikeAfter(c, member.uniqueBy, FieldsFor(member, l), l.fields, FieldsFor(member, r), r.fields)
    else Eq(member, l, r)
  }

  ghost predicate StayApart(c: Context, member: Spec, items: seq<Value>) {
    forall i, j :: 0 <= i < |items| && 0 <= j < |items| && i != j ==> !MembersAlike(c, member, items[i], items[j])
  }

  /** In no list inside will two members become alike. */
  ghost predicate StaysDistinct(c: Context, spec: Spec, v: Value)
    decreases spec, 0
  {
    match spec
    case ListSpec(m, _, _) =>
      v.Array? ==> StayApart(c, m, v.items) && forall i :: 0 <= i < |v.items| ==> StaysDistinct(c, m, v.items[i])
    case ObjectSpec(fs, _) => v.Object? ==> StaysDistinctIn(c, fs, v.fields)
    case UnionSpec(tag, vs, _) =>
      v.Object? && tag in v.fields && v.fields[tag].String? && HasVariant(vs, v.fields[tag].s) ==>
        StaysDistinctIn(c, GetVariant(vs, v.fields[tag].s), v.fields)
    case _ => true
  }

  ghost predicate StaysDistinctIn(c: Context, fs: Fields, cfg: Config)
    decreases fs, 0
  {
    fs.Field? ==> StaysDistinct(c, fs.val, Get(cfg, fs.name)) && StaysDistinctIn(c, fs.rest, cfg)
  }

  lemma {:induction false} DistinctFrame(c: Context, fs: Fields, a: Config, b: Config)
    requires AgreeOn(fs, a, b)
    ensures StaysDistinctIn(c, fs, a) == StaysDistinctIn(c, fs, b)
    decreases fs
  {
    if fs.Field? {
      assert HasField(fs, fs.name);
      AgreeOnRest(fs, a, b);
      DistinctFrame(c, fs.rest, a, b);
    }
  }

  function Held(cfg: Config, key: string): Option<Value> {
    if key in cfg then Some(cfg[key]) else None
  }

  /** A successful update leaves under each key what was foreseen. */
  lemma {:induction false} KeyIsForeseen(c: Context, fs: Fields, cfg: Config, key: string)
    requires TypedFields(fs) && UpdatingFields(c, fs, cfg).Updated?
    ensures Held(UpdatingFields(c, fs, cfg).value, key) == KeyAfter(c, fs, cfg, key)
    decreases fs
  {
    if fs.Field? {
      var u := Updating(c, fs.val, Get(cfg, fs.name));
      KeyIsForeseen(c, fs.rest, cfg[fs.name := u.value], key);
    }
  }

  lemma {:induction false} AlikeIsForeseen(c: Context, u: UniqueBy, fs: Fields, l: Config, gs: Fields, r: Config)
    requires TypedFields(fs) && UpdatingFields(c, fs, l).Updated?
    requires TypedFields(gs) && UpdatingFields(c, gs, r).Updated?
    ensures UniqueEq(u, UpdatingFields(c, fs, l).value, UpdatingFields(c, gs, r).value) <==> AlikeAfter(c, u, fs, l, gs, r)
    decreases u
  {
    match u
    case Any(any) =>
      forall i | 0 <= i < |any|
        ensures UniqueEq(any[i], UpdatingFields(c, fs, l).value, UpdatingFields(c, gs, r).value) <==> AlikeAfter(c, any[i], fs, l, gs, r)
      {
        AlikeIsForeseen(c, any[i], fs, l, gs, r);
      }
    case All(all) =>
      forall i | 0 <= i < |all|
        ensures UniqueEq(all[i], UpdatingFields(c, fs, l).value, UpdatingFields(c, gs, r).value) <==> AlikeAfter(c, all[i], fs, l, gs, r)
      {
        AlikeIsForeseen(c, all[i], fs, l, gs, r);
      }
    case Exactly(key) =>
      KeyIsForeseen(c, fs, l, key);
      KeyIsForeseen(c, gs, r, key);
    case NotUnique =>
  }

  /** Two members that match are alike after the update exactly when that was to be foreseen. */
  lemma MembersAreForeseen(c: Context, member: Spec, l: Value, r: Value)
    requires Typed(member) && Validates(c, member) && Listable(member) && Matches(c, member, l) && Matches(c, member, r)
    requires Updating(c, member, l).Updated? && Updating(c, member, r).Updated?
    ensures Eq(member, Updating(c, member, l).value, Updating(c, member, r).value) <==> MembersAlike(c, member, l, r)
  {
    match member
    case ObjectSpec(fs, u) => AlikeIsForeseen(c, u, fs, l.fields, fs, r.fields);
    case UnionSpec(tag, vs, u) =>
      ChosenVariant(c, tag, vs, l.fields[tag].s);
      ChosenVariant(c, tag, vs, r.fields[tag].s);
      AlikeIsForeseen(c, u, FieldsFor(member, l), l.fields, FieldsFor(member, r), r.fields);
    case _ =>
  }

  ghost predicate AllApart(member: Spec, items: seq<Value>) {
    forall i, j :: 0 <= i < |items| && 0 <= j < |items| && i != j ==> !Eq(member, items[i], items[j])
  }

  lemma ItemsAreForeseen(c: Context, member: Spec, items: seq<Value>)
    requires Typed(member) && Validates(c, member) && Listable(member)
    requires forall i :: 0 <= i < |items| ==> Matches(c, member, items[i])
    requires UpdatingItems(c, member, items).Updated?
    ensures AllApart(member, UpdatingItems(c, member, items).value) <==> StayApart(c, member, items)
  {
    var r := UpdatingItems(c, member, items).value;
    if StayApart(c, member, items) {
      forall i, j | 0 <= i < |r| && 0 <= j < |r| && i != j
        ensures !Eq(member, r[i], r[j])
      {
        PairIsForeseen(c, member, items, i, j);
      }
    }
    if AllApart(member, r) {
      forall i, j | 0 <= i < |items| && 0 <= j < |items| && i != j
        ensures !MembersAlike(c, member, items[i], items[j])
      {
        PairIsForeseen(c, member, items, i, j);
      }
    }
  }

  lemma PairIsForeseen(c: Context, member: Spec, items: seq<Value>, i: nat, j: nat)
    requires Typed(member) && Validates(c, member) && Listable(member) && i < |items| && j < |items|
    requires Matches(c, member, items[i]) && Matches(c, member, items[j])
    requires UpdatingItems(c, member, items).Updated?
    ensures var r := UpdatingItems(c, member, items).value;
            Eq(member, r[i], r[j]) <==> MembersAlike(c, member, items[i], items[j])
  {
    ItemUpdated(c, member, items, i);
    ItemUpdated(c, member, items, j);
    MembersAreForeseen(c, member, items[i], items[j]);
  }

  lemma {:induction false} ItemUpdated(c: Context, member: Spec, items: seq<Value>, i: nat)
    requires UpdatingItems(c, member, items).Updated? && i < |items|
    ensures Updating(c, member, items[i]) == Updated(UpdatingItems(c, member, items).value[i])
    decreases |items|
  {
    if i < |items| - 1 {
      ItemUpdated(c, member, items[..|items| - 1], i);
    }
  }

  // ----- what an update keeps

  /** Every union keeps its tag, and whether the new value matches could be foreseen; with the default unique-by it does. */
  ghost predicate KeptAndForeseen(c: Context, spec: Spec, v: Value, w: Value) {
    && TagsKept(spec, v, w)
    && (Matches(c, spec, w) <==> StaysDistinct(c, spec, v))
    && (DefaultUnique(spec) ==> StaysDistinct(c, spec, v))
  }

  /** For a spec whose list members use the default unique-by, the result of an update always matches. */
  lemma UpdateKeepsMatch(c: Context, spec: Spec, v: Value)
    requires Typed(spec) && Validates(c, spec) && DefaultUnique(spec) && Matches(c, spec, v)
    ensures Updating(c, spec, v).Updated? ==> Matches(c, spec, Updating(c, spec, v).value)
  {
    UpdateOfMatch(c, spec, v);
  }

  /**
   * For every validated spec: updating a config that matches fails on a pointer dereference or
   * not at all, leaves every union its tag, and gives a config that matches exactly when in no list
   * of the config two members were to become alike, which the default unique-by rules out.
   */
  lemma {:induction false} UpdateOfMatch(c: Context, spec: Spec, v: Value)
    requires Typed(spec) && Validates(c, spec) && Matches(c, spec, v)
    ensures Updating(c, spec, v) != NoMatch
    ensures Updating(c, spec, v).Updated? ==> KeptAndForeseen(c, spec, v, Updating(c, spec, v).value)
    decreases spec, 0
  {
    match spec
    case ListSpec(member, _, _) =>
      ItemsOfMatch(c, member, v.items);
      if Updating(c, spec, v).Updated? {
        ItemsAreForeseen(c, member, v.items);
        ListOfMatch(c, spec, v, Updating(c, spec, v).value);
      }
    case ObjectSpec(fs, _) =>
      FieldsOfMatch(c, fs, v.fields);
    case UnionSpec(tag, vs, _) =>
      var t := v.fields[tag].s;
      var fs := GetVariant(vs, t);
      ChosenVariant(c, tag, vs, t);
      assert AgreeOn(fs, v.fields, v.fields - {tag});
      MatchFrame(c, fs, v.fields, v.fields - {tag});
      FieldsOfMatch(c, fs, v.fields);
      var u := UpdatingFields(c, fs, v.fields);
      if u.Updated? {
        assert AgreeOn(fs, u.value, u.value - {tag});
        MatchFrame(c, fs, u.value, u.value - {tag});
      }
    case _ =>
  }

  lemma ListOfMatch(c: Context, spec: Spec, v: Value, w: Value)
    requires spec.ListSpec? && Listable(spec.member) && Matches(c, spec, v) && w.Array? && |w.items| == |v.items|
    requires AllApart(spec.member, w.items) <==> StayApart(c, spec.member, v.items)
    requires forall i :: 0 <= i < |v.items| ==> KeptAndForeseen(c, spec.member, v.items[i], w.items[i])
    ensures KeptAndForeseen(c, spec, v, w)
  {
    if StaysDistinct(c, spec, v) {
      forall i | 0 <= i < |w.items|
        ensures Matches(c, spec.member, w.items[i])
      {
        assert KeptAndForeseen(c, spec.member, v.items[i], w.items[i]);
      }
    }
    if Matches(c, spec, w) {
      forall i | 0 <= i < |v.items|
        ensures StaysDistinct(c, spec.member, v.items[i])
      {
        assert KeptAndForeseen(c, spec.member, v.items[i], w.items[i]);
      }
    }
  }

  /** The same for a whole config, whose other fields are left alone. */
  lemma {:induction false} FieldsOfMatch(c: Context, fs: Fields, cfg: Config)
    requires TypedFields(fs) && ValidatesFields(c, fs) && MatchesFields(c, fs, cfg)
    ensures UpdatingFields(c, fs, cfg) != NoMatch
    ensures UpdatingFields(c, fs, cfg).Updated? ==>
              var r := UpdatingFields(c, fs, cfg).value;
              && AgreeOff(fs, cfg, r) && TagsKeptIn(fs, cfg, r)
              && (MatchesFields(c, fs, r) <==> StaysDistinctIn(c, fs, cfg))
              && (DefaultUniqueFields(fs) ==> StaysDistinctIn(c, fs, cfg))
    decreases fs, 0
  {
    if fs.Field? {
      UpdateOfMatch(c, fs.val, Get(cfg, fs.name));
      var u := Updating(c, fs.val, Get(cfg, fs.name));
      if u.Updated? {
        var next := cfg[fs.name := u.value];
        assert AgreeOn(fs.rest, cfg, next);
        MatchFrame(c, fs.rest, cfg, next);
        FieldsOfMatch(c, fs.rest, next);
        var w := UpdatingFields(c, fs.rest, next);
        if w.Updated? {
          assert Get(w.value, fs.name) == u.value;
          TagsFrame(fs.rest, cfg, next, w.value);
          DistinctFrame(c, fs.rest, cfg, next);
          assert AgreeOff(fs, cfg, w.value) by {
            forall k | !HasField(fs, k)
              ensures (k in cfg <==> k in w.value) && (k in cfg ==> cfg[k] == w.value[k])
            {
              assert !HasField(fs.rest, k) && k != fs.name;
            }
          }
        }
      }
    }
  }

  lemma {:induction false} ItemsOfMatch(c: Context, member: Spec, items: seq<Value>)
    requires Typed(member) && Validates(c, member)
    requires forall i :: 0 <= i < |items| ==> Matches(c, member, items[i])
    ensures UpdatingItems(c, member, items) != NoMatch
    ensures UpdatingItems(c, member, items).Updated? ==>
              forall i :: 0 <= i < |items| ==> KeptAndForeseen(c, member, items[i], UpdatingItems(c, member, items).value[i])
    decreases member, 1 + |items|
  {
    if items != [] {
      ItemsOfMatch(c, member, items[..|items| - 1]);
      UpdateOfMatch(c, member, items[|items| - 1]);
    }
  }

  lemma UpdatingSnoc(c: Context, member: Spec, items: seq<Value>, done: seq<Value>, v: Value, w: Value)
    requires UpdatingItems(c, member, items) == Updated(done) && Updating(c, member, v) == Updated(w)
    ensures UpdatingItems(c, member, items + [v]) == Updated(done + [w])
  {
  }

  /** A config that matches, and whose update succeeds but no longer matches. */
  ghost predicate Breaks(c: Context, spec: Spec, v: Value) {
    && Typed(spec) && Validates(c, spec) && Matches(c, spec, v)
    && Updating(c, spec, v).Updated? && !Matches(c, spec, Updating(c, spec, v).value)
  }

  /**
   * Without the default unique-by the result need not match: two list members told apart by
   * a field that is a pointer become alike once the pointer is followed.
   */
  lemma UniqueByCanBreak(c: Context, p: Pointer)
    requires p == TorAddress(c.id, "main") && c.fetch(p) == Some(Null)
    ensures Breaks(c, ListSpec(Told(p), Unbounded, Unbounded), Array([Keyed(Bool(true)), Keyed(Bool(false))]))
  {
    var spec := ListSpec(Told(p), Unbounded, Unbounded);
    BothFollowed(c, p);
    ApartBefore(c, p);
    assert Eq(Told(p), [Keyed(Null), Keyed(Null)][0], [Keyed(Null), Keyed(Null)][1]);
    assert !Matches(c, spec, Array([Keyed(Null), Keyed(Null)]));
  }

  /** List members told apart by their field "k", a pointer. */
  function Told(p: Pointer): Spec {
    ObjectSpec(Field("k", PointerSpec(p), NoFields), Exactly("k"))
  }

  function Keyed(v: Value): Value {
    Object(map["k" := v])
  }

  lemma BothFollowed(c: Context, p: Pointer)
    requires p == TorAddress(c.id, "main") && c.fetch(p) == Some(Null)
    ensures Updating(c, ListSpec(Told(p), Unbounded, Unbounded), Array([Keyed(Bool(true)), Keyed(Bool(false))]))
         == Updated(Array([Keyed(Null), Keyed(Null)]))
  {
    var x, y, z := Keyed(Bool(true)), Keyed(Bool(false)), Keyed(Null);
    FollowsPointer(c, p, Bool(true));
    FollowsPointer(c, p, Bool(false));
    UpdatingSnoc(c, Told(p), [], [], x, z);
    assert [] + [x] == [x] && [] + [z] == [z];
    UpdatingSnoc(c, Told(p), [x], [z], y, z);
    assert [x] + [y] == [x, y] && [z] + [z] == [z, z];
  }

  lemma ApartBefore(c: Context, p: Pointer)
    requires p == TorAddress(c.id, "main")
    ensures var spec := ListSpec(Told(p), Unbounded, Unbounded);
            Typed(spec) && Validates(c, spec) && Matches(c, spec, Array([Keyed(Bool(true)), Keyed(Bool(false))]))
  {
    var fs := Field("k", PointerSpec(p), NoFields);
    var x, y := Keyed(Bool(true)), Keyed(Bool(false));
    assert TypedFields(NoFields) && Typed(PointerSpec(p)) && TypedFields(fs) && Typed(Told(p));
    assert ValidatesFields(c, NoFields) && Validates(c, PointerSpec(p)) && ValidatesFields(c, fs) && Validates(c, Told(p));
    assert forall v :: MatchesFields(c, NoFields, v);
    assert Matches(c, Told(p), x) && Matches(c, Told(p), y);
    assert x.fields["k"] == Bool(true) && y.fields["k"] == Bool(false);
    assert !UniqueEq(Exactly("k"), x.fields, y.fields) && !UniqueEq(Exactly("k"), y.fields, x.fields);
  }

  /**
   * Nor is a pointer needed: a member without the key and one with null under it are told apart,
   * until the update writes null for the absent key.
   */
  lemma AbsentKeyCanBreak(c: Context)
    ensures Breaks(c, ListSpec(Nullable(), Unbounded, Unbounded), Array([Object(map[]), Keyed(Null)]))
  {
    var spec := ListSpec(Nullable(), Unbounded, Unbounded);
    NullsWritten(c);
    AbsentIsApart(c);
    assert Eq(Nullable(), [Keyed(Null), Keyed(Null)][0], [Keyed(Null), Keyed(Null)][1]);
    assert !Matches(c, spec, Array([Keyed(Null), Keyed(Null)]));
  }

  lemma NullsWritten(c: Context)
    ensures Updating(c, ListSpec(Nullable(), Unbounded, Unbounded), Array([Object(map[]), Keyed(Null)])) == Updated(Array([Keyed(Null), Keyed(Null)]))
  {
    var x, y := Object(map[]), Keyed(Null);
    NullWritten(c, x);
    NullWritten(c, y);
    UpdatingSnoc(c, Nullable(), [], [], x, y);
    assert [] + [x] == [x] && [] + [y] == [y];
    UpdatingSnoc(c, Nullable(), [x], [y], y, y);
    assert [x] + [y] == [x, y] && [y] + [y] == [y, y];
  }

  function Nullable(): Spec {
    ObjectSpec(Field("k", StringSpec(true, None), NoFields), Exactly("k"))
  }

  lemma NullWritten(c: Context, v: Value)
    requires v == Object(map[]) || v == Keyed(Null)
    ensures Updating(c, Nullable(), v) == Updated(Keyed(Null))
  {
    var cfg := v.fields;
    assert cfg["k" := Null] == map["k" := Null];
    assert UpdatingFields(c, NoFields, cfg["k" := Null]) == Updated(cfg["k" := Null]);
    assert Updating(c, StringSpec(true, None), Get(cfg, "k")) == Updated(Null);
  }

  lemma AbsentIsApart(c: Context)
    ensures var spec := ListSpec(Nullable(), Unbounded, Unbounded);
            Typed(spec) && Validates(c, spec) && Matches(c, spec, Array([Object(map[]), Keyed(Null)]))
  {
    var x, y, fs := Object(map[]), Keyed(Null), Field("k", StringSpec(true, None), NoFields);
    assert TypedFields(NoFields) && TypedFields(fs) && ValidatesFields(c, NoFields) && ValidatesFields(c, fs);
    assert MatchesFields(c, NoFields, x.fields) && MatchesFields(c, NoFields, y.fields);
    assert Matches(c, Nullable(), x) && Matches(c, Nullable(), y);
    assert !UniqueEq(Exactly("k"), x.fields, y.fields) && !UniqueEq(Exactly("k"), y.fields, x.fields);
  }

  lemma FollowsPointer(c: Context, p: Pointer, v: Value)
    requires p == TorAddress(c.id, "main") && c.fetch(p) == Some(Null)
    ensures Updating(c, Told(p), Keyed(v)) == Updated(Keyed(Null))
  {
    var cfg := map["k" := v];
    assert cfg["k" := Null] == map["k" := Null];
    assert UpdatingFields(c, NoFields, cfg["k" := Null]) == Updated(cfg["k" := Null]);
    assert Updating(c, PointerSpec(p), v) == Updated(Null);
    assert UpdatingFields(c, Field("k", PointerSpec(p), NoFields), cfg) == Updated(cfg["k" := Null]);
  }

  // ----- pointers and requirements

  ghost predicate Points(ps: Pointers, id: PackageId) {
    ps.Found? && exists p :: p in ps.pointers && p.packageId == id
  }

  /** Somewhere in a list of the live config a member requires the package. Lists report no pointers. */
  ghost predicate HiddenInList(spec: Spec, id: PackageId, v: Value)
    decreases spec, 0
  {
    match spec
    case ListSpec(_, _, _) => Requires(spec, id, v)
    case ObjectSpec(fs, _) => v.Object? && HiddenIn(fs, id, v.fields)
    case UnionSpec(tag, vs, _) =>
      && v.Object? && tag in v.fields && v.fields[tag].String? && HasVariant(vs, v.fields[tag].s)
      && HiddenIn(GetVariant(vs, v.fields[tag].s), id, v.fields)
    case _ => false
  }

  ghost predicate HiddenIn(fs: Fields, id: PackageId, cfg: Config)
    decreases fs, 0
  {
    fs.Field? && (HiddenInList(fs.val, id, Get(cfg, fs.name)) || HiddenIn(fs.rest, id, cfg))
  }

  /** A pointer that is reported always belongs to a required package, whatever the spec and the config. */
  lemma {:induction false} PointersAreRequired(spec: Spec, id: PackageId, v: Value)
    requires Points(PointersOf(spec, v), id)
    ensures Requires(spec, id, v)
    decreases spec, 0
  {
    match spec
    case ObjectSpec(fs, _) => PointersInAreRequired(fs, id, v.fields);
    case UnionSpec(tag, vs, _) => PointersInAreRequired(GetVariant(vs, v.fields[tag].s), id, v.fields);
    case _ =>
  }

  lemma {:induction false} PointersInAreRequired(fs: Fields, id: PackageId, cfg: Config)
    requires Points(PointersIn(fs, cfg), id)
    ensures RequiresIn(fs, id, cfg)
    decreases fs, 0
  {
    var p :| p in PointersIn(fs, cfg).pointers && p.packageId == id;
    if p in PointersIn(fs.rest, cfg).pointers {
      PointersInAreRequired(fs.rest, id, cfg);
    } else {
      assert Points(PointersOf(fs.val, cfg[fs.name]), id);
      PointersAreRequired(fs.val, id, cfg[fs.name]);
    }
  }

  /** Every named field is present, so that none escapes the search for pointers. */
  ghost predicate Complete(spec: Spec, v: Value)
    decreases spec, 0
  {
    match spec
    case ObjectSpec(fs, _) => v.Object? && CompleteIn(fs, v.fields)
    case UnionSpec(tag, vs, _) =>
      && v.Object? && tag in v.fields && v.fields[tag].String? && HasVariant(vs, v.fields[tag].s)
      && CompleteIn(GetVariant(vs, v.fields[tag].s), v.fields)
    case _ => true
  }

  ghost predicate CompleteIn(fs: Fields, cfg: Config)
    decreases fs, 0
  {
    fs.Field? ==> fs.name in cfg && Complete(fs.val, cfg[fs.name]) && CompleteIn(fs.rest, cfg)
  }

  /** A successful update leaves a complete config. */
  lemma {:induction false} UpdateCompletes(c: Context, spec: Spec, v: Value)
    requires Typed(spec) && Validates(c, spec) && Updating(c, spec, v).Updated?
    ensures Complete(spec, Updating(c, spec, v).value)
    decreases spec, 0
  {
    match spec
    case ObjectSpec(fs, _) => UpdateCompletesIn(c, fs, v.fields);
    case UnionSpec(tag, vs, _) =>
      ChosenVariant(c, tag, vs, v.fields[tag].s);
      UpdateCompletesIn(c, GetVariant(vs, v.fields[tag].s), v.fields);
    case _ =>
  }

  lemma {:induction false} UpdateCompletesIn(c: Context, fs: Fields, cfg: Config)
    requires TypedFields(fs) && ValidatesFields(c, fs) && UpdatingFields(c, fs, cfg).Updated?
    ensures CompleteIn(fs, UpdatingFields(c, fs, cfg).value)
    ensures AgreeOff(fs, cfg, UpdatingFields(c, fs, cfg).value)
    decreases fs, 0
  {
    if fs.Field? {
      UpdateCompletes(c, fs.val, Get(cfg, fs.name));
      var u := Updating(c, fs.val, Get(cfg, fs.name));
      var next := cfg[fs.name := u.value];
      UpdateCompletesIn(c, fs.rest, next);
      var w := UpdatingFields(c, fs.rest, next).value;
      assert w[fs.name] == u.value;
      forall k | !HasField(fs, k)
        ensures (k in cfg <==> k in w) && (k in cfg ==> cfg[k] == w[k])
      {
        assert !HasField(fs.rest, k) && k != fs.name;
      }
    }
  }

  /** In a complete config every requirement shows as a pointer, except inside lists. */
  lemma {:induction false} CompleteShowsPointers(spec: Spec, id: PackageId, v: Value)
    requires Complete(spec, v)
    ensures PointersOf(spec, v).Found?
    ensures Requires(spec, id, v) ==> Points(PointersOf(spec, v), id) || HiddenInList(spec, id, v)
    ensures HiddenInList(spec, id, v) ==> Requires(spec, id, v)
    decreases spec, 0
  {
    match spec
    case ObjectSpec(fs, _) => CompleteShowsPointersIn(fs, id, v.fields);
    case UnionSpec(tag, vs, _) => CompleteShowsPointersIn(GetVariant(vs, v.fields[tag].s), id, v.fields);
    case PointerSpec(p) => assert p in PointersOf(spec, v).pointers;
    case _ =>
  }

  lemma {:induction false} CompleteShowsPointersIn(fs: Fields, id: PackageId, cfg: Config)
    requires CompleteIn(fs, cfg)
    ensures PointersIn(fs, cfg).Found?
    ensures RequiresIn(fs, id, cfg) ==> Points(PointersIn(fs, cfg), id) || HiddenIn(fs, id, cfg)
    ensures HiddenIn(fs, id, cfg) ==> RequiresIn(fs, id, cfg)
    decreases fs, 0
  {
    if fs.Field? {
      CompleteShowsPointers(fs.val, id, cfg[fs.name]);
      CompleteShowsPointersIn(fs.rest, id, cfg);
      if Points(PointersOf(fs.val, cfg[fs.name]), id) {
        var p :| p in PointersOf(fs.val, cfg[fs.name]).pointers && p.packageId == id;
        assert p in PointersIn(fs, cfg).pointers;
      }
      if Points(PointersIn(fs.rest, cfg), id) {
        var p :| p in PointersIn(fs.rest, cfg).pointers && p.packageId == id;
        assert p in PointersIn(fs, cfg).pointers;
      }
    }
  }

  /**
   * After a successful update of a validated spec, a package is required exactly when a pointer
   * to it is reported or a list member requires it.
   */
  lemma RequirementsAfterUpdate(c: Context, fs: Fields, cfg: Config, id: PackageId)
    requires TypedFields(fs) && ValidatesFields(c, fs) && UpdatingFields(c, fs, cfg).Updated?
    ensures var r := UpdatingFields(c, fs, cfg).value;
            && PointersIn(fs, r).Found?
            && (RequiresIn(fs, id, r) <==> Points(PointersIn(fs, r), id) || HiddenIn(fs, id, r))
  {
    var r := UpdatingFields(c, fs, cfg).value;
    UpdateCompletesIn(c, fs, cfg);
    CompleteShowsPointersIn(fs, id, r);
    if Points(PointersIn(fs, r), id) {
      PointersInAreRequired(fs, id, r);
    }
  }

  predicate ListFree(spec: Spec)
    decreases spec
  {
    match spec
    case ListSpec(_, _, _) => false
    case ObjectSpec(fs, _) => ListFreeIn(fs)
    case UnionSpec(_, vs, _) => ListFreeVariants(vs)
    case _ => true
  }

  predicate ListFreeIn(fs: Fields)
    decreases fs
  {
    fs.Field? ==> ListFree(fs.val) && ListFreeIn(fs.rest)
  }

  predicate ListFreeVariants(vs: Variants)
    decreases vs
  {
    vs.Variant? ==> ListFreeIn(vs.of) && ListFreeVariants(vs.others)
  }

  lemma {:induction false} ListFreeVariant(vs: Variants, t: string)
    requires ListFreeVariants(vs) && HasVariant(vs, t)
    ensures ListFreeIn(GetVariant(vs, t))
    decreases vs
  {
    if vs.variant != t {
      ListFreeVariant(vs.others, t);
    }
  }

  lemma {:induction false} NothingHidden(spec: Spec, id: PackageId, v: Value)
    requires ListFree(spec)
    ensures !HiddenInList(spec, id, v)
    decreases spec, 0
  {
    match spec
    case ObjectSpec(fs, _) =>
      if v.Object? {
        NothingHiddenIn(fs, id, v.fields);
      }
    case UnionSpec(tag, vs, _) =>
      if v.Object? && tag in v.fields && v.fields[tag].String? && HasVariant(vs, v.fields[tag].s) {
        ListFreeVariant(vs, v.fields[tag].s);
        NothingHiddenIn(GetVariant(vs, v.fields[tag].s), id, v.fields);
      }
    case _ =>
  }

  lemma {:induction false} NothingHiddenIn(fs: Fields, id: PackageId, cfg: Config)
    requires ListFreeIn(fs)
    ensures !HiddenIn(fs, id, cfg)
    decreases fs, 0
  {
    if fs.Field? {
      NothingHidden(fs.val, id, Get(cfg, fs.name));
      NothingHiddenIn(fs.rest, id, cfg);
    }
  }

  /** For list-free specs: required exactly when a reported pointer targets the package. */
  lemma ListFreeRequirements(c: Context, fs: Fields, cfg: Config, id: PackageId)
    requires TypedFields(fs) && ValidatesFields(c, fs) && ListFreeIn(fs) && UpdatingFields(c, fs, cfg).Updated?
    ensures var r := UpdatingFields(c, fs, cfg).value;
            RequiresIn(fs, id, r) <==> Points(PointersIn(fs, r), id)
  {
    RequirementsAfterUpdate(c, fs, cfg, id);
    NothingHiddenIn(fs, id, UpdatingFields(c, fs, cfg).value);
  }

  // ----- updating in place

  lemma {:induction false} ItemsStop(c: Context, member: Spec, items: seq<Value>, n: nat)
    requires n <= |items|
    ensures !UpdatingItems(c, member, items[..n]).Updated? ==> UpdatingItems(c, member, items) == UpdatingItems(c, member, items[..n])
    decreases |items|
  {
    if n == |items| {
      assert items[..n] == items;
    } else {
      ItemsStop(c, member, items[..|items| - 1], n);
      assert items[..|items| - 1][..n] == items[..n];
    }
  }

  /** Walks the named fields in order and overwrites each one; a field that is absent is added. */
  method UpdateConfig(c: Context, spec: Fields, before: Config) returns (r: Update<Config>)
    ensures r == UpdatingFields(c, spec, before)
    decreases spec, 0
  {
    var cfg := before;
    var todo := spec;
    while todo.Field?
      invariant todo == spec || todo < spec
      invariant UpdatingFields(c, todo, cfg) == UpdatingFields(c, spec, before)
      decreases todo
    {
      var u := UpdateValue(c, todo.val, Get(cfg, todo.name));
      match u {
        case Updated(v) => cfg := cfg[todo.name := v];
        case NoMatch => return NoMatch;
        case DerefFailed => return DerefFailed;
      }
      todo := todo.rest;
    }
    r := Updated(cfg);
  }

  method UpdateValue(c: Context, spec: Spec, v: Value) returns (r: Update<Value>)
    ensures r == Updating(c, spec, v)
    decreases spec, 0
  {
    match spec
    case ListSpec(member, _, _) =>
      if !v.Array? {
        return NoMatch;
      }
      var items := [];
      for i := 0 to |v.items|
        invariant UpdatingItems(c, member, v.items[..i]) == Updated(items)
      {
        var u := UpdateValue(c, member, v.items[i]);
        assert v.items[..i + 1][..i] == v.items[..i];
        ItemsStop(c, member, v.items, i + 1);
        match u {
          case Updated(w) => items := items + [w];
          case NoMatch => return NoMatch;
          case DerefFailed => return DerefFailed;
        }
      }
      assert v.items[..|v.items|] == v.items;
      r := Updated(Array(items));
    case ObjectSpec(fs, _) =>
      if !v.Object? {
        return NoMatch;
      }
      var u := UpdateConfig(c, fs, v.fields);
      r := AsObject(u);
    case UnionSpec(tag, vs, _) =>
      if !v.Object? || tag !in v.fields || !v.fields[tag].String? || !HasVariant(vs, v.fields[tag].s) {
        return NoMatch;
      }
      var u := UpdateConfig(c, GetVariant(vs, v.fields[tag].s), v.fields);
      r := AsObject(u);
    case PointerSpec(p) => r := Deref(c, p);
    case _ => r := Updated(v);
  }
}
