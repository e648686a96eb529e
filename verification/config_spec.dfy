/** Config values and the specs that describe them. */
module ConfigSpecs {
  import opened Common

  datatype Value =
    | Null
    | Bool(b: bool)
    | Number(n: real)
    | String(s: string)
    | Array(items: seq<Value>)
    | Object(fields: Config)

  type Config = map<string, Value>

  datatype Bound<T> = Included(t: T) | Excluded(t: T) | Unbounded

  datatype Pointer =
    | TorKey(packageId: PackageId, interface: string)
    | TorAddress(packageId: PackageId, interface: string)
    | LanAddress(packageId: PackageId, interface: string)
    | ConfigPointer(packageId: PackageId, selector: string, multi: bool)

  datatype UniqueBy = Any(any: seq<UniqueBy>) | All(all: seq<UniqueBy>) | Exactly(key: string) | NotUnique

  datatype Spec =
    | BooleanSpec
    | EnumSpec(values: set<string>)
    | NumberSpec(nullable: bool, integral: bool, lo: Bound<real>, hi: Bound<real>)
    | StringSpec(nullable: bool, pattern: Option<string>)
    | ListSpec(member: Spec, min: Bound<nat>, max: Bound<nat>)
    | ObjectSpec(spec: Fields, uniqueBy: UniqueBy)
    | UnionSpec(tag: string, variants: Variants, uniqueBy: UniqueBy)
    | PointerSpec(pointer: Pointer)

  /** An ordered map from names to specs. */
  datatype Fields = NoFields | Field(name: string, val: Spec, rest: Fields)

  datatype Variants = NoVariants | Variant(variant: string, of: Fields, others: Variants)

  /** The package a spec belongs to, and the foreign code it relies on, taken as deterministic. */
  datatype Context = Context(
    id: PackageId,
    dependencies: set<PackageId>,
    isMatch: (string, string) -> bool,
    fetch: Pointer -> Option<Value>)

  // ----- lookups

  predicate HasField(fs: Fields, k: string) {
    fs.Field? && (fs.name == k || HasField(fs.rest, k))
  }

  function GetField(fs: Fields, k: string): Spec
    requires HasField(fs, k)
    ensures GetField(fs, k) < fs
  {
    if fs.name == k then fs.val else GetField(fs.rest, k)
  }

  predicate HasVariant(vs: Variants, t: string) {
    vs.Variant? && (vs.variant == t || HasVariant(vs.others, t))
  }

  function GetVariant(vs: Variants, t: string): Fields
    requires HasVariant(vs, t)
    ensures GetVariant(vs, t) < vs
  {
    if vs.variant == t then vs.of else GetVariant(vs.others, t)
  }

  function Get(cfg: Config, k: string): Value {
    if k in cfg then cfg[k] else Null
  }

  predicate Above(b: Bound<real>, x: real) {
    match b case Included(t) => t <= x case Excluded(t) => t < x case Unbounded => true
  }

  predicate Below(b: Bound<real>, x: real) {
    match b case Included(t) => x <= t case Excluded(t) => x < t case Unbounded => true
  }

  predicate Sized(min: Bound<nat>, max: Bound<nat>, n: nat) {
    && (match min case Included(t) => t <= n case Excluded(t) => t < n case Unbounded => true)
    && (match max case Included(t) => n <= t case Excluded(t) => n < t case Unbounded => true)
  }

  // ----- uniqueness

  predicate UniqueEq(u: UniqueBy, l: Config, r: Config) {
    match u
    case Any(any) => exists i :: 0 <= i < |any| && UniqueEq(any[i], l, r)
    case All(all) => forall i :: 0 <= i < |all| ==> UniqueEq(all[i], l, r)
    case Exactly(key) => (key in l) == (key in r) && (key in l ==> l[key] == r[key])
    case NotUnique => false
  }

  predicate Eq(spec: Spec, l: Value, r: Value) {
    match spec
    case BooleanSpec => l.Bool? && r.Bool? && l == r
    case EnumSpec(_) => l.String? && r.String? && l == r
    case NumberSpec(_, _, _, _) => l.Number? && r.Number? && l == r
    case StringSpec(_, _) => l.String? && r.String? && l == r
    case ListSpec(_, _, _) => l.Array? && r.Array? && l == r
    case ObjectSpec(_, u) => l.Object? && r.Object? && UniqueEq(u, l.fields, r.fields)
    case UnionSpec(_, _, u) => l.Object? && r.Object? && UniqueEq(u, l.fields, r.fields)
    case PointerSpec(_) => false
  }

  // ----- matching

  predicate Matches(c: Context, spec: Spec, v: Value)
    decreases spec
  {
    match spec
    case BooleanSpec => v.Bool?
    case EnumSpec(values) => v.String? && v.s in values
    case NumberSpec(nullable, integral, lo, hi) =>
      || (nullable && v.Null?)
      || (v.Number? && (integral ==> v.n.Floor as real == v.n) && Above(lo, v.n) && Below(hi, v.n))
    case StringSpec(nullable, pattern) =>
      || (nullable && v.Null?)
      || (v.String? && (pattern.Some? ==> c.isMatch(pattern.value, v.s)))
    case ListSpec(member, min, max) =>
      && v.Array? && Sized(min, max, |v.items|)
      && (forall i :: 0 <= i < |v.items| ==> Matches(c, member, v.items[i]))
      && (forall i, j :: 0 <= i < |v.items| && 0 <= j < |v.items| && i != j ==> !Eq(member, v.items[i], v.items[j]))
    case ObjectSpec(fs, _) => v.Object? && MatchesFields(c, fs, v.fields)
    case UnionSpec(tag, vs, _) =>
      && v.Object? && tag in v.fields && v.fields[tag].String? && HasVariant(vs, v.fields[tag].s)
      && MatchesFields(c, GetVariant(vs, v.fields[tag].s), v.fields - {tag})
    case PointerSpec(_) => true
  }

  predicate MatchesFields(c: Context, fs: Fields, cfg: Config)
    decreases fs
  {
    fs.Field? ==> Matches(c, fs.val, Get(cfg, fs.name)) && MatchesFields(c, fs.rest, cfg)
  }

  // ----- validity of the spec itself

  predicate Validates(c: Context, spec: Spec)
    decreases spec
  {
    match spec
    case ListSpec(member, _, _) => Validates(c, member)
    case ObjectSpec(fs, _) => ValidatesFields(c, fs)
    case UnionSpec(tag, vs, _) => ValidatesVariants(c, tag, vs)
    case PointerSpec(p) => p.packageId == c.id || p.packageId in c.dependencies
    case _ => true
  }

  predicate ValidatesFields(c: Context, fs: Fields)
    decreases fs
  {
    fs.Field? ==> Validates(c, fs.val) && ValidatesFields(c, fs.rest)
  }

  predicate ValidatesVariants(c: Context, tag: string, vs: Variants)
    decreases vs
  {
    vs.Variant? ==> !HasField(vs.of, tag) && ValidatesFields(c, vs.of) && ValidatesVariants(c, tag, vs.others)
  }

  /** What a list may hold. */
  predicate Listable(spec: Spec) {
    spec.EnumSpec? || spec.NumberSpec? || spec.StringSpec? || spec.ObjectSpec? || spec.UnionSpec?
  }

  /** What the types of the source guarantee: names in a spec are distinct, and lists hold no booleans, lists or pointers. */
  ghost predicate Typed(spec: Spec)
    decreases spec
  {
    match spec
    case ListSpec(m, _, _) => Typed(m) && Listable(m)
    case ObjectSpec(fs, _) => TypedFields(fs)
    case UnionSpec(_, vs, _) => TypedVariants(vs)
    case _ => true
  }

  ghost predicate TypedFields(fs: Fields)
    decreases fs
  {
    fs.Field? ==> Typed(fs.val) && !HasField(fs.rest, fs.name) && TypedFields(fs.rest)
  }

  ghost predicate TypedVariants(vs: Variants)
    decreases vs
  {
    vs.Variant? ==> TypedFields(vs.of) && TypedVariants(vs.others)
  }

  /** Objects and unions that are members of lists use the default unique-by. */
  predicate DefaultUnique(spec: Spec)
    decreases spec
  {
    match spec
    case ListSpec(m, _, _) => DefaultUnique(m) && (m.ObjectSpec? || m.UnionSpec? ==> m.uniqueBy == NotUnique)
    case ObjectSpec(fs, _) => DefaultUniqueFields(fs)
    case UnionSpec(_, vs, _) => DefaultUniqueVariants(vs)
    case _ => true
  }

  predicate DefaultUniqueFields(fs: Fields)
    decreases fs
  {
    fs.Field? ==> DefaultUnique(fs.val) && DefaultUniqueFields(fs.rest)
  }

  predicate DefaultUniqueVariants(vs: Variants)
    decreases vs
  {
    vs.Variant? ==> DefaultUniqueFields(vs.of) && DefaultUniqueVariants(vs.others)
  }

  // ----- updating: every pointer in the config is replaced by what it points to

  datatype Update<+T> = Updated(value: T) | NoMatch | DerefFailed

  function Deref(c: Context, p: Pointer): Update<Value> {
    if p.TorKey? && p.packageId != c.id then DerefFailed
    else match c.fetch(p)
         case Some(v) => Updated(v)
         case None => DerefFailed
  }

  function Updating(c: Context, spec: Spec, v: Value): Update<Value>
    decreases spec, 0
  {
    match spec
    case ListSpec(member, _, _) =>
      if !v.Array? then NoMatch
      else (
        match UpdatingItems(c, member, v.items)
        case Updated(items) => Updated(Array(items))
        case NoMatch => NoMatch
        case DerefFailed => DerefFailed
      )
    case ObjectSpec(fs, _) => if v.Object? then AsObject(UpdatingFields(c, fs, v.fields)) else NoMatch
    case UnionSpec(tag, vs, _) =>
      if v.Object? && tag in v.fields && v.fields[tag].String? && HasVariant(vs, v.fields[tag].s)
      then AsObject(UpdatingFields(c, GetVariant(vs, v.fields[tag].s), v.fields))
      else NoMatch
    case PointerSpec(p) => Deref(c, p)
    case _ => Updated(v)
  }

  function AsObject(u: Update<Config>): Update<Value> {
    match u
    case Updated(cfg) => Updated(Object(cfg))
    case NoMatch => NoMatch
    case DerefFailed => DerefFailed
  }

  function UpdatingItems(c: Context, member: Spec, items: seq<Value>): (r: Update<seq<Value>>)
    ensures r.Updated? ==> |r.value| == |items|
    decreases member, 1 + |items|
  {
    if items == [] then Updated([])
    else match UpdatingItems(c, member, items[..|items| - 1])
         case Updated(front) => (
           match Updating(c, member, items[|items| - 1])
           case Updated(v) => Updated(front + [v])
           case NoMatch => NoMatch
           case DerefFailed => DerefFailed
         )
         case NoMatch => NoMatch
         case DerefFailed => DerefFailed
  }

  function UpdatingFields(c: Context, fs: Fields, cfg: Config): Update<Config>
    decreases fs, 0
  {
    match fs
    case NoFields => Updated(cfg)
    case Field(name, val, rest) =>
      match Updating(c, val, Get(cfg, name))
      case Updated(v) => UpdatingFields(c, rest, cfg[name := v])
      case NoMatch => NoMatch
      case DerefFailed => DerefFailed
  }

  // ----- pointers and requirements

  datatype Pointers = Found(pointers: set<Pointer>) | Mismatch

  function PointersOf(spec: Spec, v: Value): Pointers
    decreases spec, 0
  {
    match spec
    case ObjectSpec(fs, _) => if v.Object? then PointersIn(fs, v.fields) else Mismatch
    case UnionSpec(tag, vs, _) =>
      if v.Object? && tag in v.fields && v.fields[tag].String? && HasVariant(vs, v.fields[tag].s)
      then PointersIn(GetVariant(vs, v.fields[tag].s), v.fields)
      else Mismatch
    case PointerSpec(p) => Found({p})
    case _ => Found({})
  }

  /** Only the fields present in the config are looked at. */
  function PointersIn(fs: Fields, cfg: Config): Pointers
    decreases fs, 0
  {
    match fs
    case NoFields => Found({})
    case Field(name, val, rest) =>
      var others := PointersIn(rest, cfg);
      if name !in cfg then others
      else match (others, PointersOf(val, cfg[name]))
           case (Found(s0), Found(s1)) => Found(s0 + s1)
           case _ => Mismatch
  }

  predicate Requires(spec: Spec, id: PackageId, v: Value)
    decreases spec, 0
  {
    match spec
    case ListSpec(member, _, _) => v.Array? && exists i :: 0 <= i < |v.items| && Requires(member, id, v.items[i])
    case ObjectSpec(fs, _) => v.Object? && RequiresIn(fs, id, v.fields)
    case UnionSpec(tag, vs, _) =>
      && v.Object? && tag in v.fields && v.fields[tag].String? && HasVariant(vs, v.fields[tag].s)
      && RequiresIn(GetVariant(vs, v.fields[tag].s), id, v.fields)
    case PointerSpec(p) => p.packageId == id
    case _ => false
  }

  predicate RequiresIn(fs: Fields, id: PackageId, cfg: Config)
    decreases fs, 0
  {
    fs.Field? && (Requires(fs.val, id, Get(cfg, fs.name)) || RequiresIn(fs.rest, id, cfg))
  }
}
