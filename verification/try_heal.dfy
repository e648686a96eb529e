/** The stored status of a service and what the error ladder reads of the packages. */
module PackageInfo {
  import opened Common
  import opened DependencyErrors

  type Config = string
  type Time = int

  datatype MainStatus =
    | Stopped
    | Restarting
    | Stopping
    | Starting(restarting: bool)
    | Running(started: Time, health: map<HealthCheckId, HealthCheckResult>)
    | BackingUp(backupStarted: Option<Time>, backupHealth: map<HealthCheckId, HealthCheckResult>)

  predicate IsRunning(s: MainStatus) {
    match s
    case Starting(_) => true
    case Running(_, _) => true
    case BackingUp(Some(_), _) => true
    case _ => false
  }

  /** What a manifest says about one dependency. */
  datatype DepInfo = DepInfo(version: VersionRange, hasConfigCheck: bool)

  /** The part of an installed entry that healing reads and never writes. */
  datatype Package = Package(
    main: MainStatus,
    version: Version,
    hasConfigActions: bool,
    requirements: map<PackageId, DepInfo>,
    healthChecks: map<PackageId, set<HealthCheckId>>)

  type Packages = map<PackageId, Package>

  /** Foreign code, taken as deterministic: version ranges, config actions and config checks. */
  datatype Env = Env(
    satisfies: (Version, VersionRange) -> bool,
    defaultVersion: Version,
    defaultConfig: Config,
    fetchConfig: PackageId -> Result<Config>,
    check: (PackageId, PackageId, Config) -> Result<Option<string>>)
}

/** The ladder that re-examines one recorded error, from the highest rung down. */
module TryHealing {
  import opened Common
  import opened DependencyErrors
  import opened ErrorGraph
  import opened PackageInfo

  predicate Dirty(e: Errors, y: PackageId) {
    y in e && e[y] != map[]
  }

  /** The checks of dependency y that did not succeed and that id relies on. */
  function FailedChecks(ps: Packages, id: PackageId, y: PackageId,
                        health: map<HealthCheckId, HealthCheckResult>): Result<map<HealthCheckId, HealthCheckResult>> {
    if id in ps then
      Ok(map c | c in health && health[c] != Success && y in ps[id].healthChecks && c in ps[id].healthChecks[y] :: health[c])
    else if exists c :: c in health && health[c] != Success then Err(NotFound(id))
    else Ok(map[])
  }

  /** The failures a dependency in this status is charged with, or nothing if it is not up. */
  function FailuresOf(ps: Packages, id: PackageId, y: PackageId, main: MainStatus): Result<Option<map<HealthCheckId, HealthCheckResult>>> {
    match main
    case BackingUp(Some(_), health) => Charge(FailedChecks(ps, id, y, health))
    case Running(_, health) => Charge(FailedChecks(ps, id, y, health))
    case Starting(_) => Ok(Some(map[]))
    case Restarting => Ok(Some(map[]))
    case _ => Ok(None)
  }

  function Charge<T>(r: Result<T>): Result<Option<T>> {
    match r
    case Ok(v) => Ok(Some(v))
    case Err(err) => Err(err)
  }

  function DependencyConfig(env: Env, ps: Packages, y: PackageId, given: Option<Config>): Result<Config>
    requires y in ps
  {
    if given.Some? then Ok(given.value)
    else if ps[y].hasConfigActions then env.fetchConfig(y)
    else Ok(env.defaultConfig)
  }

  function TryHeal(env: Env, ps: Packages, e: Errors, self: DependencyError, id: PackageId, y: PackageId,
                   config: Option<Config>, info: DepInfo): Result<Option<DependencyError>>
    decreases Rank(self)
  {
    match self
    case NotInstalled =>
      if y in ps then TryHeal(env, ps, e, IncorrectVersion(info.version, env.defaultVersion), id, y, config, info)
      else Ok(Some(NotInstalled))
    case IncorrectVersion(expected, _) =>
      var version := if y in ps then ps[y].version else env.defaultVersion;
      if env.satisfies(version, expected) then TryHeal(env, ps, e, ConfigUnsatisfied(""), id, y, config, info)
      else Ok(Some(IncorrectVersion(expected, version)))
    case ConfigUnsatisfied(_) =>
      if id !in ps then Err(NotFound(id))
      else if y !in ps then Err(NotFound(y))
      else (
        match DependencyConfig(env, ps, y, config)
        case Err(err) => Err(err)
        case Ok(cfg) =>
          if !info.hasConfigCheck then TryHeal(env, ps, e, NotRunning, id, y, Some(cfg), info)
          else match env.check(id, y, cfg)
               case Err(err) => Err(err)
               case Ok(Some(error)) => Ok(Some(ConfigUnsatisfied(error)))
               case Ok(None) => TryHeal(env, ps, e, NotRunning, id, y, Some(cfg), info)
      )
    case NotRunning =>
      if y !in ps then Err(NotFound(y))
      else if IsRunning(ps[y].main) then TryHeal(env, ps, e, HealthChecksFailed(map[]), id, y, config, info)
      else Ok(Some(NotRunning))
    case HealthChecksFailed(_) =>
      if y !in ps then Err(NotFound(y))
      else (
        match FailuresOf(ps, id, y, ps[y].main)
        case Err(err) => Err(err)
        case Ok(None) => Ok(Some(NotRunning))
        case Ok(Some(failures)) =>
          if failures != map[] then Ok(Some(HealthChecksFailed(failures)))
          else TryHeal(env, ps, e, Transitive, id, y, config, info)
      )
    case Transitive =>
      if Dirty(e, y) then Ok(Some(Transitive)) else Ok(None)
  }

  /** Two outcomes that agree and are settled above the last rung, or that are both decided there. */
  predicate SettledOrLast(r: Result<Option<DependencyError>>, s: Result<Option<DependencyError>>, dirtyR: bool, dirtyS: bool) {
    || (r == s && (r.Ok? ==> r.value.Some? && r.value.value != Transitive))
    || (&& r == Ok(if dirtyR then Some(Transitive) else None)
        && s == Ok(if dirtyS then Some(Transitive) else None))
  }

  /**
   * The error table matters on the last rung only: the outcome is Transitive or
   * nothing according to whether the dependency has errors, or else the same for all tables.
   */
  lemma {:induction false} TableMattersLast(env: Env, ps: Packages, e: Errors, f: Errors, self: DependencyError, id: PackageId, y: PackageId,
                         config: Option<Config>, info: DepInfo)
    ensures SettledOrLast(TryHeal(env, ps, e, self, id, y, config, info), TryHeal(env, ps, f, self, id, y, config, info), Dirty(e, y), Dirty(f, y))
    decreases Rank(self)
  {
    match self
    case NotInstalled => TableMattersLast(env, ps, e, f, IncorrectVersion(info.version, env.defaultVersion), id, y, config, info);
    case IncorrectVersion(_, _) => TableMattersLast(env, ps, e, f, ConfigUnsatisfied(""), id, y, config, info);
    case ConfigUnsatisfied(_) =>
      if y in ps {
        match DependencyConfig(env, ps, y, config) {
          case Ok(cfg) => TableMattersLast(env, ps, e, f, NotRunning, id, y, Some(cfg), info);
          case Err(_) =>
        }
      }
    case NotRunning => TableMattersLast(env, ps, e, f, HealthChecksFailed(map[]), id, y, config, info);
    case HealthChecksFailed(_) => TableMattersLast(env, ps, e, f, Transitive, id, y, config, info);
    case Transitive =>
  }

  /**
   * Re-examining an outcome gives what re-examining the original would give, in any
   * table; in particular an outcome is a fixed point in the table that produced it.
   */
  lemma {:induction false} HealAbsorbs(env: Env, ps: Packages, e: Errors, f: Errors, self: DependencyError, id: PackageId, y: PackageId,
                    config: Option<Config>, info: DepInfo, v: DependencyError)
    requires TryHeal(env, ps, e, self, id, y, config, info) == Ok(Some(v))
    ensures TryHeal(env, ps, f, v, id, y, config, info) == TryHeal(env, ps, f, self, id, y, config, info)
    decreases Rank(self)
  {
    TableMattersLast(env, ps, e, f, self, id, y, config, info);
    match self
    case NotInstalled =>
      if y in ps {
        HealAbsorbs(env, ps, e, f, IncorrectVersion(info.version, env.defaultVersion), id, y, config, info, v);
      }
    case IncorrectVersion(expected, _) =>
      if TryHeal(env, ps, e, ConfigUnsatisfied(""), id, y, config, info) == Ok(Some(v)) {
        HealAbsorbs(env, ps, e, f, ConfigUnsatisfied(""), id, y, config, info, v);
      }
    case ConfigUnsatisfied(_) =>
      if !v.ConfigUnsatisfied? {
        var cfg := DependencyConfig(env, ps, y, config).value;
        HealAbsorbs(env, ps, e, f, NotRunning, id, y, Some(cfg), info, v);
        LowRungsIgnoreConfig(env, ps, f, v, id, y, config, Some(cfg), info);
      }
    case NotRunning =>
      if v != NotRunning {
        HealAbsorbs(env, ps, e, f, HealthChecksFailed(map[]), id, y, config, info, v);
      }
    case HealthChecksFailed(_) =>
    case Transitive =>
  }

  lemma {:induction false} LowRungsIgnoreConfig(env: Env, ps: Packages, e: Errors, self: DependencyError, id: PackageId, y: PackageId,
                             c: Option<Config>, d: Option<Config>, info: DepInfo)
    requires Rank(self) <= Rank(NotRunning)
    ensures TryHeal(env, ps, e, self, id, y, c, info) == TryHeal(env, ps, e, self, id, y, d, info)
    decreases Rank(self)
  {
    match self
    case NotRunning => LowRungsIgnoreConfig(env, ps, e, HealthChecksFailed(map[]), id, y, c, d, info);
    case HealthChecksFailed(_) => LowRungsIgnoreConfig(env, ps, e, Transitive, id, y, c, d, info);
    case Transitive =>
  }

  /** The status of a package is read only when that package is the dependency examined. */
  lemma {:induction false} OtherStatusIgnored(env: Env, ps: Packages, qs: Packages, x: PackageId, e: Errors, self: DependencyError,
                           id: PackageId, y: PackageId, config: Option<Config>, info: DepInfo)
    requires x in ps && y != x && qs.Keys == ps.Keys
    requires forall p :: p in ps && p != x ==> qs[p] == ps[p]
    requires qs[x] == ps[x].(main := qs[x].main)
    ensures TryHeal(env, qs, e, self, id, y, config, info) == TryHeal(env, ps, e, self, id, y, config, info)
    decreases Rank(self)
  {
    assert y in ps ==> FailuresOf(qs, id, y, qs[y].main) == FailuresOf(ps, id, y, ps[y].main) by {
      assert id in ps ==> qs[id].healthChecks == ps[id].healthChecks;
    }
    match self
    case NotInstalled => OtherStatusIgnored(env, ps, qs, x, e, IncorrectVersion(info.version, env.defaultVersion), id, y, config, info);
    case IncorrectVersion(_, _) => OtherStatusIgnored(env, ps, qs, x, e, ConfigUnsatisfied(""), id, y, config, info);
    case ConfigUnsatisfied(_) =>
      if y in ps {
        match DependencyConfig(env, ps, y, config) {
          case Ok(cfg) => OtherStatusIgnored(env, ps, qs, x, e, NotRunning, id, y, Some(cfg), info);
          case Err(_) =>
        }
      }
    case NotRunning => OtherStatusIgnored(env, ps, qs, x, e, HealthChecksFailed(map[]), id, y, config, info);
    case HealthChecksFailed(_) => OtherStatusIgnored(env, ps, qs, x, e, Transitive, id, y, config, info);
    case Transitive =>
  }
}
