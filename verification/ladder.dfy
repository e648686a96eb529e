/**
 * What the healing ladder finds, read off the world rung by rung and without reference
 * to the ladder itself: the fault of each rung, and when a rung cannot be examined.
 */
module Ladder {
  import opened Common
  import opened DependencyErrors
  import opened ErrorGraph
  import opened PackageInfo
  import opened TryHealing
  import opened HealSpec

  /** An examination of what `id` may hold against `dependency`. */
  datatype Exam = Exam(env: Env, packages: Packages, errors: Errors, id: PackageId, dependency: PackageId,
                       config: Option<Config>, info: DepInfo)

  ghost predicate Present(x: Exam) {
    x.dependency in x.packages
  }

  ghost function Version(x: Exam): Version {
    if Present(x) then x.packages[x.dependency].version else x.env.defaultVersion
  }

  ghost function Status(x: Exam): MainStatus
    requires Present(x)
  {
    x.packages[x.dependency].main
  }

  /** The config of the dependency that is checked: the one given, or the live one, or the empty one. */
  ghost function ConfigSeen(x: Exam): Result<Config>
    requires Present(x)
  {
    if x.config.Some? then Ok(x.config.value)
    else if x.packages[x.dependency].hasConfigActions then x.env.fetchConfig(x.dependency)
    else Ok(x.env.defaultConfig)
  }

  ghost predicate Up(s: MainStatus) {
    s.Starting? || s.Running? || (s.BackingUp? && s.backupStarted.Some?)
  }

  /** The results of the dependency's health checks, while it has any. */
  ghost function Health(s: MainStatus): Option<map<HealthCheckId, HealthCheckResult>> {
    if s.Running? then Some(s.health)
    else if s.BackingUp? && s.backupStarted.Some? then Some(s.backupHealth)
    else None
  }

  ghost predicate ReliesOn(x: Exam, c: HealthCheckId) {
    x.id in x.packages && x.dependency in x.packages[x.id].healthChecks && c in x.packages[x.id].healthChecks[x.dependency]
  }

  /** These are exactly the checks that did not succeed and that the dependent relies on, and there are some. */
  ghost predicate AreFailures(x: Exam, health: map<HealthCheckId, HealthCheckResult>, failures: map<HealthCheckId, HealthCheckResult>) {
    && failures != map[]
    && (forall c :: c in failures <==> c in health && health[c] != Success && ReliesOn(x, c))
    && (forall c :: c in failures ==> failures[c] == health[c])
  }

  /** On this rung the error is found; `expected` is the version range asked for. */
  ghost predicate IsFault(x: Exam, expected: VersionRange, rung: nat, error: DependencyError) {
    match rung
    case 6 => !Present(x) && error == NotInstalled
    case 5 => !x.env.satisfies(Version(x), expected) && error == IncorrectVersion(expected, Version(x))
    case 4 =>
      && Present(x) && x.info.hasConfigCheck && ConfigSeen(x).Ok?
      && error.ConfigUnsatisfied? && x.env.check(x.id, x.dependency, ConfigSeen(x).value) == Ok(Some(error.error))
    case 3 => Present(x) && !Up(Status(x)) && error == NotRunning
    case 2 =>
      && Present(x)
      && if Health(Status(x)).Some? then error.HealthChecksFailed? && AreFailures(x, Health(Status(x)).value, error.failures)
         else !Status(x).Starting? && !Status(x).Restarting? && error == NotRunning
    case 1 => (exists c :: Has(x.errors, x.dependency, c)) && error == Transitive
    case _ => false
  }

  /** The rung cannot be examined. */
  ghost predicate Unexaminable(x: Exam, rung: nat) {
    match rung
    case 4 =>
      || x.id !in x.packages || !Present(x) || ConfigSeen(x).Err?
      || (x.info.hasConfigCheck && x.env.check(x.id, x.dependency, ConfigSeen(x).value).Err?)
    case 3 => !Present(x)
    case 2 =>
      || !Present(x)
      || (x.id !in x.packages && Health(Status(x)).Some? && exists c :: c in Health(Status(x)).value && Health(Status(x)).value[c] != Success)
    case _ => false
  }

  ghost predicate Passes(x: Exam, expected: VersionRange, rung: nat) {
    !Unexaminable(x, rung) && forall error :: !IsFault(x, expected, rung, error)
  }

  /** Counting down from `top`, this is the first rung that does not pass. */
  ghost predicate StopsAt(x: Exam, expected: VersionRange, top: nat, rung: nat) {
    1 <= rung <= top && !Passes(x, expected, rung) && forall q :: rung < q <= top ==> Passes(x, expected, q)
  }

  /** The outcome is what is found on the first rung, from the top, that does not pass, and nothing if all pass. */
  ghost predicate Diagnoses(x: Exam, expected: VersionRange, top: nat, r: Result<Option<DependencyError>>) {
    match r
    case Ok(None) => forall q :: 1 <= q <= top ==> Passes(x, expected, q)
    case Ok(Some(error)) => exists q :: StopsAt(x, expected, top, q) && !Unexaminable(x, q) && IsFault(x, expected, q, error)
    case Err(_) => exists q :: StopsAt(x, expected, top, q) && Unexaminable(x, q)
  }

  ghost function Expected(x: Exam, self: DependencyError): VersionRange {
    if self.IncorrectVersion? then self.expected else x.info.version
  }

  ghost function Outcome(x: Exam, self: DependencyError): Result<Option<DependencyError>> {
    TryHeal(x.env, x.packages, x.errors, self, x.id, x.dependency, x.config, x.info)
  }

  // ----- at most one outcome fits

  lemma FaultIsUnique(x: Exam, expected: VersionRange, rung: nat, a: DependencyError, b: DependencyError)
    requires IsFault(x, expected, rung, a) && IsFault(x, expected, rung, b)
    ensures a == b
  {
    if a.HealthChecksFailed? {
      assert a.failures == b.failures;
    }
  }

  /** Two diagnoses of the same examination agree, but for the text of a failure. */
  lemma DiagnosisIsUnique(x: Exam, expected: VersionRange, top: nat, r: Result<Option<DependencyError>>, s: Result<Option<DependencyError>>)
    requires Diagnoses(x, expected, top, r) && Diagnoses(x, expected, top, s)
    ensures r == s || (r.Err? && s.Err?)
  {
    if r.Ok? && r.value.Some? && s.Ok? && s.value.Some? {
      var p :| StopsAt(x, expected, top, p) && IsFault(x, expected, p, r.value.value);
      var q :| StopsAt(x, expected, top, q) && IsFault(x, expected, q, s.value.value);
      assert p == q;
      FaultIsUnique(x, expected, p, r.value.value, s.value.value);
    }
  }

  // ----- the ladder diagnoses

  lemma PassedRung(x: Exam, expected: VersionRange, top: nat, r: Result<Option<DependencyError>>)
    requires top > 0 && Passes(x, expected, top) && Diagnoses(x, expected, top - 1, r)
    ensures Diagnoses(x, expected, top, r)
  {
    match r
    case Ok(None) =>
    case Ok(Some(error)) =>
      var q :| StopsAt(x, expected, top - 1, q) && !Unexaminable(x, q) && IsFault(x, expected, q, error);
      assert StopsAt(x, expected, top, q);
    case Err(_) =>
      var q :| StopsAt(x, expected, top - 1, q) && Unexaminable(x, q);
      assert StopsAt(x, expected, top, q);
  }

  lemma FoundAtTop(x: Exam, expected: VersionRange, top: nat, error: DependencyError)
    requires top > 0 && !Unexaminable(x, top) && IsFault(x, expected, top, error)
    ensures Diagnoses(x, expected, top, Ok(Some(error)))
  {
    assert StopsAt(x, expected, top, top);
  }

  lemma FailedAtTop(x: Exam, expected: VersionRange, top: nat, r: Result<Option<DependencyError>>)
    requires top > 0 && Unexaminable(x, top) && r.Err?
    ensures Diagnoses(x, expected, top, r)
  {
    assert StopsAt(x, expected, top, top);
  }

  /** Below the version rung the range asked for does not matter, below the config rung neither does the config. */
  lemma LowRungsAgree(x: Exam, y: Exam, a: VersionRange, b: VersionRange, top: nat, r: Result<Option<DependencyError>>)
    requires top <= 4 && y == x.(config := y.config) && (y.config == x.config || top <= 3)
    requires Diagnoses(x, a, top, r)
    ensures Diagnoses(y, b, top, r)
  {
    forall q | 0 <= q <= top
      ensures Passes(x, a, q) == Passes(y, b, q) && Unexaminable(x, q) == Unexaminable(y, q)
    {
      RungAgrees(x, y, a, b, q);
    }
    match r
    case Ok(None) =>
    case Ok(Some(error)) =>
      var q :| StopsAt(x, a, top, q) && !Unexaminable(x, q) && IsFault(x, a, q, error);
      RungAgrees(x, y, a, b, q);
      assert StopsAt(y, b, top, q);
    case Err(_) =>
      var q :| StopsAt(x, a, top, q) && Unexaminable(x, q);
      assert StopsAt(y, b, top, q);
  }

  lemma RungAgrees(x: Exam, y: Exam, a: VersionRange, b: VersionRange, q: nat)
    requires q <= 4 && y == x.(config := y.config) && (y.config == x.config || q <= 3)
    ensures Passes(x, a, q) == Passes(y, b, q) && Unexaminable(x, q) == Unexaminable(y, q)
    ensures forall error :: IsFault(x, a, q, error) == IsFault(y, b, q, error)
  {
    assert forall c :: ReliesOn(x, c) == ReliesOn(y, c);
    forall error
      ensures IsFault(x, a, q, error) == IsFault(y, b, q, error)
    {
    }
    assert (forall error :: !IsFault(x, a, q, error)) == (forall error :: !IsFault(y, b, q, error));
  }

  lemma TransitiveRung(x: Exam)
    ensures Diagnoses(x, x.info.version, 1, Outcome(x, Transitive))
  {
    DirtyHas(x.errors, x.dependency);
    if Dirty(x.errors, x.dependency) {
      FoundAtTop(x, x.info.version, 1, Transitive);
    }
  }

  /** What the checks that failed come to. */
  lemma FailuresAreExact(x: Exam, health: map<HealthCheckId, HealthCheckResult>)
    requires Present(x) && Health(Status(x)) == Some(health) && !Unexaminable(x, 2)
    ensures FailedChecks(x.packages, x.id, x.dependency, health).Ok?
    ensures var m := FailedChecks(x.packages, x.id, x.dependency, health).value;
            if m == map[] then forall n :: !AreFailures(x, health, n) else AreFailures(x, health, m)
  {
    var m := FailedChecks(x.packages, x.id, x.dependency, health).value;
    assert forall c :: c in m <==> c in health && health[c] != Success && ReliesOn(x, c);
    forall n | AreFailures(x, health, n)
      ensures n == m
    {
    }
  }

  lemma HealthRung(x: Exam, self: DependencyError)
    requires self.HealthChecksFailed?
    ensures Diagnoses(x, x.info.version, 2, Outcome(x, self))
  {
    if Unexaminable(x, 2) {
      FailedAtTop(x, x.info.version, 2, Outcome(x, self));
    } else {
      TransitiveRung(x);
      var h := Health(Status(x));
      if h.Some? {
        FailuresAreExact(x, h.value);
      }
      if Outcome(x, self) == Outcome(x, Transitive) && Passes(x, x.info.version, 2) {
        PassedRung(x, x.info.version, 2, Outcome(x, self));
      } else {
        FoundAtTop(x, x.info.version, 2, Outcome(x, self).value.value);
      }
    }
  }

  lemma RunningRung(x: Exam)
    ensures Diagnoses(x, x.info.version, 3, Outcome(x, NotRunning))
  {
    if !Present(x) {
      FailedAtTop(x, x.info.version, 3, Outcome(x, NotRunning));
    } else if Up(Status(x)) {
      HealthRung(x, HealthChecksFailed(map[]));
      PassedRung(x, x.info.version, 3, Outcome(x, NotRunning));
    } else {
      FoundAtTop(x, x.info.version, 3, NotRunning);
    }
  }

  lemma ConfigRung(x: Exam, self: DependencyError)
    requires self.ConfigUnsatisfied?
    ensures Diagnoses(x, x.info.version, 4, Outcome(x, self))
  {
    if Unexaminable(x, 4) {
      FailedAtTop(x, x.info.version, 4, Outcome(x, self));
    } else {
      var cfg := ConfigSeen(x).value;
      var seen := x.(config := Some(cfg));
      RunningRung(seen);
      LowRungsAgree(seen, x, x.info.version, x.info.version, 3, Outcome(seen, NotRunning));
      var found := if x.info.hasConfigCheck then x.env.check(x.id, x.dependency, cfg).value else None;
      if found.Some? {
        FoundAtTop(x, x.info.version, 4, ConfigUnsatisfied(found.value));
      } else {
        PassedRung(x, x.info.version, 4, Outcome(x, self));
      }
    }
  }

  lemma VersionRung(x: Exam, self: DependencyError)
    requires self.IncorrectVersion?
    ensures Diagnoses(x, self.expected, 5, Outcome(x, self))
  {
    if x.env.satisfies(Version(x), self.expected) {
      ConfigRung(x, ConfigUnsatisfied(""));
      LowRungsAgree(x, x, x.info.version, self.expected, 4, Outcome(x, self));
      PassedRung(x, self.expected, 5, Outcome(x, self));
    } else {
      FoundAtTop(x, self.expected, 5, IncorrectVersion(self.expected, Version(x)));
    }
  }

  /**
   * Whatever error is re-examined, and in whatever world: the ladder returns the fault of the
   * highest rung, at or below that error's own, that does not pass; nothing exactly when all of
   * them pass; and it fails exactly when the highest rung that does not pass cannot be examined.
   */
  lemma LadderDiagnoses(x: Exam, self: DependencyError)
    ensures Diagnoses(x, Expected(x, self), Rank(self), Outcome(x, self))
  {
    match self
    case NotInstalled =>
      if Present(x) {
        VersionRung(x, IncorrectVersion(x.info.version, x.env.defaultVersion));
        PassedRung(x, x.info.version, 6, Outcome(x, self));
      } else {
        FoundAtTop(x, x.info.version, 6, NotInstalled);
      }
    case IncorrectVersion(_, _) => VersionRung(x, self);
    case ConfigUnsatisfied(_) => ConfigRung(x, self);
    case NotRunning => RunningRung(x);
    case HealthChecksFailed(_) => HealthRung(x, self);
    case Transitive => TransitiveRung(x);
  }

  /** Re-examining an entry of the table is such an examination, with what the manifest asks for; without it the entry cannot be re-examined. */
  lemma RehealDiagnoses(w: World, e: Errors, d: PackageId, y: PackageId, v: DependencyError)
    ensures if d in w.packages && y in w.packages[d].requirements then
              var x := Exam(w.env, w.packages, e, d, y, None, w.packages[d].requirements[y]);
              Diagnoses(x, Expected(x, v), Rank(v), Reheal(w, e, d, y, v))
            else Reheal(w, e, d, y, v).Err?
  {
    if d in w.packages && y in w.packages[d].requirements {
      LadderDiagnoses(Exam(w.env, w.packages, e, d, y, None, w.packages[d].requirements[y]), v);
    }
  }
}
