/** Shared names of the package database: identifiers, failures and the outcome of a fallible step. */
module Common {
  type PackageId = string

  datatype Option<+T> = None | Some(value: T)

  datatype Error = NotFound(what: string) | Fault(why: string)

  datatype Result<+T> = Ok(value: T) | Err(error: Error)

  lemma {:induction false} SubsetSize<T>(a: set<T>, b: set<T>)
    requires a <= b
    ensures |a| <= |b|
  {
    if a != {} {
      var x :| x in a;
      SubsetSize(a - {x}, b - {x});
    }
  }
}

/**
 * The error a package keeps about one of its dependencies, the priority order on
 * such errors, and the way two of them are merged.
 */
module DependencyErrors {
  import opened Common

  type Version = string
  type VersionRange = string
  type HealthCheckId = string

  datatype HealthCheckResult = Success | Disabled | Starting | Loading(message: string) | Failure(error: string)

  datatype DependencyError =
    | NotInstalled
    | IncorrectVersion(expected: VersionRange, received: Version)
    | ConfigUnsatisfied(error: string)
    | NotRunning
    | HealthChecksFailed(failures: map<HealthCheckId, HealthCheckResult>)
    | Transitive

  datatype Ordering = Less | Equal | Greater

  function CmpPriority(self: DependencyError, other: DependencyError): Ordering {
    match (self, other)
    case (NotInstalled, NotInstalled) => Equal
    case (NotInstalled, _) => Greater
    case (_, NotInstalled) => Less
    case (IncorrectVersion(_, _), IncorrectVersion(_, _)) => Equal
    case (IncorrectVersion(_, _), _) => Greater
    case (_, IncorrectVersion(_, _)) => Less
    case (ConfigUnsatisfied(_), ConfigUnsatisfied(_)) => Equal
    case (ConfigUnsatisfied(_), _) => Greater
    case (_, ConfigUnsatisfied(_)) => Less
    case (NotRunning, NotRunning) => Equal
    case (NotRunning, _) => Greater
    case (_, NotRunning) => Less
    case (HealthChecksFailed(_), HealthChecksFailed(_)) => Equal
    case (HealthChecksFailed(_), _) => Greater
    case (_, HealthChecksFailed(_)) => Less
    case (Transitive, Transitive) => Equal
  }

  function MergeWith(self: DependencyError, other: DependencyError): DependencyError {
    match (self, other)
    case (NotInstalled, _) => NotInstalled
    case (_, NotInstalled) => NotInstalled
    case (IncorrectVersion(_, _), _) => self
    case (_, IncorrectVersion(_, _)) => other
    case (ConfigUnsatisfied(e0), ConfigUnsatisfied(e1)) => ConfigUnsatisfied(e0 + "\n" + e1)
    case (ConfigUnsatisfied(_), _) => self
    case (_, ConfigUnsatisfied(_)) => other
    case (NotRunning, _) => NotRunning
    case (_, NotRunning) => NotRunning
    case (HealthChecksFailed(f0), HealthChecksFailed(f1)) => HealthChecksFailed(f0 + f1)
    case (HealthChecksFailed(_), _) => self
    case (_, HealthChecksFailed(_)) => other
    case (Transitive, _) => Transitive
  }

  /** Position on the priority ladder. Rank 0 is reserved for "no error". */
  function Rank(e: DependencyError): nat {
    match e
    case NotInstalled => 6
    case IncorrectVersion(_, _) => 5
    case ConfigUnsatisfied(_) => 4
    case NotRunning => 3
    case HealthChecksFailed(_) => 2
    case Transitive => 1
  }

  /** The sixteen-arm comparison is the comparison of ranks, so it is a total preorder. */
  lemma CmpPriorityComparesRanks(a: DependencyError, b: DependencyError)
    ensures CmpPriority(a, b) == Greater <==> Rank(a) > Rank(b)
    ensures CmpPriority(a, b) == Equal <==> Rank(a) == Rank(b)
    ensures CmpPriority(a, b) == Less <==> Rank(a) < Rank(b)
  {
  }

  /** Merging is a monoid: associative, with Transitive as identity on both sides. */
  lemma MergeIsMonoid(a: DependencyError, b: DependencyError, c: DependencyError)
    ensures MergeWith(MergeWith(a, b), c) == MergeWith(a, MergeWith(b, c))
    ensures MergeWith(a, Transitive) == a && MergeWith(Transitive, a) == a
  {
    match (a, b, c) {
      case (ConfigUnsatisfied(x), ConfigUnsatisfied(y), ConfigUnsatisfied(z)) =>
        assert (x + "\n" + y) + "\n" + z == x + "\n" + (y + "\n" + z);
      case (HealthChecksFailed(x), HealthChecksFailed(y), HealthChecksFailed(z)) =>
        assert (x + y) + z == x + (y + z);
      case _ =>
    }
  }

  /**
   * What a merge keeps: between different kinds the one of higher rank as it is. Of two failed
   * health checks all results, the newer one where both have one; of two config errors the older
   * text, a newline and the newer text; otherwise the older error.
   */
  lemma MergeKeeps(older: DependencyError, newer: DependencyError)
    ensures Rank(older) > Rank(newer) ==> MergeWith(older, newer) == older
    ensures Rank(older) < Rank(newer) ==> MergeWith(older, newer) == newer
    ensures Rank(older) == Rank(newer) && !older.ConfigUnsatisfied? && !older.HealthChecksFailed? ==> MergeWith(older, newer) == older
    ensures older.ConfigUnsatisfied? && newer.ConfigUnsatisfied? ==>
              var m := MergeWith(older, newer);
              && m.ConfigUnsatisfied? && |m.error| == |older.error| + 1 + |newer.error| && m.error[|older.error|] == '\n'
              && m.error[..|older.error|] == older.error && m.error[|older.error| + 1..] == newer.error
    ensures older.HealthChecksFailed? && newer.HealthChecksFailed? ==>
              var m := MergeWith(older, newer);
              && m.HealthChecksFailed?
              && (forall c :: c in m.failures <==> c in older.failures || c in newer.failures)
              && (forall c :: c in m.failures ==> m.failures[c] == if c in newer.failures then newer.failures[c] else older.failures[c])
  {
  }

  /** Rank is a homomorphism from merging to maximum: a merge never loses priority. */
  lemma MergeRankIsMax(a: DependencyError, b: DependencyError)
    ensures Rank(MergeWith(a, b)) == if Rank(a) >= Rank(b) then Rank(a) else Rank(b)
  {
  }
}
