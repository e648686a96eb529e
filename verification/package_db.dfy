/**
 * The installed packages of the database, with the procedures that push dependency
 * errors along the dependents graph and take them back, and the user commands that
 * drive them. Loops pick the next dependent arbitrarily, so every contract holds for
 * every order of iteration.
 */
module PackageDatabase {
  import opened Common
  import opened DependencyErrors
  import opened ErrorGraph
  import opened PackageInfo
  import opened TryHealing
  import opened BreakSpec
  import opened BreakSteps
  import opened HealSpec
  import opened RoundTrip
  import opened Ladder

  datatype TaggedDependencyError = TaggedDependencyError(dependency: PackageId, error: DependencyError)

  type Breakages = map<PackageId, TaggedDependencyError>

  /**
   * The packages reported are those reported before and those hit harder since; a new
   * report names an entry that rose, and an error that this entry has come to outrank.
   */
  ghost predicate Reports(before: Breakages, after: Breakages, e: Errors, f: Errors) {
    && (forall d :: d in after <==> d in before || Rose(e, f, d))
    && (forall d :: d in after ==>
          || (d in before && after[d] == before[d])
          || RankAt(e, d, after[d].dependency) < Rank(after[d].error) <= RankAt(f, d, after[d].dependency))
  }

  lemma ReportsCompose(b: Breakages, c: Breakages, d: Breakages, e: Errors, f: Errors, h: Errors)
    requires RanksGrow(e, f) && RanksGrow(f, h)
    requires Reports(b, c, e, f) && Reports(c, d, f, h)
    ensures RanksGrow(e, h) && Reports(b, d, e, h)
  {
  }

  /** The dependents `done` of `id` are broken, and the report says which packages that hit. */
  ghost predicate BrokenAndReported(g: Dependents, e: Errors, f: Errors, id: PackageId, error: DependencyError,
                                    done: set<PackageId>, before: Breakages, after: Breakages) {
    SomeBroken(g, e, f, id, error, done) && Reports(before, after, e, f)
  }

  ghost predicate OneBrokenAndReported(g: Dependents, e: Errors, f: Errors, d: PackageId, y: PackageId, error: DependencyError,
                                       before: Breakages, after: Breakages) {
    OneBroken(g, e, f, d, y, error) && Reports(before, after, e, f)
  }

  lemma NothingYet(g: Dependents, e: Errors, id: PackageId, error: DependencyError, reported: Breakages)
    ensures BrokenAndReported(g, e, e, id, error, {}, reported, reported)
  {
  }

  lemma MissingAfter(g: Dependents, e: Errors, f: Errors, id: PackageId, error: DependencyError, done: set<PackageId>)
    requires SomeBroken(g, e, f, id, error, done)
    ensures |MissingEdges(g, f)| <= |MissingEdges(g, e)|
  {
    SomeBrokenGrows(g, e, f, id, error, done);
    MissingShrinks(g, e, f);
  }

  lemma ReportOneMore(g: Dependents, e: Errors, f: Errors, h: Errors, id: PackageId, error: DependencyError, done: set<PackageId>,
                      d: PackageId, before: Breakages, between: Breakages, after: Breakages)
    requires BrokenAndReported(g, e, f, id, error, done, before, between)
    requires Edge(g, id, d) && d !in done
    requires OneBrokenAndReported(g, f, h, d, id, error, between, after)
    ensures BrokenAndReported(g, e, h, id, error, done + {d}, before, after)
  {
    BreakOneMore(g, e, f, h, id, error, done, d);
    SomeBrokenGrows(g, e, f, id, error, done);
    OneBrokenGrows(g, f, h, d, id, error);
    ReportsCompose(before, between, after, e, f, h);
  }

  lemma ReportThrough(g: Dependents, e: Errors, f: Errors, h: Errors, d: PackageId, y: PackageId, error: DependencyError,
                      before: Breakages, between: Breakages, after: Breakages)
    requires d in e && IsNews(e, d, y, error)
    requires f == Put(e, d, y, Merged(e, d, y, error)) && between == before[d := TaggedDependencyError(y, error)]
    requires BrokenAndReported(g, f, h, d, Transitive, DependentsOf(g, d), between, after)
    ensures OneBrokenAndReported(g, e, h, d, y, error, before, after)
  {
    BreakThrough(g, e, f, h, d, y, error);
    RecordedReport(before, e, f, d, y, error);
    SomeBrokenGrows(g, f, h, d, Transitive, DependentsOf(g, d));
    ReportsCompose(before, between, after, e, f, h);
  }

  class PackageDb {
    const env: Env
    var packages: Packages
    var dependents: Dependents
    var errors: Errors

    /** The three tables are columns of the same installed entries. */
    ghost predicate Valid()
      reads this
    {
      packages.Keys == dependents.Keys == errors.Keys
    }

    ghost function World(): World
      reads this
    {
      HealSpec.World(env, packages)
    }

    constructor (env: Env, packages: Packages, dependents: Dependents, errors: Errors)
      requires packages.Keys == dependents.Keys == errors.Keys
      ensures Valid()
      ensures this.env == env && this.packages == packages && this.dependents == dependents && this.errors == errors
    {
      this.env := env;
      this.packages := packages;
      this.dependents := dependents;
      this.errors := errors;
    }

    method BreakAllDependents(id: PackageId, error: DependencyError, reported: Breakages)
      returns (r: Result<()>, breakages: Breakages)
      requires Valid()
      modifies this`errors
      ensures Valid()
      ensures r.Err? <==> ReachesMissing(dependents, old(errors), id, error)
      ensures r.Ok? ==> BrokenAndReported(dependents, old(errors), errors, id, error, DependentsOf(dependents, id), reported, breakages)
      decreases if error == Transitive then 0 else 1, |MissingEdges(dependents, errors)|, 1
    {
      ghost var e := errors;
      breakages := reported;
      var todo := DependentsOf(dependents, id);
      ghost var done := {};
      NothingYet(dependents, e, id, error, reported);
      while todo != {}
        invariant Valid() && done + todo == DependentsOf(dependents, id) && done !! todo
        invariant BrokenAndReported(dependents, e, errors, id, error, done, reported, breakages)
        decreases todo
      {
        var d :| d in todo;
        ghost var f, before := errors, breakages;
        MissingAfter(dependents, e, f, id, error, done);
        r, breakages := BreakTransitive(d, id, error, breakages);
        if r.Err? {
          MissingFromDependent(dependents, e, f, id, error, done, d);
          return;
        }
        ReportOneMore(dependents, e, f, errors, id, error, done, d, reported, before, breakages);
        todo, done := todo - {d}, done + {d};
      }
      assert done == DependentsOf(dependents, id);
      AllBroken(dependents, e, errors, id, error);
      r := Ok(());
    }

    method BreakTransitive(id: PackageId, dependency: PackageId, error: DependencyError, reported: Breakages)
      returns (r: Result<()>, breakages: Breakages)
      requires Valid()
      modifies this`errors
      ensures Valid()
      ensures r.Err? <==> OneReachesMissing(dependents, old(errors), id, dependency, error)
      ensures r.Ok? ==> OneBrokenAndReported(dependents, old(errors), errors, id, dependency, error, reported, breakages)
      decreases if error == Transitive && Edge(dependents, dependency, id) then 0 else 1, |MissingEdges(dependents, errors)|, 0
    {
      ghost var e := errors;
      breakages := reported;
      if id !in errors {
        return Err(NotFound(id)), breakages;
      }
      var old' := Lookup(errors, id, dependency);
      var newlyBroken := old'.Some? ==> CmpPriority(error, old'.value) == Greater;
      var merged := if old'.Some? then MergeWith(old'.value, error) else error;
      errors := Put(errors, id, dependency, merged);
      ghost var f := errors;
      RecordedReport(reported, e, f, id, dependency, error);
      if newlyBroken {
        breakages := breakages[id := TaggedDependencyError(dependency, error)];
        ghost var before := breakages;
        MissingShrinks(dependents, e, f);
        r, breakages := BreakAllDependents(id, Transitive, breakages);
        if r.Ok? {
          ReportThrough(dependents, e, f, errors, id, dependency, error, reported, before, breakages);
          NothingMissing(dependents, e, errors, id, dependency, error);
        } else {
          MissingThrough(dependents, e, f, id, dependency, error);
        }
      } else {
        r := Ok(());
      }
    }

    method HealAllDependents(id: PackageId) returns (r: Result<()>)
      requires Valid()
      modifies this`errors
      ensures Valid() && Within(old(errors), errors) && AboveFloors(World(), dependents, old(errors), errors, id, DependentsOf(dependents, id))
      ensures r.Err? <==> id !in dependents || MetUnhealable(World(), dependents, old(errors), errors, id, DependentsOf(dependents, id))
      ensures r.Ok? ==> Healed(World(), dependents, old(errors), errors, id, DependentsOf(dependents, id))
      decreases |Entries(errors)|, 1
    {
      ghost var e := errors;
      ghost var w := World();
      if id !in dependents {
        return Err(NotFound(id));
      }
      var todo := DependentsOf(dependents, id);
      ghost var all, done := todo, {};
      while todo != {}
        invariant Valid() && World() == w && done + todo == all && done !! todo
        invariant HealedSoFar(w, dependents, e, errors, id, done, all)
        decreases todo
      {
        var d :| d in todo;
        ghost var f := errors;
        EntriesShrink(e, f);
        r := HealTransitive(d, id);
        if r.Err? {
          MetEarlier(w, dependents, e, f, errors, id, done, all, d);
          return;
        }
        HealedOneMore(w, dependents, e, f, errors, id, done, all, d);
        todo, done := todo - {d}, done + {d};
      }
      assert done == all;
      r := Ok(());
    }

    method HealTransitive(id: PackageId, dependency: PackageId) returns (r: Result<()>)
      requires Valid()
      modifies this`errors
      ensures Valid() && Within(old(errors), errors) && AboveFloors(World(), dependents, old(errors), errors, dependency, {id})
      ensures r.Err? <==> MetUnhealable(World(), dependents, old(errors), errors, dependency, {id})
      ensures r.Ok? ==> Healed(World(), dependents, old(errors), errors, dependency, {id})
      decreases |Entries(errors)|, 0
    {
      ghost var e := errors;
      ghost var w := World();
      if id !in errors {
        assert LookedAt(dependents, e, e, dependency, {id}, id, dependency);
        return Err(NotFound(id));
      }
      if !Has(errors, id, dependency) {
        return Ok(());
      }
      match Reheal(HealSpec.World(env, packages), errors, id, dependency, errors[id][dependency]) {
        case Err(err) =>
          assert LookedAt(dependents, e, e, dependency, {id}, id, dependency);
          r := Err(err);
        case Ok(Some(new')) =>
          errors := Put(errors, id, dependency, new');
          HealedStays(w, dependents, e, errors, id, dependency, new');
          r := Ok(());
        case Ok(None) =>
          errors := Drop(errors, id, dependency);
          ghost var f := errors;
          DroppedWithin(e, f, id, dependency);
          EntriesShrink(e, f);
          r := HealAllDependents(id);
          if r.Ok? {
            HealedGoes(w, dependents, e, f, errors, id, dependency);
          } else {
            MetThrough(w, dependents, e, f, errors, id, dependency);
          }
      }
    }

    /** The errors of a package about to be installed: each dependency it relies on is examined from the top rung. */
    method InitErrors(id: PackageId, requirements: map<PackageId, DepInfo>, dependencies: set<PackageId>)
      returns (r: Result<map<PackageId, DependencyError>>)
      ensures r.Err? <==> exists y :: y in dependencies * requirements.Keys && Examined(World(), errors, id, y, requirements[y]).Err?
      ensures r.Ok? ==> Initial(World(), errors, id, requirements, dependencies, r.value)
    {
      var res: map<PackageId, DependencyError> := map[];
      var todo := dependencies * requirements.Keys;
      while todo != {}
        invariant todo <= dependencies * requirements.Keys
        invariant Initial(World(), errors, id, requirements, dependencies - todo, res)
        decreases todo
      {
        var y :| y in todo;
        var u := TryHeal(env, packages, errors, NotInstalled, id, y, None, requirements[y]);
        match u {
          case Err(err) =>
            assert Examined(World(), errors, id, y, requirements[y]).Err?;
            return Err(err);
          case Ok(Some(v)) => res := res[y := v];
          case Ok(None) =>
        }
        todo := todo - {y};
      }
      assert dependencies - todo == dependencies;
      r := Ok(res);
    }

    // ----- the user commands

    /** Marks the service as stopping and breaks its dependents; what it wrote stays even if it fails. */
    method StopCommon(id: PackageId, reported: Breakages) returns (r: Result<MainStatus>, breakages: Breakages)
      requires Valid()
      modifies this`errors, this`packages
      ensures Valid()
      ensures r.Err? <==> id !in old(packages) || ReachesMissing(dependents, old(errors), id, NotRunning)
      ensures r.Ok? ==> r.value == old(packages)[id].main && packages == old(packages)[id := old(packages)[id].(main := Stopping)]
      ensures r.Ok? ==> BrokenAndReported(dependents, old(errors), errors, id, NotRunning, DependentsOf(dependents, id), reported, breakages)
    {
      if id !in packages {
        return Err(NotFound(id)), reported;
      }
      var last := packages[id].main;
      packages := packages[id := packages[id].(main := Stopping)];
      var done;
      done, breakages := BreakAllDependents(id, NotRunning, reported);
      r := if done.Ok? then Ok(last) else Err(done.error);
    }

    /** Stop as one transaction: a failure leaves the database as it was. */
    method Stop(id: PackageId) returns (r: Result<MainStatus>)
      requires Valid()
      modifies this`errors, this`packages
      ensures Valid()
      ensures r.Err? <==> id !in old(packages) || ReachesMissing(dependents, old(errors), id, NotRunning)
      ensures r.Err? ==> packages == old(packages) && errors == old(errors)
      ensures r.Ok? ==> r.value == old(packages)[id].main && StoppedFrom(old(World()), World(), dependents, old(errors), errors, id)
    {
      var savedPackages, savedErrors := packages, errors;
      var breakages;
      r, breakages := StopCommon(id, map[]);
      if r.Err? {
        packages, errors := savedPackages, savedErrors;
      }
    }

    /**
     * The dry run of a stop: changes nothing, and lists exactly the packages that a
     * stop would newly break, directly or through the packages it breaks.
     */
    method StopDry(id: PackageId) returns (r: Result<Breakages>)
      requires Valid()
      modifies this`errors, this`packages
      ensures Valid() && packages == old(packages) && errors == old(errors)
      ensures r.Err? <==> id !in old(packages) || ReachesMissing(dependents, old(errors), id, NotRunning)
      ensures r.Ok? ==> forall d :: d in r.value <==> NewlyBroken(dependents, errors, id, NotRunning, d)
    {
      var savedPackages, savedErrors := packages, errors;
      var last, breakages := StopCommon(id, map[]);
      if last.Ok? {
        forall d
          ensures Rose(savedErrors, errors, d) <==> NewlyBroken(dependents, savedErrors, id, NotRunning, d)
        {
          HitIsNewlyBroken(dependents, savedErrors, errors, id, NotRunning, d);
        }
      }
      packages, errors := savedPackages, savedErrors;
      r := if last.Ok? then Ok(breakages) else Err(last.error);
    }

    /** Start as one transaction: marks the service as starting and heals its dependents. */
    method Start(id: PackageId) returns (r: Result<()>)
      requires Valid()
      modifies this`errors, this`packages
      ensures Valid()
      ensures r.Err? ==> packages == old(packages) && errors == old(errors)
      ensures r.Err? <==> || id !in old(packages)
                          || Blocked(WithStatus(old(World()), id, MainStatus.Starting(false)), dependents, old(errors), id)
      ensures r.Ok? ==> StartedFrom(old(World()), World(), dependents, old(errors), errors, id)
    {
      if id !in packages {
        return Err(NotFound(id));
      }
      var savedPackages, savedErrors := packages, errors;
      packages := packages[id := packages[id].(main := MainStatus.Starting(false))];
      r := HealAllDependents(id);
      FailureIsForced(World(), dependents, savedErrors, errors, id);
      if r.Err? {
        packages, errors := savedPackages, savedErrors;
      }
    }

    /** Restart only marks a running service; no error table is touched. */
    method Restart(id: PackageId) returns (r: Result<()>)
      requires Valid()
      modifies this`packages
      ensures Valid()
      ensures r.Ok? <==> id in old(packages) && old(packages)[id].main.Running?
      ensures packages == if r.Ok? then old(packages)[id := old(packages)[id].(main := Restarting)] else old(packages)
    {
      if id !in packages || !packages[id].main.Running? {
        return Err(Fault("not running"));
      }
      packages := packages[id := packages[id].(main := Restarting)];
      r := Ok(());
    }

    /**
     * The two commands in sequence, on any graph: both succeed, every entry is determined by the table
     * before, and the table is back as it was unless the service led to a cycle with no error on it.
     */
    method StopThenStart(id: PackageId) returns (r: Result<()>)
      requires Valid() && id in packages
      requires Covered(World(), dependents) && Calm(World(), dependents, errors, id)
      modifies this`errors, this`packages
      ensures Valid() && r.Ok?
      ensures forall a, b :: Lookup(errors, a, b) == EntryAfter(dependents, old(errors), id, a, b)
      ensures errors == old(errors) <==> !Tangled(dependents, old(errors), id)
      ensures packages == old(packages)[id := old(packages)[id].(main := MainStatus.Starting(false))]
    {
      ghost var v, e := World(), errors;
      StopCannotFail(v, dependents, e, id);
      var stopped := Stop(id);
      ghost var u, f := World(), errors;
      StartNeverFails(v, u, dependents, e, f, id);
      r := Start(id);
      StartRestores(v, u, World(), dependents, e, f, errors, id);
    }
  }

  ghost function WithStatus(w: HealSpec.World, id: PackageId, main: MainStatus): HealSpec.World {
    w.(packages := if id in w.packages then w.packages[id := w.packages[id].(main := main)] else w.packages)
  }

  /** What a successful stop does to the statuses and the error table. */
  ghost predicate StoppedFrom(v: HealSpec.World, w: HealSpec.World, g: Dependents, e: Errors, f: Errors, id: PackageId) {
    && id in v.packages && w == WithStatus(v, id, Stopping)
    && SomeBroken(g, e, f, id, NotRunning, DependentsOf(g, id))
  }

  /** What a successful start does to the statuses and the error table. */
  ghost predicate StartedFrom(v: HealSpec.World, w: HealSpec.World, g: Dependents, e: Errors, f: Errors, id: PackageId) {
    && id in v.packages && w == WithStatus(v, id, MainStatus.Starting(false))
    && FullyHealed(w, g, e, f, id, DependentsOf(g, id))
  }

  lemma StopCannotFail(v: HealSpec.World, g: Dependents, e: Errors, id: PackageId)
    requires Covered(v, g) && e.Keys == v.packages.Keys
    ensures !ReachesMissing(g, e, id, NotRunning)
  {
  }

  lemma StartNeverFails(v: HealSpec.World, u: HealSpec.World, g: Dependents, e: Errors, f: Errors, id: PackageId)
    requires Calm(v, g, e, id) && Covered(v, g) && e.Keys == v.packages.Keys
    requires StoppedFrom(v, u, g, e, f, id)
    ensures !Blocked(WithStatus(u, id, MainStatus.Starting(false)), g, f, id)
  {
    var w := WithStatus(u, id, MainStatus.Starting(false));
    forall a, b | Edge(g, b, a)
      ensures !Unhealable(w, f, a, b)
    {
      StartCannotFail(v, w, g, e, f, id, a, b);
    }
    if Blocked(w, g, f, id) {
      BlockedCannotHeal(w, g, f, id);
    }
  }

  /** The two commands in sequence restore every error table, or leave a trace, as the table before decides. */
  lemma StartRestores(v: HealSpec.World, u: HealSpec.World, w: HealSpec.World, g: Dependents, e: Errors, f: Errors, h: Errors, id: PackageId)
    requires Calm(v, g, e, id)
    requires StoppedFrom(v, u, g, e, f, id) && StartedFrom(u, w, g, f, h, id)
    ensures forall a, b :: Lookup(h, a, b) == EntryAfter(g, e, id, a, b)
    ensures h == e <==> !Tangled(g, e, id)
    ensures w == WithStatus(v, id, MainStatus.Starting(false))
  {
    StartAfterStop(v, w, g, e, f, h, id);
    RestoredUnlessTangled(g, e, h, id);
  }

  ghost function Examined(w: HealSpec.World, e: Errors, id: PackageId, y: PackageId, info: DepInfo): Result<Option<DependencyError>> {
    TryHeal(w.env, w.packages, e, NotInstalled, id, y, None, info)
  }

  /** The map holds what the ladder finds of each dependency the manifest knows, and nothing else. */
  ghost predicate Initial(w: HealSpec.World, e: Errors, id: PackageId, requirements: map<PackageId, DepInfo>,
                          dependencies: set<PackageId>, m: map<PackageId, DependencyError>) {
    && m.Keys <= dependencies * requirements.Keys
    && forall y :: y in dependencies * requirements.Keys ==>
         Examined(w, e, id, y, requirements[y]) == Ok(if y in m then Some(m[y]) else None)
  }

  /** The errors a package starts out with are settled: re-examining any of them at once changes nothing. */
  lemma InitialIsSettled(w: HealSpec.World, e: Errors, id: PackageId, dependencies: set<PackageId>,
                         m: map<PackageId, DependencyError>, y: PackageId)
    requires id in w.packages && y != id
    requires Initial(w, e, id, w.packages[id].requirements, dependencies, m)
    ensures Settled(w, e[id := m], id, y)
  {
    if y in m {
      var info, f := w.packages[id].requirements[y], e[id := m];
      TableMattersLast(w.env, w.packages, e, f, NotInstalled, id, y, None, info);
      HealAbsorbs(w.env, w.packages, e, f, NotInstalled, id, y, None, info, m[y]);
    }
  }

  /** They are what the world says: the fault of the highest rung that does not pass, and none where all pass. */
  lemma InitialIsDiagnosis(w: HealSpec.World, e: Errors, id: PackageId, requirements: map<PackageId, DepInfo>,
                           dependencies: set<PackageId>, m: map<PackageId, DependencyError>, y: PackageId)
    requires Initial(w, e, id, requirements, dependencies, m) && y in dependencies && y in requirements
    ensures Diagnoses(Exam(w.env, w.packages, e, id, y, None, requirements[y]), requirements[y].version, Rank(NotInstalled),
                      Ok(if y in m then Some(m[y]) else None))
  {
    LadderDiagnoses(Exam(w.env, w.packages, e, id, y, None, requirements[y]), NotInstalled);
    assert Examined(w, e, id, y, requirements[y]) == Ok(if y in m then Some(m[y]) else None);
  }

  /** The packages hit harder by a break are the newly broken ones. */
  lemma HitIsNewlyBroken(g: Dependents, e: Errors, f: Errors, id: PackageId, error: DependencyError, d: PackageId)
    requires SomeBroken(g, e, f, id, error, DependentsOf(g, id))
    ensures Rose(e, f, d) <==> NewlyBroken(g, e, id, error, d)
  {
    if NewlyBroken(g, e, id, error, d) {
      NewlyBrokenRises(g, e, f, id, error, d);
    }
    if Rose(e, f, d) {
      RiserIsNewlyBroken(g, e, f, id, error, d);
    }
  }

  lemma RiserIsNewlyBroken(g: Dependents, e: Errors, f: Errors, id: PackageId, error: DependencyError, d: PackageId)
    requires SomeBroken(g, e, f, id, error, DependentsOf(g, id)) && Rose(e, f, d)
    ensures NewlyBroken(g, e, id, error, d)
  {
    var y :| RankAt(e, d, y) < RankAt(f, d, y);
    BareReachRefl(g, e, d);
    if y == id && Edge(g, id, d) {
      assert Lookup(f, d, id) == Some(Merged(e, d, id, error));
      if Has(e, d, id) {
        MergeRankIsMax(e[d][id], error);
        CmpPriorityComparesRanks(error, e[d][id]);
      }
      assert IsNews(e, d, id, error);
    } else {
      assert !Has(e, d, y);
      var c :| Edge(g, id, c) && IsNews(e, c, id, error) && BareReach(g, e, c, y);
      BareReachStep(g, e, y, d, d);
      BareReachTrans(g, e, c, y, d);
    }
  }

  lemma NewlyBrokenRises(g: Dependents, e: Errors, f: Errors, id: PackageId, error: DependencyError, d: PackageId)
    requires SomeBroken(g, e, f, id, error, DependentsOf(g, id)) && NewlyBroken(g, e, id, error, d)
    ensures Rose(e, f, d)
  {
    var c :| Edge(g, id, c) && IsNews(e, c, id, error) && BareReach(g, e, c, d);
    var p :| BarePath(g, e, p) && p[0] == c && p[|p| - 1] == d;
    if |p| == 1 {
      assert Lookup(f, d, id) == Some(Merged(e, d, id, error));
      if Has(e, d, id) {
        MergeRankIsMax(e[d][id], error);
        CmpPriorityComparesRanks(error, e[d][id]);
      }
      assert RankAt(e, d, id) < RankAt(f, d, id);
    } else {
      var q := p[..|p| - 1];
      var y := q[|q| - 1];
      assert BarePath(g, e, q);
      SaturationSpreads(g, e, f, q);
      assert Edge(g, p[|p| - 2], p[|p| - 2 + 1]);
      assert RankAt(e, d, y) < RankAt(f, d, y);
    }
  }

  lemma RecordedRanks(e: Errors, f: Errors, d: PackageId, y: PackageId, error: DependencyError)
    requires d in e && f == Put(e, d, y, Merged(e, d, y, error))
    ensures RanksGrow(e, f)
    ensures forall a, b :: Has(e, a, b) ==> Has(f, a, b)
    ensures forall a :: Rose(e, f, a) <==> a == d && IsNews(e, d, y, error)
  {
    if Has(e, d, y) {
      MergeRankIsMax(e[d][y], error);
      CmpPriorityComparesRanks(error, e[d][y]);
    }
    forall a, b
      ensures RankAt(e, a, b) <= RankAt(f, a, b)
      ensures RankAt(e, a, b) < RankAt(f, a, b) <==> a == d && b == y && IsNews(e, d, y, error)
      ensures Has(e, a, b) ==> Has(f, a, b)
    {
      assert Lookup(f, a, b) == if a == d && b == y then Some(Merged(e, d, y, error)) else Lookup(e, a, b);
    }
  }

  lemma RecordedReport(reported: Breakages, e: Errors, f: Errors, d: PackageId, y: PackageId, error: DependencyError)
    requires d in e && f == Put(e, d, y, Merged(e, d, y, error))
    ensures RanksGrow(e, f)
    ensures forall a, b :: Has(e, a, b) ==> Has(f, a, b)
    ensures Reports(reported, if IsNews(e, d, y, error) then reported[d := TaggedDependencyError(y, error)] else reported, e, f)
  {
    RecordedRanks(e, f, d, y, error);
    assert RankAt(f, d, y) == Rank(Merged(e, d, y, error));
    if Has(e, d, y) {
      MergeRankIsMax(e[d][y], error);
      CmpPriorityComparesRanks(error, e[d][y]);
    }
  }
}
