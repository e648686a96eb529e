/**
 * `current_dependents` as an index that inverts `current_dependencies`.
 *
 * Self edges are stripped from the dependencies but not from the index, so the
 * correspondence is stated for distinct packages.
 */
module ReverseIndex {
  import opened Common

  datatype Info = Info(pointers: seq<string>, healthChecks: set<string>)

  type Links = map<PackageId, Info>

  const DEFAULT_INFO := Info([], {})

  datatype Record = Record(dependencies: Links, dependents: Links)

  datatype Entry =
    | Installing
    | Restoring
    | Updating(installed: Record)
    | Removing(removing: Record)
    | Installed(installed: Record)

  type Packages = map<PackageId, Entry>

  predicate IsInstalled(ps: Packages, p: PackageId) {
    p in ps && (ps[p].Installed? || ps[p].Updating?)
  }

  function RecordOf(ps: Packages, p: PackageId): Record
    requires IsInstalled(ps, p)
  {
    ps[p].installed
  }

  function SetRecord(ps: Packages, p: PackageId, r: Record): Packages
    requires IsInstalled(ps, p)
  {
    ps[p := ps[p].(installed := r)]
  }

  /** What installed p's list says about dependent q. */
  function Listed(ps: Packages, p: PackageId, q: PackageId): Option<Info> {
    if IsInstalled(ps, p) && q in RecordOf(ps, p).dependents then Some(RecordOf(ps, p).dependents[q]) else None
  }

  /** What installed q records about its dependency p. */
  function Needs(ps: Packages, q: PackageId, p: PackageId): Option<Info> {
    if IsInstalled(ps, q) && p in RecordOf(ps, q).dependencies then Some(RecordOf(ps, q).dependencies[p]) else None
  }

  // ----- the two list updates, as functions of the whole table

  /** `id` struck from the lists of the packages `at`. */
  function StruckAt(ps: Packages, id: PackageId, at: set<PackageId>): (r: Packages)
    ensures r.Keys == ps.Keys
    ensures forall p :: IsInstalled(r, p) <==> IsInstalled(ps, p)
    ensures forall p :: p in ps && !IsInstalled(ps, p) ==> r[p] == ps[p]
    ensures forall p, q :: Listed(r, p, q) == if q == id && p in at then None else Listed(ps, p, q)
    ensures forall p, q :: Needs(r, q, p) == Needs(ps, q, p)
  {
    map p | p in ps ::
      if IsInstalled(ps, p) && p in at
      then ps[p].(installed := ps[p].installed.(dependents := ps[p].installed.dependents - {id}))
      else ps[p]
  }

  function RemovedFrom(ps: Packages, id: PackageId, deps: set<PackageId>): Packages {
    StruckAt(ps, id, deps + {id})
  }

  function AddedTo(ps: Packages, id: PackageId, deps: Links): (r: Packages)
    ensures r.Keys == ps.Keys
    ensures forall p :: IsInstalled(r, p) <==> IsInstalled(ps, p)
    ensures forall p :: p in ps && !IsInstalled(ps, p) ==> r[p] == ps[p]
    ensures forall p, q :: Listed(r, p, q) == if q == id && IsInstalled(ps, p) && p in deps then Some(deps[p]) else Listed(ps, p, q)
    ensures forall p, q :: Needs(r, q, p) == Needs(ps, q, p)
  {
    map p | p in ps ::
      if IsInstalled(ps, p) && p in deps
      then ps[p].(installed := ps[p].installed.(dependents := ps[p].installed.dependents[id := deps[p]]))
      else ps[p]
  }

  /** What installed packages depend on `id`, read off their dependencies. */
  function Inverse(ps: Packages, id: PackageId): Links {
    map q | q in ps && IsInstalled(ps, q) && id in RecordOf(ps, q).dependencies :: RecordOf(ps, q).dependencies[id]
  }

  // ----- the database steps

  function LinkThenRecord(ps: Packages, id: PackageId, links: Links, deps: Links): Packages
    requires IsInstalled(ps, id)
  {
    var linked := AddedTo(ps, id, links);
    SetRecord(linked, id, RecordOf(linked, id).(dependencies := deps))
  }

  function Configured(ps: Packages, id: PackageId, deps: Links): Packages
    requires IsInstalled(ps, id)
  {
    LinkThenRecord(RemovedFrom(ps, id, RecordOf(ps, id).dependencies.Keys), id, deps, deps - {id})
  }

  function ConfiguredAll(ps: Packages, cs: seq<(PackageId, Links)>): (r: Packages)
    ensures r.Keys == ps.Keys
    decreases |cs|
  {
    if cs == [] then ps
    else ConfiguredAll(if IsInstalled(ps, cs[0].0) then Configured(ps, cs[0].0, cs[0].1) else ps, cs[1..])
  }

  function Requirements(required: set<PackageId>): Links {
    map p | p in required :: DEFAULT_INFO
  }

  function FreshlyInstalled(ps: Packages, id: PackageId, required: set<PackageId>): Packages {
    var deps := Requirements(required);
    AddedTo(ps[id := Installed(Record(deps, Inverse(ps, id)))], id, deps)
  }

  /** An update keeps the new requirements, unless the migrated package could be configured at once. */
  function Updated(ps: Packages, id: PackageId, required: set<PackageId>, configured: Option<Links>): Packages
    requires IsInstalled(ps, id)
  {
    var deps := Requirements(required);
    var replaced := ps[id := Installed(Record(deps, Inverse(ps, id)))];
    var cleared := RemovedFrom(replaced, id, RecordOf(ps, id).dependencies.Keys);
    match configured
    case Some(links) => Configured(cleared, id, links)
    case None => AddedTo(cleared, id, deps)
  }

  /** The dependents of a removed package are reconfigured before it leaves the lists of its dependencies. */
  function Uninstalled(ps: Packages, id: PackageId, reconfigured: seq<(PackageId, Links)>): Packages
    requires id in ps && ps[id].Removing?
  {
    RemovedFrom(ConfiguredAll(ps - {id}, reconfigured), id, ps[id].removing.dependencies.Keys)
  }

  /** Every list replaced by the inverse of the dependencies, also in packages being removed. */
  function Rebuilt(ps: Packages): Packages {
    map p | p in ps ::
      if IsInstalled(ps, p) then ps[p].(installed := ps[p].installed.(dependents := Inverse(ps, p)))
      else if ps[p].Removing? then Removing(ps[p].removing.(dependents := Inverse(ps, p)))
      else ps[p]
  }

  datatype Step =
    | BeginInstall(id: PackageId)
    | BeginRestore(id: PackageId)
    | FinishInstall(id: PackageId, required: set<PackageId>, configured: Option<Links>, reconfigured: seq<(PackageId, Links)>)
    | CleanupFailed(id: PackageId)
    | Configure(id: PackageId, deps: Links)
    | MarkRemoving(id: PackageId)
    | Uninstall(id: PackageId, reconfigured: seq<(PackageId, Links)>)
    | Rebuild

  /** One committed transaction; a request in the wrong state is refused and changes nothing. */
  function Apply(ps: Packages, s: Step): Packages {
    match s
    case BeginInstall(id) =>
      if id !in ps then ps[id := Installing]
      else if ps[id].Installed? then ps[id := Updating(ps[id].installed)]
      else ps
    case BeginRestore(id) => if id !in ps then ps[id := Restoring] else ps
    case FinishInstall(id, required, configured, reconfigured) =>
      if id !in ps then ps
      else if ps[id].Updating? then ConfiguredAll(Updated(ps, id, required, configured), reconfigured)
      else if ps[id].Installing? || ps[id].Restoring? then ConfiguredAll(FreshlyInstalled(ps, id, required), reconfigured)
      else ps
    case CleanupFailed(id) =>
      if id !in ps then ps
      else if ps[id].Installing? || ps[id].Restoring? then ps - {id}
      else if ps[id].Updating? then ps[id := Installed(ps[id].installed)]
      else ps
    case Configure(id, deps) => if IsInstalled(ps, id) then Configured(ps, id, deps) else ps
    case MarkRemoving(id) => if id in ps && ps[id].Installed? then ps[id := Removing(ps[id].installed)] else ps
    case Uninstall(id, reconfigured) => if id in ps && ps[id].Removing? then Uninstalled(ps, id, reconfigured) else ps
    case Rebuild => Rebuilt(ps)
  }

  // ----- the invariant

  /** What is on record about q's dependency p, for q installed, being removed, or on its way out. */
  ghost function OnRecord(ps: Packages, out: map<PackageId, Links>, q: PackageId, p: PackageId): Option<Info> {
    if IsInstalled(ps, q) then Needs(ps, q, p)
    else if q in ps && ps[q].Removing? && p in ps[q].removing.dependencies then Some(ps[q].removing.dependencies[p])
    else if q !in ps && q in out && p in out[q] then Some(out[q][p])
    else None
  }

  /** Leaving aside what lists say about `but`: the lists hold only what is on record, and all that installed packages record. */
  ghost predicate IndexedBut(ps: Packages, out: map<PackageId, Links>, but: Option<PackageId>) {
    && (forall p, q :: q != p && Some(q) != but && Listed(ps, p, q).Some? ==> OnRecord(ps, out, q, p) == Listed(ps, p, q))
    && (forall p, q :: q != p && Some(q) != but && IsInstalled(ps, p) && Needs(ps, q, p).Some? ==> Listed(ps, p, q).Some?)
  }

  ghost predicate Indexed(ps: Packages, out: map<PackageId, Links>) {
    IndexedBut(ps, out, None)
  }

  /** No list but its own names `id`. */
  ghost predicate Unlisted(ps: Packages, id: PackageId) {
    forall p :: p != id ==> Listed(ps, p, id) == None
  }

  /** Every list that names `id`, its own aside, belongs to one of `deps`. */
  ghost predicate ListedWithin(ps: Packages, id: PackageId, deps: set<PackageId>) {
    forall p :: p != id && Listed(ps, p, id).Some? ==> p in deps
  }

  /** Clearing `id` from the lists of all its recorded dependencies clears it everywhere. */
  lemma ClearingUnlists(ps: Packages, out: map<PackageId, Links>, id: PackageId, deps: set<PackageId>)
    requires IndexedBut(ps, out, Some(id)) && ListedWithin(ps, id, deps)
    ensures var r := RemovedFrom(ps, id, deps);
            IndexedBut(r, out, Some(id)) && Unlisted(r, id)
  {
  }

  /** Linking an unlisted package to its dependencies completes the index. */
  lemma LinkingIndexes(ps: Packages, out: map<PackageId, Links>, id: PackageId, deps: Links)
    requires IsInstalled(ps, id) && IndexedBut(ps, out, Some(id)) && Unlisted(ps, id)
    requires RecordOf(ps, id).dependencies == deps || RecordOf(ps, id).dependencies == deps - {id}
    ensures Indexed(AddedTo(ps, id, deps), out)
  {
  }

  /** Rewriting the dependencies of one package touches no list and no other package's dependencies. */
  lemma RecordingDependencies(ps: Packages, out: map<PackageId, Links>, id: PackageId, deps: Links)
    requires IsInstalled(ps, id)
    ensures var r := SetRecord(ps, id, RecordOf(ps, id).(dependencies := deps));
            && (forall p :: IsInstalled(r, p) <==> IsInstalled(ps, p))
            && (forall p, q :: Listed(r, p, q) == Listed(ps, p, q))
            && (forall p, q :: q != id ==> OnRecord(r, out, q, p) == OnRecord(ps, out, q, p))
            && (forall p, q :: q != id ==> Needs(r, q, p) == Needs(ps, q, p))
  {
  }

  /** Linking first and then recording the dependencies, as the code does, or the other way round. */
  lemma LinkAndRecordCommute(ps: Packages, id: PackageId, links: Links, deps: Links)
    requires IsInstalled(ps, id)
    ensures AddedTo(SetRecord(ps, id, RecordOf(ps, id).(dependencies := deps)), id, links) == LinkThenRecord(ps, id, links, deps)
  {
    var x := AddedTo(SetRecord(ps, id, RecordOf(ps, id).(dependencies := deps)), id, links);
    var y := LinkThenRecord(ps, id, links, deps);
    forall p | p in ps
      ensures x[p] == y[p]
    {
    }
    assert x.Keys == y.Keys;
  }

  lemma ConfigureKeepsIndex(ps: Packages, out: map<PackageId, Links>, id: PackageId, deps: Links)
    requires IsInstalled(ps, id) && IndexedBut(ps, out, Some(id)) && ListedWithin(ps, id, RecordOf(ps, id).dependencies.Keys)
    ensures Indexed(Configured(ps, id, deps), out)
  {
    var old' := RecordOf(ps, id).dependencies.Keys;
    ClearingUnlists(ps, out, id, old');
    RecordThenLink(RemovedFrom(ps, id, old'), out, id, deps);
    LinkAndRecordCommute(RemovedFrom(ps, id, old'), id, deps, deps - {id});
  }

  lemma RecordThenLink(ps: Packages, out: map<PackageId, Links>, id: PackageId, deps: Links)
    requires IsInstalled(ps, id) && IndexedBut(ps, out, Some(id)) && Unlisted(ps, id)
    ensures Indexed(AddedTo(SetRecord(ps, id, RecordOf(ps, id).(dependencies := deps - {id})), id, deps), out)
  {
    RecordingDependencies(ps, out, id, deps - {id});
    LinkingIndexes(SetRecord(ps, id, RecordOf(ps, id).(dependencies := deps - {id})), out, id, deps);
  }

  lemma IndexedGivesLists(ps: Packages, out: map<PackageId, Links>, id: PackageId)
    requires Indexed(ps, out)
    ensures IndexedBut(ps, out, Some(id))
    ensures IsInstalled(ps, id) ==> ListedWithin(ps, id, RecordOf(ps, id).dependencies.Keys)
  {
  }

  lemma {:induction false} ConfigureAllKeepsIndex(ps: Packages, out: map<PackageId, Links>, cs: seq<(PackageId, Links)>)
    requires Indexed(ps, out)
    ensures Indexed(ConfiguredAll(ps, cs), out)
    decreases |cs|
  {
    if cs != [] {
      var (id, deps) := cs[0];
      if IsInstalled(ps, id) {
        IndexedGivesLists(ps, out, id);
        ConfigureKeepsIndex(ps, out, id, deps);
        ConfigureAllKeepsIndex(Configured(ps, id, deps), out, cs[1..]);
      } else {
        ConfigureAllKeepsIndex(ps, out, cs[1..]);
      }
    }
  }

  /** A new entry whose list is read off the dependencies of the others fits in, but for what lists say about it. */
  lemma InstallFits(ps: Packages, id: PackageId, deps: Links)
    requires Indexed(ps, map[]) && id in ps && !ps[id].Removing?
    ensures var r := ps[id := Installed(Record(deps, Inverse(ps, id)))];
            IndexedBut(r, map[], Some(id)) && forall p :: p != id ==> Listed(r, p, id) == Listed(ps, p, id)
  {
    var r := ps[id := Installed(Record(deps, Inverse(ps, id)))];
    assert forall p :: p != id ==> (IsInstalled(r, p) <==> IsInstalled(ps, p));
    assert forall p, q :: q != id ==> OnRecord(r, map[], q, p) == OnRecord(ps, map[], q, p);
    assert forall p, q :: q != id ==> Needs(r, q, p) == Needs(ps, q, p);
    assert forall p, q :: p != id ==> Listed(r, p, q) == Listed(ps, p, q);
    assert forall q :: Listed(r, id, q) == Needs(ps, q, id);
  }

  lemma FreshInstallKeepsIndex(ps: Packages, id: PackageId, required: set<PackageId>)
    requires Indexed(ps, map[]) && id in ps && (ps[id].Installing? || ps[id].Restoring?)
    ensures Indexed(FreshlyInstalled(ps, id, required), map[])
  {
    var deps := Requirements(required);
    var r := ps[id := Installed(Record(deps, Inverse(ps, id)))];
    InstallFits(ps, id, deps);
    assert forall p :: OnRecord(ps, map[], id, p) == None;
    assert Unlisted(r, id);
    LinkingIndexes(r, map[], id, deps);
  }

  lemma UpdateKeepsIndex(ps: Packages, id: PackageId, required: set<PackageId>, configured: Option<Links>)
    requires Indexed(ps, map[]) && IsInstalled(ps, id)
    ensures Indexed(Updated(ps, id, required, configured), map[])
  {
    var deps := Requirements(required);
    var r := ps[id := Installed(Record(deps, Inverse(ps, id)))];
    InstallFits(ps, id, deps);
    var prev := RecordOf(ps, id).dependencies.Keys;
    IndexedGivesLists(ps, map[], id);
    ClearingUnlists(r, map[], id, prev);
    var c := RemovedFrom(r, id, prev);
    assert RecordOf(c, id).dependencies == deps;
    match configured
    case Some(links) => ConfigureKeepsIndex(c, map[], id, links);
    case None => LinkingIndexes(c, map[], id, deps);
  }

  lemma UninstallKeepsIndex(ps: Packages, id: PackageId, cs: seq<(PackageId, Links)>)
    requires Indexed(ps, map[]) && id in ps && ps[id].Removing?
    ensures Indexed(Uninstalled(ps, id, cs), map[])
  {
    var deps := ps[id].removing.dependencies;
    var out := map[id := deps];
    var without := ps - {id};
    assert forall p :: IsInstalled(without, p) <==> IsInstalled(ps, p);
    assert forall p, q :: Listed(without, p, q) == Listed(ps, p, q);
    assert forall p, q :: OnRecord(without, out, q, p) == OnRecord(ps, map[], q, p);
    assert forall p, q :: Needs(without, q, p) == Needs(ps, q, p);
    ConfigureAllKeepsIndex(without, out, cs);
    var c := ConfiguredAll(without, cs);
    assert ListedWithin(c, id, deps.Keys) by {
      forall p | p != id && Listed(c, p, id).Some?
        ensures p in deps.Keys
      {
        assert OnRecord(c, out, id, p) == Listed(c, p, id);
      }
    }
    IndexedGivesLists(c, out, id);
    ClearingUnlists(c, out, id, deps.Keys);
    var r := RemovedFrom(c, id, deps.Keys);
    assert forall p, q :: q != id ==> OnRecord(r, map[], q, p) == OnRecord(r, out, q, p);
    assert forall p :: Needs(r, id, p) == None;
  }

  /** The rebuild restores the index from any state. */
  lemma RebuildIndexes(ps: Packages)
    ensures Indexed(Rebuilt(ps), map[])
    ensures forall p, q :: IsInstalled(ps, p) ==> Listed(Rebuilt(ps), p, q) == Needs(ps, q, p)
  {
  }

  lemma StatusChangeKeepsIndex(ps: Packages, id: PackageId, e: Entry)
    requires Indexed(ps, map[])
    requires id !in ps ==> e.Installing? || e.Restoring?
    requires id in ps && ps[id].Installed? ==> e == Updating(ps[id].installed) || e == Removing(ps[id].installed)
    requires id in ps && !ps[id].Installed? ==> ps[id].Updating? && e == Installed(ps[id].installed)
    ensures Indexed(ps[id := e], map[])
  {
    var r := ps[id := e];
    assert forall p, q :: OnRecord(r, map[], q, p) == OnRecord(ps, map[], q, p);
    assert forall p, q :: Listed(r, p, q).Some? ==> Listed(r, p, q) == Listed(ps, p, q);
    assert forall p, q :: IsInstalled(r, p) ==> Listed(r, p, q) == Listed(ps, p, q);
    assert forall p, q :: Needs(r, q, p).Some? ==> Needs(r, q, p) == Needs(ps, q, p);
  }

  lemma DropKeepsIndex(ps: Packages, id: PackageId)
    requires Indexed(ps, map[]) && id in ps && (ps[id].Installing? || ps[id].Restoring?)
    ensures Indexed(ps - {id}, map[])
  {
    var r := ps - {id};
    assert forall p, q :: OnRecord(r, map[], q, p) == OnRecord(ps, map[], q, p);
    assert forall p, q :: Listed(r, p, q) == Listed(ps, p, q);
    assert forall p, q :: Needs(r, q, p) == Needs(ps, q, p);
  }

  lemma StepKeepsIndex(ps: Packages, s: Step)
    requires Indexed(ps, map[])
    ensures Indexed(Apply(ps, s), map[])
  {
    match s
    case BeginInstall(id) =>
      if id !in ps {
        StatusChangeKeepsIndex(ps, id, Installing);
      } else if ps[id].Installed? {
        StatusChangeKeepsIndex(ps, id, Updating(ps[id].installed));
      }
    case BeginRestore(id) =>
      if id !in ps {
        StatusChangeKeepsIndex(ps, id, Restoring);
      }
    case FinishInstall(id, required, configured, reconfigured) =>
      if id in ps && ps[id].Updating? {
        UpdateKeepsIndex(ps, id, required, configured);
        ConfigureAllKeepsIndex(Updated(ps, id, required, configured), map[], reconfigured);
      } else if id in ps && (ps[id].Installing? || ps[id].Restoring?) {
        FreshInstallKeepsIndex(ps, id, required);
        ConfigureAllKeepsIndex(FreshlyInstalled(ps, id, required), map[], reconfigured);
      }
    case CleanupFailed(id) =>
      if id in ps && (ps[id].Installing? || ps[id].Restoring?) {
        DropKeepsIndex(ps, id);
      } else if id in ps && ps[id].Updating? {
        StatusChangeKeepsIndex(ps, id, Installed(ps[id].installed));
      }
    case Configure(id, deps) =>
      if IsInstalled(ps, id) {
        IndexedGivesLists(ps, map[], id);
        ConfigureKeepsIndex(ps, map[], id, deps);
      }
    case MarkRemoving(id) =>
      if id in ps && ps[id].Installed? {
        StatusChangeKeepsIndex(ps, id, Removing(ps[id].installed));
      }
    case Uninstall(id, reconfigured) =>
      if id in ps && ps[id].Removing? {
        UninstallKeepsIndex(ps, id, reconfigured);
      }
    case Rebuild => RebuildIndexes(ps);
  }

  ghost function Run(steps: seq<Step>): Packages {
    if steps == [] then map[] else Apply(Run(steps[..|steps| - 1]), steps[|steps| - 1])
  }

  lemma {:induction false} RunIsIndexed(steps: seq<Step>)
    ensures Indexed(Run(steps), map[])
    decreases |steps|
  {
    if steps != [] {
      RunIsIndexed(steps[..|steps| - 1]);
      StepKeepsIndex(Run(steps[..|steps| - 1]), steps[|steps| - 1]);
    }
  }

  /**
   * In every run, for distinct installed p and q: q is listed as a dependent of p
   * exactly when p is among the dependencies of q, with the same info on both sides.
   */
  lemma DependentsInvertDependencies(steps: seq<Step>, p: PackageId, q: PackageId)
    requires IsInstalled(Run(steps), p) && IsInstalled(Run(steps), q) && p != q
    ensures Listed(Run(steps), p, q) == Needs(Run(steps), q, p)
  {
    RunIsIndexed(steps);
    var ps := Run(steps);
    assert Listed(ps, p, q).Some? ==> OnRecord(ps, map[], q, p) == Listed(ps, p, q);
    assert Needs(ps, q, p).Some? ==> Listed(ps, p, q).Some?;
  }

  /** A listed dependent that is not installed is being removed: the only way a list can name a package that a break cannot find. */
  lemma ListedIsInstalledOrRemoving(steps: seq<Step>, p: PackageId, q: PackageId)
    requires p != q && Listed(Run(steps), p, q).Some?
    ensures IsInstalled(Run(steps), q) || (q in Run(steps) && Run(steps)[q].Removing?)
  {
    RunIsIndexed(steps);
    assert OnRecord(Run(steps), map[], q, p).Some?;
  }

  /**
   * The boot rebuild, from any reachable state: off the diagonal it drops the dependents
   * that are being removed and nothing else. So where no package is being removed it agrees
   * with the lists maintained step by step.
   */
  lemma RebuildAgrees(steps: seq<Step>, p: PackageId, q: PackageId)
    requires p != q
    ensures Listed(Rebuilt(Run(steps)), p, q) == if IsInstalled(Run(steps), q) then Listed(Run(steps), p, q) else None
    ensures (forall r :: r in Run(steps) ==> !Run(steps)[r].Removing?) ==>
              Listed(Rebuilt(Run(steps)), p, q) == Listed(Run(steps), p, q)
  {
    var ps := Run(steps);
    RunIsIndexed(steps);
    RebuildIndexes(ps);
    assert Listed(ps, p, q).Some? ==> OnRecord(ps, map[], q, p) == Listed(ps, p, q);
    if IsInstalled(ps, p) {
      assert Needs(ps, q, p).Some? ==> Listed(ps, p, q).Some?;
    } else {
      assert !IsInstalled(Rebuilt(ps), p);
    }
  }
}
