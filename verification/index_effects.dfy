/**
 * What each database step does to the dependencies and the lists, stated on what is
 * recorded and what is listed alone. That the index is kept does not say what is in it.
 */
module IndexEffects {
  import opened Common
  import opened ReverseIndex

  ghost function InLinks(links: Links, p: PackageId): Option<Info> {
    if p in links then Some(links[p]) else None
  }

  /** What `id` records about p when it is configured with these links: a self edge is not recorded. */
  ghost function Recorded(links: Links, id: PackageId, p: PackageId): Option<Info> {
    if p == id then None else InLinks(links, p)
  }

  /** The same packages are installed. */
  ghost predicate SameInstalled(ps: Packages, after: Packages) {
    forall p :: IsInstalled(after, p) <==> IsInstalled(ps, p)
  }

  /** Of the packages other than `id`, what they record and what is listed about them in other lists is as before. */
  ghost predicate OthersKept(ps: Packages, after: Packages, id: PackageId) {
    && (forall p, q :: q != id ==> Needs(after, q, p) == Needs(ps, q, p))
    && (forall p, q :: q != id && p != id ==> Listed(after, p, q) == Listed(ps, p, q))
  }

  /** Clearing the lists of the old dependencies and linking to the new ones leaves exactly the new ones. */
  lemma RelinkedExactly(ps: Packages, id: PackageId, gone: set<PackageId>, links: Links, p: PackageId)
    requires ListedWithin(ps, id, gone)
    ensures Listed(AddedTo(RemovedFrom(ps, id, gone), id, links), p, id) == if IsInstalled(ps, p) then InLinks(links, p) else None
  {
    var cleared := RemovedFrom(ps, id, gone);
    assert IsInstalled(cleared, p) <==> IsInstalled(ps, p);
    assert Listed(cleared, p, id) == None;
  }

  lemma RecordedLists(ps: Packages, id: PackageId, deps: Links)
    requires IsInstalled(ps, id)
    ensures var r := SetRecord(ps, id, RecordOf(ps, id).(dependencies := deps));
            && SameInstalled(ps, r)
            && (forall p, q :: Listed(r, p, q) == Listed(ps, p, q))
            && (forall p, q :: Needs(r, q, p) == if q == id then InLinks(deps, p) else Needs(ps, q, p))
  {
  }

  /**
   * Configuring: `id` records exactly the new dependencies, itself apart; it is listed with the
   * same information by exactly those that are installed; nothing of another package changes.
   */
  lemma ConfiguredExactly(ps: Packages, out: map<PackageId, Links>, id: PackageId, deps: Links)
    requires IsInstalled(ps, id) && Indexed(ps, out)
    ensures var after := Configured(ps, id, deps);
            && SameInstalled(ps, after) && OthersKept(ps, after, id)
            && (forall p :: Needs(after, id, p) == Recorded(deps, id, p))
            && (forall p :: IsInstalled(ps, p) ==> Listed(after, p, id) == InLinks(deps, p))
            && (forall q :: q != id ==> Listed(after, id, q) == Listed(ps, id, q))
  {
    IndexedGivesLists(ps, out, id);
    ConfiguredFrom(ps, id, deps);
  }

  lemma ConfiguredFrom(ps: Packages, id: PackageId, deps: Links)
    requires IsInstalled(ps, id) && ListedWithin(ps, id, RecordOf(ps, id).dependencies.Keys)
    ensures var after := Configured(ps, id, deps);
            && SameInstalled(ps, after) && OthersKept(ps, after, id)
            && (forall p :: Needs(after, id, p) == Recorded(deps, id, p))
            && (forall p :: IsInstalled(ps, p) ==> Listed(after, p, id) == InLinks(deps, p))
            && (forall q :: q != id ==> Listed(after, id, q) == Listed(ps, id, q))
  {
    var gone := RecordOf(ps, id).dependencies.Keys;
    var linked := AddedTo(RemovedFrom(ps, id, gone), id, deps);
    forall p
      ensures Listed(linked, p, id) == if IsInstalled(ps, p) then InLinks(deps, p) else None
    {
      RelinkedExactly(ps, id, gone, deps, p);
    }
    RecordedLists(linked, id, deps - {id});
    assert forall p :: InLinks(deps - {id}, p) == Recorded(deps, id, p);
  }

  /** A fresh install or a restore: exactly what is required, with the default information; the new list is read off the others. */
  lemma FreshlyInstalledExactly(ps: Packages, id: PackageId, required: set<PackageId>)
    requires Indexed(ps, map[]) && id in ps && (ps[id].Installing? || ps[id].Restoring?)
    ensures var after := FreshlyInstalled(ps, id, required);
            && (forall p :: IsInstalled(after, p) <==> IsInstalled(ps, p) || p == id) && OthersKept(ps, after, id)
            && (forall p :: Needs(after, id, p) == if p in required then Some(DEFAULT_INFO) else None)
            && (forall p :: IsInstalled(after, p) ==> Listed(after, p, id) == if p in required then Some(DEFAULT_INFO) else None)
            && (forall q :: q != id ==> Listed(after, id, q) == Needs(ps, q, id))
  {
    var r := ps[id := Installed(Record(Requirements(required), Inverse(ps, id)))];
    assert forall p, q :: p != id ==> Listed(r, p, q) == Listed(ps, p, q);
    assert forall q :: Listed(r, id, q) == Needs(ps, q, id);
    assert forall p, q :: q != id ==> Needs(r, q, p) == Needs(ps, q, p);
    assert forall p :: OnRecord(ps, map[], id, p) == None;
    assert Unlisted(ps, id);
  }

  ghost function UpdatedLinks(required: set<PackageId>, configured: Option<Links>): Links {
    if configured.Some? then configured.value else Requirements(required)
  }

  /** An update: the links it was configured with at once, or what is required; the list is read off the others. */
  lemma UpdatedExactly(ps: Packages, id: PackageId, required: set<PackageId>, configured: Option<Links>)
    requires Indexed(ps, map[]) && IsInstalled(ps, id)
    ensures var after := Updated(ps, id, required, configured);
            var links := UpdatedLinks(required, configured);
            && SameInstalled(ps, after) && OthersKept(ps, after, id) && after[id].Installed?
            && (forall p :: p != id ==> Needs(after, id, p) == InLinks(links, p))
            && (forall p :: p != id && IsInstalled(ps, p) ==> Listed(after, p, id) == InLinks(links, p))
            && (forall q :: q != id ==> Listed(after, id, q) == Needs(ps, q, id))
  {
    var deps := Requirements(required);
    var r := ps[id := Installed(Record(deps, Inverse(ps, id)))];
    assert forall p, q :: p != id ==> Listed(r, p, q) == Listed(ps, p, q);
    assert forall q :: Listed(r, id, q) == Needs(ps, q, id);
    assert forall p, q :: q != id ==> Needs(r, q, p) == Needs(ps, q, p);
    assert SameInstalled(ps, r);
    IndexedGivesLists(ps, map[], id);
    var prev := RecordOf(ps, id).dependencies.Keys;
    var c := RemovedFrom(r, id, prev);
    assert ListedWithin(r, id, prev);
    assert forall p :: Listed(c, p, id) == None;
    assert forall p :: Needs(c, id, p) == InLinks(deps, p);
    if configured.Some? {
      ConfiguredFrom(c, id, configured.value);
    }
  }

  // ----- several packages configured in turn

  /** The links of the last time q is configured, if it is. */
  ghost function LastLinks(cs: seq<(PackageId, Links)>, q: PackageId): Option<Links> {
    if cs == [] then None
    else if cs[|cs| - 1].0 == q then Some(cs[|cs| - 1].1)
    else LastLinks(cs[..|cs| - 1], q)
  }

  lemma {:induction false} LastLinksFirst(cs: seq<(PackageId, Links)>, q: PackageId)
    requires cs != []
    ensures LastLinks(cs, q) == if LastLinks(cs[1..], q).Some? then LastLinks(cs[1..], q)
                                else if cs[0].0 == q then Some(cs[0].1) else None
    decreases |cs|
  {
    if |cs| > 1 {
      var shorter := cs[..|cs| - 1];
      LastLinksFirst(shorter, q);
      assert cs[1..][..|cs[1..]| - 1] == shorter[1..];
    }
  }

  ghost function NeedsAfter(ps: Packages, cs: seq<(PackageId, Links)>, q: PackageId, p: PackageId): Option<Info> {
    if IsInstalled(ps, q) && LastLinks(cs, q).Some? then Recorded(LastLinks(cs, q).value, q, p) else Needs(ps, q, p)
  }

  /** Every installed package records what it was configured with last, the others what they did. */
  lemma {:induction false} ConfiguredAllExactly(ps: Packages, out: map<PackageId, Links>, cs: seq<(PackageId, Links)>)
    requires Indexed(ps, out)
    ensures var after := ConfiguredAll(ps, cs);
            && SameInstalled(ps, after)
            && (forall p, q :: Needs(after, q, p) == NeedsAfter(ps, cs, q, p))
            && (forall p, q :: LastLinks(cs, q).None? ==> Listed(after, p, q) == Listed(ps, p, q))
    decreases |cs|
  {
    if cs != [] {
      var (id, deps) := cs[0];
      var next := if IsInstalled(ps, id) then Configured(ps, id, deps) else ps;
      if IsInstalled(ps, id) {
        ConfiguredExactly(ps, out, id, deps);
        IndexedGivesLists(ps, out, id);
        ConfigureKeepsIndex(ps, out, id, deps);
      }
      ConfiguredAllExactly(next, out, cs[1..]);
      forall p, q
        ensures Needs(ConfiguredAll(ps, cs), q, p) == NeedsAfter(ps, cs, q, p)
        ensures LastLinks(cs, q).None? ==> Listed(ConfiguredAll(ps, cs), p, q) == Listed(ps, p, q)
      {
        LastLinksFirst(cs, q);
      }
    }
  }

  /** An uninstall: the package is gone, from every list too; the others record what they were reconfigured with, or what they did. */
  lemma UninstalledExactly(ps: Packages, id: PackageId, cs: seq<(PackageId, Links)>)
    requires Indexed(ps, map[]) && id in ps && ps[id].Removing?
    ensures var after := Uninstalled(ps, id, cs);
            && id !in after && SameInstalled(ps, after)
            && (forall p, q :: Needs(after, q, p) == NeedsAfter(ps, cs, q, p))
            && (forall p :: Listed(after, p, id) == None)
            && (forall p, q :: q != id && LastLinks(cs, q).None? ==> Listed(after, p, q) == Listed(ps, p, q))
  {
    var deps := ps[id].removing.dependencies;
    var out := map[id := deps];
    var without := ps - {id};
    LeavingFits(ps, id);
    ConfiguredAllExactly(without, out, cs);
    ConfigureAllKeepsIndex(without, out, cs);
    var c := ConfiguredAll(without, cs);
    assert forall p :: p != id && Listed(c, p, id).Some? ==> OnRecord(c, out, id, p) == Listed(c, p, id);
    assert forall p, q :: NeedsAfter(without, cs, q, p) == NeedsAfter(ps, cs, q, p);
  }

  /** A package being removed may leave the table and still be on record. */
  lemma LeavingFits(ps: Packages, id: PackageId)
    requires Indexed(ps, map[]) && id in ps && ps[id].Removing?
    ensures Indexed(ps - {id}, map[id := ps[id].removing.dependencies])
    ensures SameInstalled(ps, ps - {id}) && forall p, q :: Listed(ps - {id}, p, q) == Listed(ps, p, q) && Needs(ps - {id}, q, p) == Needs(ps, q, p)
  {
    var out, without := map[id := ps[id].removing.dependencies], ps - {id};
    assert forall p, q :: Listed(without, p, q) == Listed(ps, p, q);
    assert forall p, q :: OnRecord(without, out, q, p) == OnRecord(ps, map[], q, p);
    assert forall p, q :: Needs(without, q, p) == Needs(ps, q, p);
  }

  /** The steps that only change the kind of an entry forget nothing that is on record, and only a removal takes a package out of service. */
  lemma StatusStepsForgetNothing(ps: Packages, s: Step)
    requires s.BeginInstall? || s.BeginRestore? || s.CleanupFailed? || s.MarkRemoving?
    ensures var after := Apply(ps, s);
            && (forall p, q :: OnRecord(after, map[], q, p) == OnRecord(ps, map[], q, p))
            && (forall p :: IsInstalled(after, p) <==> IsInstalled(ps, p) && !(s == MarkRemoving(p) && ps[p].Installed?))
            && (forall p, q :: IsInstalled(after, p) ==> Listed(after, p, q) == Listed(ps, p, q))
            && (forall p :: p != s.id ==> (p in after <==> p in ps) && (p in ps ==> after[p] == ps[p]))
  {
  }

  /** Installing over an installed package updates it; a failed install leaves nothing in progress; other entries in progress refuse both. */
  lemma StatusStepsTakeEffect(ps: Packages, id: PackageId)
    ensures var after := Apply(ps, BeginInstall(id));
            && id in after
            && (after[id].Updating? <==> IsInstalled(ps, id))
            && (after[id].Installing? <==> id !in ps || ps[id].Installing?)
    ensures var after := Apply(ps, CleanupFailed(id));
            && (id in after ==> after[id].Installed? || after[id].Removing?)
            && (id in after <==> id in ps && !ps[id].Installing? && !ps[id].Restoring?)
    ensures var after := Apply(ps, BeginRestore(id)); id in after && (after[id].Restoring? <==> id !in ps || ps[id].Restoring?)
    ensures var after := Apply(ps, MarkRemoving(id)); (id in after && after[id].Removing?) <==> id in ps && (ps[id].Installed? || ps[id].Removing?)
  {
  }
}
