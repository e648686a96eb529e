/** The loops that maintain the index in place, and the one that rebuilds it at boot. */
module IndexDatabase {
  import opened Common
  import opened ReverseIndex

  /** The pointers of the list that target p, in order. */
  function Targeting(pointers: seq<(PackageId, string)>, p: PackageId): seq<string> {
    if pointers == [] then []
    else
      var rest := Targeting(pointers[..|pointers| - 1], p);
      var (target, pointer) := pointers[|pointers| - 1];
      if target == p then rest + [pointer] else rest
  }

  function Targets(pointers: seq<(PackageId, string)>): set<PackageId> {
    set i | 0 <= i < |pointers| :: pointers[i].0
  }

  function ChecksOn(dependsOn: map<PackageId, set<string>>, p: PackageId): set<string> {
    if p in dependsOn then dependsOn[p] else {}
  }

  /**
   * The dependencies of a package being configured: what its manifest requires, what its
   * config points to, and, unless it is a dry run, what its config action asks for, less
   * anything its manifest does not mention.
   */
  method CollectDependencies(id: PackageId, required: set<PackageId>, pointers: seq<(PackageId, string)>,
                             dependsOn: Option<map<PackageId, set<string>>>, mentioned: set<PackageId>) returns (links: Links)
    ensures dependsOn.None? ==> links.Keys == required + Targets(pointers)
    ensures dependsOn.Some? ==> links.Keys == (required + Targets(pointers) + dependsOn.value.Keys) * (mentioned + {id})
    ensures forall p :: p in links ==> links[p].pointers == Targeting(pointers, p)
    ensures forall p :: p in links ==> links[p].healthChecks == if dependsOn.Some? then ChecksOn(dependsOn.value, p) else {}
  {
    links := CollectPointers(required, pointers);
    if dependsOn.Some? {
      links := CollectChecks(links, dependsOn.value);
      links := map p | p in links && (p == id || p in mentioned) :: links[p];
    }
  }

  method CollectPointers(required: set<PackageId>, pointers: seq<(PackageId, string)>) returns (links: Links)
    ensures links.Keys == required + Targets(pointers)
    ensures forall p :: p in links ==> links[p] == Info(Targeting(pointers, p), {})
    ensures forall p :: p !in links ==> Targeting(pointers, p) == []
  {
    links := Requirements(required);
    for i := 0 to |pointers|
      invariant links.Keys == required + Targets(pointers[..i])
      invariant forall p :: p in links ==> links[p] == Info(Targeting(pointers[..i], p), {})
      invariant forall p :: p !in Targets(pointers[..i]) ==> Targeting(pointers[..i], p) == []
    {
      var (target, pointer) := pointers[i];
      OneMorePointer(pointers, i);
      if target in links {
        links := links[target := links[target].(pointers := links[target].pointers + [pointer])];
      } else {
        links := links[target := Info([pointer], {})];
      }
    }
    assert pointers[..|pointers|] == pointers;
  }

  lemma OneMorePointer(pointers: seq<(PackageId, string)>, i: nat)
    requires i < |pointers|
    ensures Targets(pointers[..i + 1]) == Targets(pointers[..i]) + {pointers[i].0}
    ensures forall p :: Targeting(pointers[..i + 1], p) ==
                        Targeting(pointers[..i], p) + (if pointers[i].0 == p then [pointers[i].1] else [])
  {
    var longer, shorter := pointers[..i + 1], pointers[..i];
    assert longer[..i] == shorter && longer[i] == pointers[i];
    forall p | p in Targets(shorter)
      ensures p in Targets(longer)
    {
      var j :| 0 <= j < i && shorter[j].0 == p;
      assert longer[j].0 == p;
    }
    forall p | p in Targets(longer)
      ensures p in Targets(shorter) || p == pointers[i].0
    {
      var j :| 0 <= j < i + 1 && longer[j].0 == p;
      if j < i {
        assert shorter[j].0 == p;
      }
    }
  }

  method CollectChecks(pointed: Links, asked: map<PackageId, set<string>>) returns (links: Links)
    requires forall p :: p in pointed ==> pointed[p].healthChecks == {}
    ensures links.Keys == pointed.Keys + asked.Keys
    ensures forall p :: p in links ==> links[p] == Info(if p in pointed then pointed[p].pointers else [], ChecksOn(asked, p))
  {
    links := pointed;
    var todo := asked.Keys;
    while todo != {}
      invariant todo <= asked.Keys
      invariant links.Keys == pointed.Keys + (asked.Keys - todo)
      invariant forall p :: p in links ==>
                  links[p] == Info(if p in pointed then pointed[p].pointers else [], if p in todo then {} else ChecksOn(asked, p))
      decreases todo
    {
      var p :| p in todo;
      if p in links {
        links := links[p := links[p].(healthChecks := links[p].healthChecks + asked[p])];
      } else {
        links := links[p := Info([], asked[p])];
      }
      todo := todo - {p};
    }
  }

  function ListFor(lists: map<PackageId, Links>, p: PackageId): Links {
    if p in lists then lists[p] else map[]
  }

  class IndexDb {
    var packages: Packages

    constructor ()
      ensures packages == map[]
    {
      packages := map[];
    }

    method RemoveFromCurrentDependentsLists(id: PackageId, dependencies: Links)
      modifies this
      ensures packages == RemovedFrom(old(packages), id, dependencies.Keys)
    {
      var todo := dependencies.Keys + {id};
      ghost var all := todo;
      while todo != {}
        invariant todo <= all
        invariant packages == StruckAt(old(packages), id, all - todo)
        decreases todo
      {
        var p :| p in todo;
        StrikeOneMore(old(packages), id, all - todo, p);
        assert all - todo + {p} == all - (todo - {p});
        if IsInstalled(packages, p) {
          var list := RecordOf(packages, p).dependents;
          if id in list {
            packages := SetRecord(packages, p, RecordOf(packages, p).(dependents := list - {id}));
          } else {
            assert list - {id} == list;
          }
        }
        todo := todo - {p};
      }
      assert all - todo == all;
    }

    method AddDependentToCurrentDependentsLists(id: PackageId, dependencies: Links)
      modifies this
      ensures packages == AddedTo(old(packages), id, dependencies)
    {
      var todo := dependencies.Keys;
      while todo != {}
        invariant todo <= dependencies.Keys
        invariant packages == AddedTo(old(packages), id, dependencies - todo)
        decreases todo
      {
        var p :| p in todo;
        AddOneMore(old(packages), id, dependencies - todo, p, dependencies[p]);
        if IsInstalled(packages, p) {
          var list := RecordOf(packages, p).dependents;
          packages := SetRecord(packages, p, RecordOf(packages, p).(dependents := list[id := dependencies[p]]));
        }
        assert (dependencies - todo)[p := dependencies[p]] == dependencies - (todo - {p});
        todo := todo - {p};
      }
      assert dependencies - {} == dependencies;
    }

    /** Looks through all packages for installed ones that depend on `id`. */
    method FindDependents(id: PackageId) returns (links: Links)
      ensures links == Inverse(packages, id)
    {
      links := map[];
      var todo := packages.Keys;
      while todo != {}
        invariant todo <= packages.Keys
        invariant links == Inverse(packages, id) - todo
        decreases todo
      {
        var q :| q in todo;
        if IsInstalled(packages, q) && id in RecordOf(packages, q).dependencies {
          links := links[q := RecordOf(packages, q).dependencies[id]];
        }
        todo := todo - {q};
      }
    }

    method Configure(id: PackageId, deps: Links) returns (r: Result<()>)
      modifies this
      ensures r.Ok? <==> IsInstalled(old(packages), id)
      ensures packages == Apply(old(packages), Step.Configure(id, deps))
    {
      if !IsInstalled(packages, id) {
        return Err(NotFound(id));
      }
      RemoveFromCurrentDependentsLists(id, RecordOf(packages, id).dependencies);
      AddDependentToCurrentDependentsLists(id, deps);
      packages := SetRecord(packages, id, RecordOf(packages, id).(dependencies := deps - {id}));
      r := Ok(());
    }

    /** The database part of installing a package that is being installed, restored or updated. */
    method FinishInstall(id: PackageId, required: set<PackageId>, configured: Option<Links>, reconfigured: seq<(PackageId, Links)>)
      modifies this
      ensures packages == Apply(old(packages), Step.FinishInstall(id, required, configured, reconfigured))
    {
      if id !in packages || packages[id].Installed? || packages[id].Removing? {
        return;
      }
      var dependencies := Requirements(required);
      var dependents := FindDependents(id);
      var prev := packages[id];
      packages := packages[id := Installed(Record(dependencies, dependents))];
      if prev.Updating? {
        RemoveFromCurrentDependentsLists(id, prev.installed.dependencies);
        if configured.Some? {
          var done := Configure(id, configured.value);
        } else {
          AddDependentToCurrentDependentsLists(id, dependencies);
        }
      } else {
        AddDependentToCurrentDependentsLists(id, dependencies);
      }
      ConfigureAll(reconfigured);
    }

    /** Configures packages one after the other, passing over those that are not installed. */
    method ConfigureAll(reconfigured: seq<(PackageId, Links)>)
      modifies this
      ensures packages == ConfiguredAll(old(packages), reconfigured)
    {
      for i := 0 to |reconfigured|
        invariant ConfiguredAll(old(packages), reconfigured) == ConfiguredAll(packages, reconfigured[i..])
      {
        var done := Configure(reconfigured[i].0, reconfigured[i].1);
        assert reconfigured[i..][1..] == reconfigured[i + 1..];
      }
    }

    method Uninstall(id: PackageId, reconfigured: seq<(PackageId, Links)>) returns (r: Result<()>)
      modifies this
      ensures r.Ok? <==> id in old(packages) && old(packages)[id].Removing?
      ensures packages == Apply(old(packages), Step.Uninstall(id, reconfigured))
    {
      if id !in packages || !packages[id].Removing? {
        return Err(NotFound(id));
      }
      var entry := packages[id].removing;
      packages := packages - {id};
      ConfigureAll(reconfigured);
      RemoveFromCurrentDependentsLists(id, entry.dependencies);
      r := Ok(());
    }

    /** At boot: every list is recomputed from the dependencies of the installed packages, then stored. */
    method Rebuild()
      modifies this
      ensures packages == Apply(old(packages), Step.Rebuild)
    {
      var lists := InvertDependencies(packages);
      var stored := packages;
      var todo := packages.Keys;
      while todo != {}
        invariant todo <= packages.Keys == stored.Keys && packages == old(packages)
        invariant forall p :: p in stored ==> stored[p] == if p in todo then packages[p] else Rebuilt(packages)[p]
        decreases todo
      {
        var p :| p in todo;
        if IsInstalled(packages, p) {
          stored := stored[p := packages[p].(installed := packages[p].installed.(dependents := lists[p]))];
        } else if packages[p].Removing? {
          stored := stored[p := Removing(packages[p].removing.(dependents := lists[p]))];
        }
        todo := todo - {p};
      }
      assert stored == Rebuilt(packages);
      packages := stored;
    }
  }

  /** The nested loop of the rebuild: goes through the dependencies of every installed package. */
  method InvertDependencies(packages: Packages) returns (lists: map<PackageId, Links>)
    ensures forall p :: p in packages ==> p in lists
    ensures forall p :: ListFor(lists, p) == Inverse(packages, p)
  {
    lists := map p | p in packages :: map[];
    var todo := packages.Keys;
    while todo != {}
      invariant todo <= packages.Keys <= lists.Keys
      invariant forall p :: ListFor(lists, p) == Inverse(packages, p) - todo
      decreases todo
    {
      var q :| q in todo;
      var dependencies := if IsInstalled(packages, q) then RecordOf(packages, q).dependencies else map[];
      ghost var before := lists;
      lists := ListUnder(lists, q, dependencies);
      forall p
        ensures ListFor(lists, p) == Inverse(packages, p) - (todo - {q})
      {
        assert ListFor(before, p) == Inverse(packages, p) - todo;
        InverseOneMore(packages, p, todo, q);
      }
      todo := todo - {q};
    }
  }

  lemma InverseOneMore(ps: Packages, p: PackageId, todo: set<PackageId>, q: PackageId)
    requires q in todo
    ensures Inverse(ps, p) - (todo - {q}) ==
            if IsInstalled(ps, q) && p in RecordOf(ps, q).dependencies
            then (Inverse(ps, p) - todo)[q := RecordOf(ps, q).dependencies[p]]
            else Inverse(ps, p) - todo
  {
  }

  /** The inner loop: puts q on the list of each of its dependencies, known or not. */
  method ListUnder(before: map<PackageId, Links>, q: PackageId, dependencies: Links) returns (lists: map<PackageId, Links>)
    ensures lists.Keys == before.Keys + dependencies.Keys
    ensures forall p :: ListFor(lists, p) == if p in dependencies then ListFor(before, p)[q := dependencies[p]] else ListFor(before, p)
  {
    lists := before;
    var todo := dependencies.Keys;
    while todo != {}
      invariant todo <= dependencies.Keys && lists.Keys == before.Keys + (dependencies.Keys - todo)
      invariant forall p :: ListFor(lists, p) ==
                  if p in dependencies && p !in todo then ListFor(before, p)[q := dependencies[p]] else ListFor(before, p)
      decreases todo
    {
      var k :| k in todo;
      lists := lists[k := ListFor(lists, k)[q := dependencies[k]]];
      todo := todo - {k};
    }
  }

  lemma StrikeOneMore(ps: Packages, id: PackageId, at: set<PackageId>, p: PackageId)
    requires p !in at
    ensures StruckAt(ps, id, at + {p}) ==
            if IsInstalled(ps, p) then
              StruckAt(ps, id, at)[p := ps[p].(installed := ps[p].installed.(dependents := ps[p].installed.dependents - {id}))]
            else StruckAt(ps, id, at)
  {
  }

  lemma AddOneMore(ps: Packages, id: PackageId, deps: Links, p: PackageId, info: Info)
    requires p !in deps
    ensures AddedTo(ps, id, deps[p := info]) ==
            if IsInstalled(ps, p) then
              AddedTo(ps, id, deps)[p := ps[p].(installed := ps[p].installed.(dependents := ps[p].installed.dependents[id := info]))]
            else AddedTo(ps, id, deps)
  {
  }
}
