/** Removing a package's volumes without removing the directories other containers have mounted. */
module FolderCleanup {
  import opened Common

  /** A path as the sequence of its components, so that prefix is component-wise. */
  type Path = seq<string>

  datatype Kind = File | Dir

  type Nodes = map<Path, Kind>

  /** Everything but a root sits in a directory. */
  ghost predicate IsTree(nodes: Nodes, root: Path) {
    forall p :: p in nodes && root < p ==> p[..|p| - 1] in nodes && nodes[p[..|p| - 1]] == Dir
  }

  /** The path is a protected one, or leads to one. */
  predicate LeadsToProtected(protected: seq<Path>, p: Path) {
    exists i :: 0 <= i < |protected| && p <= protected[i]
  }

  /** What may stay: a directory that is a protected path or an ancestor of one. */
  predicate Stays(nodes: Nodes, protected: seq<Path>, p: Path)
    requires p in nodes
  {
    nodes[p] == Dir && LeadsToProtected(protected, p)
  }

  /** The tree less everything at or below `path` that may not stay. */
  function Pruned(nodes: Nodes, protected: seq<Path>, path: Path): Nodes {
    map p | p in nodes && (path <= p ==> Stays(nodes, protected, p)) :: nodes[p]
  }

  ghost function Below(nodes: Nodes, path: Path): set<Path> {
    set p | p in nodes && path <= p
  }

  function Children(nodes: Nodes, path: Path): set<Path> {
    set p | p in nodes && path < p && |p| == |path| + 1
  }

  // ----- trees

  /** In a tree the ancestors of a node, down to the root, are directories in the tree. */
  lemma {:induction false} AncestorsAreDirs(nodes: Nodes, root: Path, a: Path, p: Path)
    requires IsTree(nodes, root) && p in nodes && root <= a && a < p
    ensures a in nodes && nodes[a] == Dir
    decreases |p|
  {
    var q := p[..|p| - 1];
    assert root < p && root <= q && a <= q;
    if a != q {
      AncestorsAreDirs(nodes, root, a, q);
    } else {
      assert q in nodes && nodes[q] == Dir;
    }
  }

  lemma NothingBelowAbsent(nodes: Nodes, root: Path, path: Path)
    requires IsTree(nodes, root) && root <= path
    requires path !in nodes || nodes[path] == File
    ensures forall p :: p in nodes && path <= p ==> p == path
  {
    forall p | p in nodes && path <= p
      ensures p == path
    {
      if p != path {
        AncestorsAreDirs(nodes, root, path, p);
        assert false;
      }
    }
  }

  /** The child of `path` through which p is reached. */
  function Toward(path: Path, p: Path): (c: Path)
    requires path < p
    ensures path < c <= p && |c| == |path| + 1
    ensures forall d :: path < d && |d| == |path| + 1 ==> (d <= p <==> d == c)
  {
    p[..|path| + 1]
  }

  /** What has been pruned, the children still to be visited apart. */
  ghost predicate PrunedBut(before: Nodes, protected: seq<Path>, path: Path, todo: set<Path>, now: Nodes) {
    && (forall p :: p in now ==> p in before && now[p] == before[p])
    && (forall p :: p in before ==> (p in now <==> (
          (path < p && Toward(path, p) !in todo) ==> Stays(before, protected, p))))
  }

  class FileTree {
    var nodes: Nodes

    method RemoveFile(path: Path)
      modifies this
      ensures nodes == old(nodes) - {path}
    {
      nodes := nodes - {path};
    }

    method RemoveDirAll(path: Path)
      modifies this
      ensures nodes == map p | p in old(nodes) && !(path <= p) :: old(nodes)[p]
    {
      nodes := map p | p in nodes && !(path <= p) :: nodes[p];
    }

    /**
     * Leaves, at and below `path`, exactly the directories that are protected paths or
     * ancestors of protected paths; removes every file and every other directory there.
     */
    method CleanupFolder(path: Path, protected: seq<Path>, ghost root: Path)
      requires IsTree(nodes, root) && root <= path
      modifies this
      ensures IsTree(nodes, root)
      ensures nodes == Pruned(old(nodes), protected, path)
      decreases |Below(nodes, path)|
    {
      ghost var before := nodes;
      PruningKeepsTree(before, protected, path, root);
      if path !in nodes {
        AbsentPruned(nodes, protected, path, root);
        return;
      }
      if nodes[path] != Dir {
        FilePruned(nodes, protected, path, root);
        RemoveFile(path);
        return;
      }
      if !LeadsToProtected(protected, path) {
        UnprotectedPruned(nodes, protected, path);
        RemoveDirAll(path);
        return;
      }
      var todo := Children(nodes, path);
      AllChildrenTodo(before, protected, path, root);
      while todo != {}
        invariant todo <= Children(before, path)
        invariant IsTree(nodes, root) && PrunedBut(before, protected, path, todo, nodes)
        decreases todo
      {
        var child :| child in todo;
        ChildIsSmaller(before, nodes, path, child);
        ghost var was := nodes;
        CleanupFolder(child, protected, root);
        ChildPruned(before, protected, path, todo, was, child, nodes);
        todo := todo - {child};
      }
      AllPruned(before, protected, path, nodes);
    }
  }

  lemma AbsentPruned(nodes: Nodes, protected: seq<Path>, path: Path, root: Path)
    requires IsTree(nodes, root) && root <= path && path !in nodes
    ensures Pruned(nodes, protected, path) == nodes
  {
    NothingBelowAbsent(nodes, root, path);
  }

  lemma FilePruned(nodes: Nodes, protected: seq<Path>, path: Path, root: Path)
    requires IsTree(nodes, root) && root <= path && path in nodes && nodes[path] == File
    ensures Pruned(nodes, protected, path) == nodes - {path}
  {
    NothingBelowAbsent(nodes, root, path);
  }

  /** Below a directory that leads nowhere protected, nothing stays. */
  lemma UnprotectedPruned(nodes: Nodes, protected: seq<Path>, path: Path)
    requires !LeadsToProtected(protected, path)
    ensures Pruned(nodes, protected, path) == map p | p in nodes && !(path <= p) :: nodes[p]
  {
  }

  lemma AllChildrenTodo(nodes: Nodes, protected: seq<Path>, path: Path, root: Path)
    requires IsTree(nodes, root) && root <= path
    ensures PrunedBut(nodes, protected, path, Children(nodes, path), nodes)
  {
    forall p | p in nodes && path < p
      ensures Toward(path, p) in Children(nodes, path)
    {
      var c := Toward(path, p);
      if c != p {
        AncestorsAreDirs(nodes, root, c, p);
      }
    }
  }

  lemma AllPruned(before: Nodes, protected: seq<Path>, path: Path, now: Nodes)
    requires PrunedBut(before, protected, path, {}, now)
    requires path in before && before[path] == Dir && LeadsToProtected(protected, path)
    ensures now == Pruned(before, protected, path)
  {
    forall p | p in before
      ensures p in now <==> (path <= p ==> Stays(before, protected, p))
    {
      if path <= p && |p| == |path| {
        assert p == path;
      } else if path <= p {
        assert path < p && Toward(path, p) !in {};
      }
    }
  }

  lemma ChildIsSmaller(before: Nodes, now: Nodes, path: Path, child: Path)
    requires path in before && path < child && forall p :: p in now ==> p in before
    ensures |Below(now, child)| < |Below(before, path)|
  {
    assert Below(now, child) <= Below(before, path) - {path};
    SubsetSize(Below(now, child), Below(before, path) - {path});
  }

  lemma ChildPruned(before: Nodes, protected: seq<Path>, path: Path, todo: set<Path>, was: Nodes, child: Path, now: Nodes)
    requires PrunedBut(before, protected, path, todo, was)
    requires child in todo && path < child && |child| == |path| + 1
    requires now == Pruned(was, protected, child)
    ensures PrunedBut(before, protected, path, todo - {child}, now)
  {
  }

  /** What is left, on paths alone: outside everything, below only the directories from which a protected path can be reached going down. */
  lemma PrunedExactly(nodes: Nodes, protected: seq<Path>, path: Path, p: Path)
    ensures p in Pruned(nodes, protected, path) <==>
              && p in nodes
              && (!(path <= p) || (nodes[p] == Dir && exists i, rest: Path :: 0 <= i < |protected| && p + rest == protected[i]))
    ensures p in Pruned(nodes, protected, path) ==> Pruned(nodes, protected, path)[p] == nodes[p]
  {
    forall i | 0 <= i < |protected| && p <= protected[i]
      ensures exists rest: Path :: p + rest == protected[i]
    {
      assert p + protected[i][|p|..] == protected[i];
    }
  }

  /** Pruning leaves a tree: what stays keeps its ancestors. */
  lemma PruningKeepsTree(nodes: Nodes, protected: seq<Path>, path: Path, root: Path)
    requires IsTree(nodes, root) && root <= path
    ensures IsTree(Pruned(nodes, protected, path), root)
  {
    var r := Pruned(nodes, protected, path);
    forall p | p in r && root < p
      ensures p[..|p| - 1] in r && r[p[..|p| - 1]] == Dir
    {
      var q := p[..|p| - 1];
      assert q in nodes && nodes[q] == Dir;
      if path <= q {
        assert path <= p;
        var i :| 0 <= i < |protected| && p <= protected[i];
        assert q <= protected[i];
      }
    }
  }
}
