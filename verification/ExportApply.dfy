/** The apply passes: opaque clears, whiteout deletions, then content, each
    mutating the destination tree step by step. */
module ExportApply {
  import opened Orders
  import opened DestTree
  import opened ExportPlan

  /** A planned content entry together with the bytes or link target that the
      second pass over the stream reads for it. */
  datatype Content =
    | NoContent
    | DirContent(path: Path, mode: nat)
    | FileContent(path: Path, mode: nat, mtime: U64, size: U64, bytes: Bytes)
    | LinkContent(path: Path, target: string)

  function ContentOf(planned: Planned, e: TarEntry): Content {
    match planned
    case DirectoryEntry(comps, mode) => DirContent(comps, mode)
    case FileEntry(comps, mode, mtime, size) => FileContent(comps, mode, mtime, size, e.content)
    case SymlinkEntry(comps) => if e.link.Target? then LinkContent(comps, e.link.target) else NoContent
    case _ => NoContent
  }

  datatype Stats = Stats(
    filesWritten: nat, symlinksWritten: nat, deletesApplied: nat, opaqueClears: nat,
    skippedUnchanged: nat, bytesWritten: nat)

  /** The second-granular stamp that `write_file` leaves for a tar mtime. */
  function Stamp(mtime: U64): I64 {
    if mtime < TWO_63 then mtime else 0
  }

  function Written(c: Content): Node
    requires c.FileContent?
  {
    Regular(c.bytes, c.mode, Stamp(c.mtime))
  }

  /** `unchanged` and then `dest_file_content_equals`. */
  predicate Skips(node: Option<Node>, c: Content)
    requires c.FileContent?
  {
    && node.Some? && node.value.Regular?
    && |node.value.bytes| == c.size && node.value.mtime == c.mtime
    && node.value.bytes == c.bytes
  }

  /** The tree after one content entry. */
  function Applied(t: Tree, c: Content, created: nat): Tree {
    match c
    case NoContent => t
    case DirContent(p, mode) => WithDirectory(t, p, mode, created)
    case FileContent(p, _, _, _, _) =>
      var w := WithParents(t, p, created);
      if Skips(Get(w, p), c) then w else Without(w, p)[p := Written(c)]
    case LinkContent(p, target) => Without(WithParents(t, p, created), p)[p := Link(target)]
  }

  /** What one content entry adds to the counters. */
  function Counted(s: Stats, t: Tree, c: Content): Stats {
    match c
    case FileContent(p, _, _, _, bytes) =>
      if Skips(Get(t, p), c) then s.(skippedUnchanged := s.skippedUnchanged + 1)
      else s.(filesWritten := s.filesWritten + 1, bytesWritten := s.bytesWritten + |bytes|)
    case LinkContent(_, _) => s.(symlinksWritten := s.symlinksWritten + 1)
    case _ => s
  }

  function ClearedAll(t: Tree, dirs: seq<Path>, created: nat): Tree {
    if dirs == [] then t
    else Cleared(ClearedAll(t, dirs[..|dirs| - 1], created), dirs[|dirs| - 1], created)
  }

  function WithoutAll(t: Tree, targets: seq<Path>): Tree {
    if targets == [] then t
    else Without(WithoutAll(t, targets[..|targets| - 1]), targets[|targets| - 1])
  }

  function AppliedAll(t: Tree, cs: seq<Content>, created: nat): Tree {
    if cs == [] then t
    else Applied(AppliedAll(t, cs[..|cs| - 1], created), cs[|cs| - 1], created)
  }

  function CountedAll(s: Stats, t: Tree, cs: seq<Content>, created: nat): Stats {
    if cs == [] then s
    else
      var before := cs[..|cs| - 1];
      Counted(CountedAll(s, t, before, created), AppliedAll(t, before, created), cs[|cs| - 1])
  }

  function Contents(plan: seq<Planned>, stream: seq<TarEntry>): (cs: seq<Content>)
    requires |plan| == |stream|
    ensures |cs| == |plan|
  {
    seq(|plan|, i requires 0 <= i < |plan| => ContentOf(plan[i], stream[i]))
  }

  /** The three passes in order. */
  function ApplyPasses(t: Tree, opaqueDirs: seq<Path>, whiteouts: seq<Path>, cs: seq<Content>, created: nat): Tree {
    AppliedAll(WithoutAll(ClearedAll(t, opaqueDirs, created), whiteouts), cs, created)
  }

  ghost predicate NonRoot(paths: seq<Path>) {
    forall i :: 0 <= i < |paths| ==> paths[i] != []
  }

  ghost predicate ContentPathsOk(cs: seq<Content>) {
    forall i :: 0 <= i < |cs| && !cs[i].NoContent? ==> cs[i].path != []
  }

  lemma AppliedRooted(t: Tree, c: Content, created: nat)
    requires Rooted(t) && (!c.NoContent? ==> c.path != [])
    ensures Rooted(Applied(t, c, created))
  {
    if !c.NoContent? {
      var p := c.path;
      var w := WithParents(t, p, created);
      WithParentsRooted(t, p, created);
      assert Parent(p) < p;
      if c.DirContent? {
        PutRooted(w, p, Directory(c.mode));
      } else {
        WithoutRooted(w, p);
        PutRooted(Without(w, p), p, if c.FileContent? then Written(c) else Link(c.target));
      }
    }
  }

  lemma ClearedRooted(t: Tree, p: Path, created: nat)
    requires Rooted(t) && p != []
    ensures Rooted(Cleared(t, p, created))
  {
    AppliedRooted(t, DirContent(p, OPAQUE_MODE), created);
    EmptiedRooted(WithDirectory(t, p, OPAQUE_MODE, created), p);
  }

  /** `plan` is the plan of an accepted stream. */
  ghost predicate PlanOf(stream: seq<TarEntry>, plan: Plan) {
    && Plans(stream, plan.entries)
    && SortedBy(PathLe, plan.opaqueDirs)
    && multiset(plan.opaqueDirs) == multiset(OpaqueDirs(plan.entries))
    && multiset(plan.whiteoutTargets) == multiset(Whiteouts(plan.entries))
  }

  lemma PlanPathsNonEmpty(stream: seq<TarEntry>, plan: Plan)
    requires PlanOf(stream, plan)
    ensures NonRoot(plan.opaqueDirs) && NonRoot(plan.whiteoutTargets)
    ensures ContentPathsOk(Contents(plan.entries, stream))
  {
    forall i | 0 <= i < |stream| ensures plan.entries[i].comps != [] {
      PlannedPathsAreSafe(stream[i]);
    }
    forall i | 0 <= i < |plan.opaqueDirs| ensures plan.opaqueDirs[i] != [] {
      assert plan.opaqueDirs[i] in multiset(plan.opaqueDirs);
      MarkersListed(plan.entries, plan.opaqueDirs[i]);
    }
    forall i | 0 <= i < |plan.whiteoutTargets| ensures plan.whiteoutTargets[i] != [] {
      assert plan.whiteoutTargets[i] in multiset(plan.whiteoutTargets);
      MarkersListed(plan.entries, plan.whiteoutTargets[i]);
    }
  }

  ghost function Rendered(t: Tree, plan: Plan, stream: seq<TarEntry>, created: nat): Tree
    requires |plan.entries| == |stream|
  {
    ApplyPasses(t, plan.opaqueDirs, plan.whiteoutTargets, Contents(plan.entries, stream), created)
  }

  ghost function RenderedStats(t: Tree, plan: Plan, stream: seq<TarEntry>, created: nat): Stats
    requires |plan.entries| == |stream|
  {
    CountedAll(Stats(0, 0, |plan.whiteoutTargets|, |plan.opaqueDirs|, 0, 0),
               WithoutAll(ClearedAll(t, plan.opaqueDirs, created), plan.whiteoutTargets),
               Contents(plan.entries, stream), created)
  }

  /** A file entry, by whether the file is found unchanged once its parents are there. */
  lemma FileOutcome(t: Tree, c: Content, stats: Stats, created: nat)
    requires c.FileContent?
    ensures var w := WithParents(t, c.path, created);
            && Applied(t, c, created) == (if Skips(Get(w, c.path), c) then w else Without(w, c.path)[c.path := Written(c)])
            && Counted(stats, t, c) ==
               (if Skips(Get(w, c.path), c) then stats.(skippedUnchanged := stats.skippedUnchanged + 1)
                else stats.(filesWritten := stats.filesWritten + 1, bytesWritten := stats.bytesWritten + |c.bytes|))
  {
    assert Get(WithParents(t, c.path, created), c.path) == Get(t, c.path);
  }

  lemma NextComponent(comps: Path, i: nat)
    requires i + 1 < |comps|
    ensures comps[..i + 2] == comps[..i + 1] + [comps[i + 1]] && Parent(comps[..i + 2]) == comps[..i + 1]
    ensures Covers(comps[..i + 1], Parent(comps))
  {
    assert |comps[..i + 1]| == |Parent(comps)| ==> comps[..i + 1] == Parent(comps);
  }

  /** The destination directory being rendered into. */
  class Destination {
    var nodes: Tree
    /** The mode `mkdir(0o755)` yields under the process umask. */
    const created: nat

    ghost predicate Valid()
      reads this
    {
      Rooted(nodes)
    }

    constructor (nodes: Tree, created: nat)
      requires Rooted(nodes)
      ensures Valid() && this.nodes == nodes && this.created == created
    {
      this.nodes := nodes;
      this.created := created;
    }

    /** Makes a directory where there is none, in the place of whatever was there. */
    method MakeDirectory(p: Path)
      requires Valid() && p != [] && IsDir(nodes, Parent(p)) && !IsDir(nodes, p)
      modifies this
      ensures Valid() && nodes == old(nodes)[p := Directory(created)]
    {
      PutRooted(nodes, p, Directory(created));
      nodes := nodes[p := Directory(created)];
    }

    /** Steps one component at a time and never through a non-directory. With
        `create`, missing components are made and non-directories replaced. */
    method WalkToParent(comps: Path, create: bool) returns (reached: bool)
      requires Valid() && comps != []
      modifies this
      ensures Valid() && (reached ==> IsDir(nodes, Parent(comps)))
      ensures create ==> reached && nodes == WithParents(old(nodes), comps, created)
      ensures !create ==> nodes == old(nodes) && (reached <==> IsDir(nodes, Parent(comps)))
    {
      var i := 0;
      ghost var start, here := nodes, comps[..1];
      while i < |comps| - 1
        invariant 0 <= i < |comps| && here == comps[..i + 1]
        invariant Valid() && IsDir(nodes, Parent(here))
        invariant nodes == if create then WithParents(start, here, created) else start
      {
        ghost var next := comps[..i + 2];
        NextComponent(comps, i);
        WithParentsStep(start, here, comps[i + 1], created);
        if !IsDir(nodes, comps[..i + 1]) {
          if !create {
            ParentNotReached(here, comps);
            return false;
          }
          MakeDirectory(comps[..i + 1]);
        }
        i, here := i + 1, next;
      }
      assert here == comps;
      reached := true;
    }

    lemma ParentNotReached(here: Path, comps: Path)
      requires Valid() && comps != [] && Covers(here, Parent(comps)) && !IsDir(nodes, here)
      ensures !IsDir(nodes, Parent(comps))
    {
      NothingBelowNonDirectory(nodes, here);
    }

    /** Makes `p`, whose parent is a directory, a directory with exactly `mode`. */
    method EnsureDirectory(p: Path, mode: nat)
      requires Valid() && p != [] && IsDir(nodes, Parent(p))
      modifies this
      ensures Valid() && nodes == old(nodes)[p := Directory(mode)]
    {
      PutRooted(nodes, p, Directory(mode));
      if !IsDir(nodes, p) {
        MakeDirectory(p);
      }
      nodes := nodes[p := Directory(mode)];
    }

    /** The names in a directory. */
    function Children(p: Path): (names: set<string>)
      reads this
      ensures forall n :: n in names <==> p + [n] in nodes
    {
      var names := set q | q in nodes && q != [] && Parent(q) == p :: q[|q| - 1];
      assert forall n :: p + [n] in nodes ==> Parent(p + [n]) == p && (p + [n])[|p|] == n;
      assert forall q :: q in nodes && q != [] && Parent(q) == p ==> q == p + [q[|q| - 1]];
      names
    }

    /** The subtree at `p`. */
    ghost function Subtree(p: Path): set<Path>
      reads this
    {
      set q | q in nodes && Covers(p, q)
    }

    /** Removes a subtree child by child; a directory is unlinked only once it is
        empty, and a missing name is left alone. */
    method RemoveRecursiveAt(p: Path)
      requires Valid() && p != []
      modifies this
      ensures Valid() && nodes == Without(old(nodes), p)
      decreases Subtree(p), 1
    {
      WithoutRooted(nodes, p);
      if IsDir(nodes, p) {
        EmptiedThenUnlinked(nodes, p);
        RemoveChildren(p);
        assert Children(p) == {};
      } else {
        UnlinkedNonDirectory(nodes, p);
      }
      nodes := nodes - {p};
    }

    /** Removes every child of the directory `p`. */
    method RemoveChildren(p: Path)
      requires Valid() && IsDir(nodes, p)
      modifies this
      ensures Valid() && nodes == Emptied(old(nodes), p)
      ensures Children(p) == {}
      decreases Subtree(p), 0
    {
      var names := Children(p);
      while names != {}
        invariant Valid() && IsDir(nodes, p)
        invariant Between(nodes, old(nodes), p)
        invariant Children(p) == names
        decreases names
      {
        var name :| name in names;
        SmallerSubtree(old(nodes), p, name);
        ChildRemoved(old(nodes), p, name);
        RemoveRecursiveAt(p + [name]);
        names := names - {name};
      }
      NoChildrenNothingBelow(p);
      EmptiedRooted(old(nodes), p);
    }

    /** Opaque clear. */
    method ClearDirectory(comps: Path)
      requires Valid() && comps != []
      modifies this
      ensures Valid() && nodes == Cleared(old(nodes), comps, created)
    {
      var _ := WalkToParent(comps, true);
      EnsureDirectory(comps, OPAQUE_MODE);
      RemoveChildren(comps);
    }

    /** Whiteout deletion. Where the walk stops early there is nothing to delete. */
    method RemoveValidatedTarget(comps: Path)
      requires Valid() && comps != []
      modifies this
      ensures Valid() && nodes == Without(old(nodes), comps)
    {
      var reached := WalkToParent(comps, false);
      if !reached {
        NothingBelowNonDirectory(nodes, Parent(comps));
        forall q | q in nodes ensures !Covers(comps, q) {
          AboveTransitive(Parent(comps), comps, comps);
        }
        return;
      }
      RemoveRecursiveAt(comps);
    }

    /** Creates `p` exclusively, copies the bytes, then sets mode and stamp. */
    method WriteFile(p: Path, mode: nat, mtime: U64, bytes: Bytes) returns (written: nat)
      requires Valid() && p != [] && p !in nodes && IsDir(nodes, Parent(p))
      modifies this
      ensures Valid() && nodes == old(nodes)[p := Regular(bytes, mode, Stamp(mtime))]
      ensures written == |bytes|
    {
      NothingBelowNonDirectory(nodes, p);
      PutRooted(nodes, p, Regular(bytes, mode, Stamp(mtime)));
      nodes := nodes[p := Regular(bytes, mode, Stamp(mtime))];
      written := |bytes|;
    }

    /** Writes a file entry unless the file is already there as it should be. */
    method ApplyFile(c: Content, stats: Stats) returns (counted: Stats)
      requires Valid() && c.FileContent? && c.path != []
      modifies this
      ensures Valid() && nodes == Applied(old(nodes), c, created)
      ensures counted == Counted(stats, old(nodes), c)
    {
      var p := c.path;
      FileOutcome(nodes, c, stats, created);
      var _ := WalkToParent(p, true);
      if p in nodes && nodes[p].Regular? && |nodes[p].bytes| == c.size && nodes[p].mtime == c.mtime {
        if nodes[p].bytes == c.bytes {
          return stats.(skippedUnchanged := stats.skippedUnchanged + 1);
        }
      }
      RemoveRecursiveAt(p);
      var written := WriteFile(p, c.mode, c.mtime, c.bytes);
      counted := stats.(bytesWritten := stats.bytesWritten + written, filesWritten := stats.filesWritten + 1);
    }

    method ApplySymlink(p: Path, target: string)
      requires Valid() && p != []
      modifies this
      ensures Valid() && nodes == Applied(old(nodes), LinkContent(p, target), created)
    {
      var _ := WalkToParent(p, true);
      RemoveRecursiveAt(p);
      NothingBelowNonDirectory(nodes, p);
      PutRooted(nodes, p, Link(target));
      nodes := nodes[p := Link(target)];
    }

    method ApplyContentEntry(c: Content, stats: Stats) returns (counted: Stats)
      requires Valid() && (!c.NoContent? ==> c.path != [])
      modifies this
      ensures Valid() && nodes == Applied(old(nodes), c, created)
      ensures counted == Counted(stats, old(nodes), c)
    {
      counted := stats;
      match c {
        case NoContent =>
        case DirContent(p, mode) =>
          var _ := WalkToParent(p, true);
          EnsureDirectory(p, mode);
        case FileContent(_, _, _, _, _) =>
          counted := ApplyFile(c, stats);
        case LinkContent(p, target) =>
          ApplySymlink(p, target);
          counted := stats.(symlinksWritten := stats.symlinksWritten + 1);
      }
    }

    /** Renders the whole delta, or rejects it before touching anything. */
    method ApplyDirDelta(stream: seq<TarEntry>, cap: nat) returns (r: Result<Stats, Reject>, ghost plan: Plan)
      requires Valid()
      modifies this
      ensures Valid()
      ensures r.Ok? <==> Accepted(stream, cap)
      ensures r.Err? ==> nodes == old(nodes)
      ensures r.Ok? ==> PlanOf(stream, plan)
      ensures r.Ok? ==>
                && nodes == Rendered(old(nodes), plan, stream, created)
                && r.value == RenderedStats(old(nodes), plan, stream, created)
    {
      var planned := PlanStream(stream, cap);
      if planned.Err? {
        plan := Plan([], [], []);
        return Err(planned.error), plan;
      }
      plan := planned.value;
      var entries, opaqueDirs, whiteouts := planned.value.entries, planned.value.opaqueDirs, planned.value.whiteoutTargets;
      PlanPathsNonEmpty(stream, plan);
      ClearOpaqueDirs(opaqueDirs);
      RemoveWhiteouts(whiteouts);
      var stats := ApplyContent(Contents(entries, stream),
                                Stats(0, 0, |whiteouts|, |opaqueDirs|, 0, 0));
      r := Ok(stats);
    }

    method ClearOpaqueDirs(dirs: seq<Path>)
      requires Valid() && NonRoot(dirs)
      modifies this
      ensures Valid() && nodes == ClearedAll(old(nodes), dirs, created)
    {
      for k := 0 to |dirs|
        invariant Valid() && nodes == ClearedAll(old(nodes), dirs[..k], created)
      {
        ClearDirectory(dirs[k]);
        assert dirs[..k + 1][..k] == dirs[..k];
      }
      assert dirs[..|dirs|] == dirs;
    }

    method RemoveWhiteouts(targets: seq<Path>)
      requires Valid() && NonRoot(targets)
      modifies this
      ensures Valid() && nodes == WithoutAll(old(nodes), targets)
    {
      for k := 0 to |targets|
        invariant Valid() && nodes == WithoutAll(old(nodes), targets[..k])
      {
        RemoveValidatedTarget(targets[k]);
        assert targets[..k + 1][..k] == targets[..k];
      }
      assert targets[..|targets|] == targets;
    }

    method ApplyContent(cs: seq<Content>, stats: Stats) returns (counted: Stats)
      requires Valid() && ContentPathsOk(cs)
      modifies this
      ensures Valid() && nodes == AppliedAll(old(nodes), cs, created)
      ensures counted == CountedAll(stats, old(nodes), cs, created)
    {
      counted := stats;
      for k := 0 to |cs|
        invariant Valid() && nodes == AppliedAll(old(nodes), cs[..k], created)
        invariant counted == CountedAll(stats, old(nodes), cs[..k], created)
      {
        counted := ApplyContentEntry(cs[k], counted);
        assert cs[..k + 1][..k] == cs[..k];
      }
      assert cs[..|cs|] == cs;
    }

    lemma SmallerSubtree(before: Tree, p: Path, name: string)
      requires p in before && Between(nodes, before, p)
      ensures Subtree(p + [name]) < set q | q in before && Covers(p, q)
    {
      var child := p + [name];
      assert Above(p, child) && !Covers(child, p);
      forall q | Covers(child, q) ensures Above(p, q) {
        AboveTransitive(p, child, q);
      }
      assert p !in Subtree(child) && p in set q | q in before && Covers(p, q);
    }

    /** Removing one child keeps what is outside the directory, and the other names. */
    lemma ChildRemoved(before: Tree, p: Path, name: string)
      requires Valid() && IsDir(nodes, p) && Between(nodes, before, p)
      ensures Between(Without(nodes, p + [name]), before, p)
      ensures IsDir(Without(nodes, p + [name]), p)
      ensures forall n :: p + [n] in Without(nodes, p + [name]) <==> n != name && p + [n] in nodes
    {
      var child := p + [name];
      assert Above(p, child);
      forall q | Covers(child, q) ensures Above(p, q) {
        AboveTransitive(p, child, q);
      }
      forall n: string ensures Covers(child, p + [n]) <==> n == name {
        assert (p + [n])[|p|] == n && child[|p|] == name;
      }
    }

    lemma NoChildrenNothingBelow(p: Path)
      requires Valid() && Children(p) == {}
      ensures forall q :: q in nodes ==> !Above(p, q)
    {
      forall q | q in nodes ensures !Above(p, q) {
        if Above(p, q) {
          var child := p + [q[|p|]];
          assert child == q || Above(child, q) by {
            assert child == q[..|p| + 1];
          }
          assert q[|p|] !in Children(p);
          if child != q { AncestorsAreDirs(nodes, child, q); }
        }
      }
    }
  }

  /** `now` is `before` with only nodes below `p` removed. */
  ghost predicate Between(now: Tree, before: Tree, p: Path) {
    && now.Keys <= before.Keys
    && (forall q :: q in now ==> now[q] == before[q])
    && (forall q :: q in before && !Above(p, q) ==> q in now)
  }
}
