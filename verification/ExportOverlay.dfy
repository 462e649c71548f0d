/** The overlay that a delta denotes, path by path, and the theorems that the
    three passes render exactly it. */
module ExportOverlay {
  import opened Orders
  import opened DestTree
  import opened ExportPlan
  import opened ExportApply
  import opened ExportEffect

  // ---- markers ---------------------------------------------------------------

  ghost predicate AnyAbove(paths: seq<Path>, q: Path) {
    exists i :: 0 <= i < |paths| && Above(paths[i], q)
  }

  ghost predicate AnyBelow(paths: seq<Path>, q: Path) {
    exists i :: 0 <= i < |paths| && Above(q, paths[i])
  }

  ghost predicate AnyCovers(paths: seq<Path>, q: Path) {
    exists i :: 0 <= i < |paths| && Covers(paths[i], q)
  }

  /** What the markers leave at `q`, where `x` was: a whiteout at or above removes
      it; an opaque directory is an empty directory with its fixed mode; the way to
      one is made of directories, kept where they were and not masked; below one
      everything else is masked. */
  ghost function Base(dirs: seq<Path>, targets: seq<Path>, q: Path, x: Option<Node>, created: nat): Option<Node> {
    if AnyCovers(targets, q) then None
    else if q in dirs then Some(Directory(OPAQUE_MODE))
    else if AnyBelow(dirs, q) then
      if HoldsDir(x) && !AnyAbove(dirs, q) then x else Some(Directory(created))
    else if AnyAbove(dirs, q) then None
    else x
  }

  lemma {:induction false} ClearsDenote(dirs: seq<Path>, q: Path, x: Option<Node>, created: nat)
    requires SortedBy(PathLe, dirs)
    ensures Run(ClearActs(dirs, q), x, created) == Base(dirs, [], q, x, created)
  {
    if dirs != [] {
      var before, d := dirs[..|dirs| - 1], dirs[|dirs| - 1];
      SortedPrefix(dirs);
      ClearsDenote(before, q, x, created);
      assert ClearActs(dirs, q)[..|dirs| - 1] == ClearActs(before, q);
      assert dirs == before + [d];
      NothingEarlierBelow(before, d, dirs);
      ClearDenotes(before, d, dirs, q, x, created);
    }
  }

  lemma SortedPrefix(dirs: seq<Path>)
    requires SortedBy(PathLe, dirs) && dirs != []
    ensures SortedBy(PathLe, dirs[..|dirs| - 1])
  {
    var before := dirs[..|dirs| - 1];
    forall i, j | 0 <= i < j < |before| ensures PathLe(before[i], before[j]) {
      assert PathLe(dirs[i], dirs[j]);
    }
  }

  lemma ClearDenotes(before: seq<Path>, d: Path, dirs: seq<Path>, q: Path, x: Option<Node>, created: nat)
    requires dirs == before + [d] && !AnyBelow(before, d)
    ensures Base(dirs, [], q, x, created) == Perform(ClearAct(d, q), Base(before, [], q, x, created), created)
  {
    AnyExtended(before, d, dirs, q);
    assert !AnyCovers([], q);
    assert q in dirs <==> q in before || q == d;
    if Covers(d, q) {
      NotBelowCovered(before, d, q);
    }
  }

  lemma NotBelowCovered(before: seq<Path>, d: Path, q: Path)
    requires Covers(d, q) && !AnyBelow(before, d)
    ensures !AnyBelow(before, q) && (q in before ==> q == d) && !Above(q, d)
  {
  }

  lemma NothingEarlierBelow(before: seq<Path>, d: Path, dirs: seq<Path>)
    requires SortedBy(PathLe, dirs) && dirs == before + [d]
    ensures !AnyBelow(before, d)
  {
    if AnyBelow(before, d) {
      var i :| 0 <= i < |before| && Above(d, before[i]);
      PrefixSortsFirst(d, before[i]);
      assert dirs[i] == before[i] && PathLe(dirs[i], dirs[|before|]);
      PathLeTotal(d, before[i]);
    }
  }

  lemma AnyExtended(before: seq<Path>, d: Path, dirs: seq<Path>, q: Path)
    requires dirs == before + [d]
    ensures AnyAbove(dirs, q) <==> AnyAbove(before, q) || Above(d, q)
    ensures AnyBelow(dirs, q) <==> AnyBelow(before, q) || Above(q, d)
    ensures AnyCovers(dirs, q) <==> AnyCovers(before, q) || Covers(d, q)
  {
    assert dirs[|before|] == d;
    assert forall i :: 0 <= i < |before| ==> dirs[i] == before[i];
  }

  lemma {:induction false} RemovalsDenote(targets: seq<Path>, q: Path, x: Option<Node>, created: nat)
    ensures Run(RemoveActs(targets, q), x, created) == if AnyCovers(targets, q) then None else x
  {
    if targets != [] {
      var before, w := targets[..|targets| - 1], targets[|targets| - 1];
      RemovalsDenote(before, q, x, created);
      assert RemoveActs(targets, q)[..|targets| - 1] == RemoveActs(before, q);
      assert targets == before + [w];
      AnyExtended(before, w, targets, q);
    }
  }

  lemma MarkersDenote(dirs: seq<Path>, targets: seq<Path>, q: Path, x: Option<Node>, created: nat)
    requires SortedBy(PathLe, dirs)
    ensures Run(ClearActs(dirs, q) + RemoveActs(targets, q), x, created) == Base(dirs, targets, q, x, created)
  {
    RunConcat(ClearActs(dirs, q), RemoveActs(targets, q), x, created);
    ClearsDenote(dirs, q, x, created);
    RemovalsDenote(targets, q, Base(dirs, [], q, x, created), created);
    assert !AnyCovers([], q);
  }

  // ---- content ---------------------------------------------------------------

  predicate At(c: Content, q: Path) {
    !c.NoContent? && c.path == q
  }

  /** `c` is a file or symlink above `q`. */
  predicate Blocks(c: Content, q: Path) {
    (c.FileContent? || c.LinkContent?) && Above(c.path, q)
  }

  /** `c` lies below `q`. */
  predicate Implies(c: Content, q: Path) {
    !c.NoContent? && Above(q, c.path)
  }

  /** A delta whose content paths are distinct and of which no file or symlink path
      is above another content path. */
  ghost predicate WellFormed(cs: seq<Content>) {
    forall i, j :: 0 <= i < |cs| && 0 <= j < |cs| && i != j && !cs[j].NoContent? ==>
      !At(cs[i], cs[j].path) && !Blocks(cs[i], cs[j].path)
  }

  ghost predicate AnyAt(cs: seq<Content>, q: Path) {
    exists i :: 0 <= i < |cs| && At(cs[i], q)
  }

  ghost predicate AnyBlocks(cs: seq<Content>, q: Path) {
    exists i :: 0 <= i < |cs| && Blocks(cs[i], q)
  }

  ghost predicate AnyImplies(cs: seq<Content>, q: Path) {
    exists i :: 0 <= i < |cs| && Implies(cs[i], q)
  }

  /** The node a content entry puts at its own path, where `x` was. */
  function EntryNode(c: Content, x: Option<Node>): Option<Node>
    requires !c.NoContent?
  {
    match c
    case DirContent(_, mode) => Some(Directory(mode))
    case FileContent(_, _, _, _, _) => if Skips(x, c) then x else Some(Written(c))
    case LinkContent(_, target) => Some(Link(target))
  }

  /** What the content of a well-formed delta makes of `base` at `q`: an entry wins at
      its path, nothing survives below a file or symlink entry, and the way to an
      entry is made of directories. */
  ghost function WithContent(cs: seq<Content>, q: Path, base: Option<Node>, created: nat): Option<Node> {
    if i :| 0 <= i < |cs| && At(cs[i], q) then EntryNode(cs[i], base)
    else if AnyBlocks(cs, q) then None
    else if AnyImplies(cs, q) then if HoldsDir(base) then base else Some(Directory(created))
    else base
  }

  /** The overlay that a delta denotes: its content over what its markers leave. */
  ghost function Overlay(dirs: seq<Path>, targets: seq<Path>, cs: seq<Content>, q: Path, x: Option<Node>, created: nat)
    : Option<Node>
  {
    WithContent(cs, q, Base(dirs, targets, q, x, created), created)
  }

  lemma {:induction false} KeepsAndMakes(acts: seq<Act>, x: Option<Node>, created: nat)
    requires forall i :: 0 <= i < |acts| ==> acts[i].Keep? || acts[i].MakeDir?
    ensures Run(acts, x, created) == if MakeDir in acts && !HoldsDir(x) then Some(Directory(created)) else x
  {
    if acts != [] {
      KeepsAndMakes(acts[..|acts| - 1], x, created);
      assert acts == acts[..|acts| - 1] + [acts[|acts| - 1]];
    }
  }

  lemma {:induction false} KeepsAndRemovals(acts: seq<Act>, x: Option<Node>, created: nat)
    requires forall i :: 0 <= i < |acts| ==> acts[i].Keep? || acts[i] == Put(None)
    ensures Run(acts, x, created) == if Put(None) in acts then None else x
  {
    if acts != [] {
      KeepsAndRemovals(acts[..|acts| - 1], x, created);
      assert acts == acts[..|acts| - 1] + [acts[|acts| - 1]];
    }
  }

  /** At the path of an entry of a well-formed delta, no other entry does anything
      but make directories, and only where the entry is one. */
  lemma OthersStandBack(cs: seq<Content>, i: nat, j: nat)
    requires WellFormed(cs) && i < |cs| && j < |cs| && i != j && !cs[i].NoContent?
    ensures var a := ContentAct(cs[j], cs[i].path);
            a.Keep? || (a.MakeDir? && cs[i].DirContent?)
  {
    var q := cs[i].path;
    assert !At(cs[j], q) && !Blocks(cs[j], q);
    if Implies(cs[j], q) {
      assert !Blocks(cs[i], cs[j].path);
    }
  }

  lemma EntryWins(cs: seq<Content>, i: nat, x: Option<Node>, created: nat)
    requires WellFormed(cs) && i < |cs| && !cs[i].NoContent?
    ensures Run(ContentActs(cs, cs[i].path), x, created) == EntryNode(cs[i], x)
    ensures cs[i].FileContent? ==> Run(ContentActs(cs[..i], cs[i].path), x, created) == x
  {
    var c, acts := cs[i], ContentActs(cs, cs[i].path);
    forall j | 0 <= j < |cs| && j != i ensures acts[j].Keep? || (acts[j].MakeDir? && c.DirContent?) {
      OthersStandBack(cs, i, j);
    }
    assert acts == acts[..i] + [acts[i]] + acts[i + 1..];
    assert ContentActs(cs[..i], c.path) == acts[..i];
    RunConcat(acts[..i] + [acts[i]], acts[i + 1..], x, created);
    KeepsAndMakes(acts[..i], x, created);
    assert (acts[..i] + [acts[i]])[..i] == acts[..i];
    KeepsAndMakes(acts[i + 1..], Run(acts[..i] + [acts[i]], x, created), created);
  }

  lemma NoEntryAt(cs: seq<Content>, q: Path, x: Option<Node>, created: nat)
    requires WellFormed(cs) && !AnyAt(cs, q)
    ensures Run(ContentActs(cs, q), x, created) ==
            if AnyBlocks(cs, q) then None
            else if AnyImplies(cs, q) && !HoldsDir(x) then Some(Directory(created))
            else x
  {
    var acts := ContentActs(cs, q);
    if i :| 0 <= i < |cs| && Blocks(cs[i], q) {
      forall j | 0 <= j < |cs| ensures acts[j].Keep? || acts[j] == Put(None) {
        if Implies(cs[j], q) {
          AboveTransitive(cs[i].path, q, cs[j].path);
          assert Blocks(cs[i], cs[j].path);
        }
      }
      KeepsAndRemovals(acts, x, created);
      assert acts[i] == Put(None);
    } else {
      KeepsAndMakes(acts, x, created);
      if AnyImplies(cs, q) {
        var j :| 0 <= j < |cs| && Implies(cs[j], q);
        assert acts[j] == MakeDir;
      }
    }
  }

  lemma ContentDenotes(cs: seq<Content>, q: Path, base: Option<Node>, created: nat)
    requires WellFormed(cs)
    ensures Run(ContentActs(cs, q), base, created) == WithContent(cs, q, base, created)
  {
    if AnyAt(cs, q) {
      forall i | 0 <= i < |cs| && At(cs[i], q) ensures Run(ContentActs(cs, q), base, created) == EntryNode(cs[i], base) {
        EntryWins(cs, i, base, created);
      }
    } else {
      NoEntryAt(cs, q, base, created);
    }
  }

  /** Overlay refinement: for every well-formed delta and every destination, the
      three passes leave at each path exactly what the overlay gives there. */
  lemma PassesRenderOverlay(t: Tree, dirs: seq<Path>, targets: seq<Path>, cs: seq<Content>, q: Path, created: nat)
    requires Rooted(t) && NonRoot(dirs) && NonRoot(targets) && ContentPathsOk(cs)
    requires SortedBy(PathLe, dirs) && WellFormed(cs)
    ensures Get(ApplyPasses(t, dirs, targets, cs, created), q) == Overlay(dirs, targets, cs, q, Get(t, q), created)
  {
    var x := Get(t, q);
    Locality(t, dirs, targets, cs, q, created);
    MarkersDenote(dirs, targets, q, x, created);
    RunConcat(ClearActs(dirs, q) + RemoveActs(targets, q), ContentActs(cs, q), x, created);
    ContentDenotes(cs, q, Base(dirs, targets, q, x, created), created);
  }

  lemma MarkerOrderIsInvisible(a: seq<Path>, b: seq<Path>, q: Path)
    requires multiset(a) == multiset(b)
    ensures AnyAbove(a, q) <==> AnyAbove(b, q)
    ensures AnyBelow(a, q) <==> AnyBelow(b, q)
    ensures AnyCovers(a, q) <==> AnyCovers(b, q)
    ensures q in a <==> q in b
  {
    SameMembers(a, b);
    SameMembers(b, a);
    assert q in a <==> q in multiset(a);
    assert q in b <==> q in multiset(b);
  }

  lemma SameMembers(a: seq<Path>, b: seq<Path>)
    requires multiset(a) == multiset(b)
    ensures forall i :: 0 <= i < |a| ==> exists j :: 0 <= j < |b| && b[j] == a[i]
  {
    forall i | 0 <= i < |a| ensures exists j :: 0 <= j < |b| && b[j] == a[i] {
      assert a[i] in multiset(a);
      assert a[i] in multiset(b);
      assert a[i] in b;
    }
  }

  /** The same for an accepted stream, in terms of its entries alone: the overlay
      does not depend on the order in which the stream lists its markers. */
  lemma AcceptedStreamRendersOverlay(stream: seq<TarEntry>, plan: Plan, t: Tree, q: Path, created: nat)
    requires PlanOf(stream, plan) && Rooted(t)
    requires WellFormed(Contents(plan.entries, stream))
    ensures Get(Rendered(t, plan, stream, created), q) ==
            Overlay(OpaqueDirs(plan.entries), Whiteouts(plan.entries), Contents(plan.entries, stream),
                    q, Get(t, q), created)
  {
    PlanPathsNonEmpty(stream, plan);
    PassesRenderOverlay(t, plan.opaqueDirs, plan.whiteoutTargets, Contents(plan.entries, stream), q, created);
    SameBase(plan.opaqueDirs, OpaqueDirs(plan.entries), plan.whiteoutTargets, Whiteouts(plan.entries), q, Get(t, q), created);
  }

  lemma SameBase(
    dirs: seq<Path>, dirs': seq<Path>, targets: seq<Path>, targets': seq<Path>, q: Path, x: Option<Node>, created: nat)
    requires multiset(dirs) == multiset(dirs') && multiset(targets) == multiset(targets')
    ensures Base(dirs, targets, q, x, created) == Base(dirs', targets', q, x, created)
  {
    MarkerOrderIsInvisible(dirs, dirs', q);
    MarkerOrderIsInvisible(targets, targets', q);
  }

  // ---- every accepted delta ------------------------------------------------------

  /** `c` alone settles what is at `q`: it is at `q`, or a file or symlink above it. */
  predicate Decides(c: Content, q: Path) {
    At(c, q) || Blocks(c, q)
  }

  /** The last entry that decides `q`. */
  function LastDeciding(cs: seq<Content>, q: Path): (r: Option<nat>)
    ensures r.Some? ==> r.value < |cs| && Decides(cs[r.value], q)
    ensures forall j :: 0 <= j < |cs| && (r.None? || j > r.value) ==> !Decides(cs[j], q)
  {
    if cs == [] then None
    else if Decides(cs[|cs| - 1], q) then Some(|cs| - 1)
    else LastDeciding(cs[..|cs| - 1], q)
  }

  /** A directory at `x` if it holds none and one is implied. */
  function DirectoryIf(implied: bool, x: Option<Node>, created: nat): Option<Node> {
    if implied && !HoldsDir(x) then Some(Directory(created)) else x
  }

  /** What the content of any delta makes of `base` at `q`: the last entry at or above
      `q` decides, as its own node or as nothing; a later entry below `q` then makes a
      directory of it. Only to see whether a file is skipped do earlier entries matter. */
  ghost function Settled(cs: seq<Content>, q: Path, base: Option<Node>, created: nat): Option<Node>
    decreases |cs|
  {
    var last := LastDeciding(cs, q);
    if last.None? then DirectoryIf(AnyImplies(cs, q), base, created)
    else
      var i := last.value;
      var node := if At(cs[i], q) then EntryNode(cs[i], Settled(cs[..i], q, base, created)) else None;
      DirectoryIf(AnyImplies(cs[i + 1..], q), node, created)
  }

  lemma ImpliesExtended(before: seq<Content>, c: Content, cs: seq<Content>, q: Path)
    requires cs == before + [c]
    ensures AnyImplies(cs, q) <==> AnyImplies(before, q) || Implies(c, q)
  {
    assert cs[|before|] == c;
    assert forall i :: 0 <= i < |before| ==> cs[i] == before[i];
  }

  /** One more entry that does not decide `q`. */
  lemma SettledExtended(before: seq<Content>, c: Content, cs: seq<Content>, q: Path, base: Option<Node>, created: nat)
    requires cs == before + [c] && !Decides(c, q)
    ensures Settled(cs, q, base, created) == DirectoryIf(Implies(c, q), Settled(before, q, base, created), created)
  {
    assert cs[..|cs| - 1] == before;
    var last := LastDeciding(before, q);
    assert LastDeciding(cs, q) == last;
    if last.None? {
      ImpliesExtended(before, c, cs, q);
    } else {
      AroundDeciding(before, c, cs, last.value);
      ImpliesExtended(before[last.value + 1..], c, cs[last.value + 1..], q);
    }
  }

  lemma AroundDeciding(before: seq<Content>, c: Content, cs: seq<Content>, i: nat)
    requires cs == before + [c] && i < |before|
    ensures cs[..i] == before[..i] && cs[i] == before[i] && cs[i + 1..] == before[i + 1..] + [c]
  {
  }

  lemma SettledByLast(before: seq<Content>, c: Content, cs: seq<Content>, q: Path, base: Option<Node>, created: nat)
    requires cs == before + [c] && Decides(c, q)
    ensures Settled(cs, q, base, created) ==
            if At(c, q) then EntryNode(c, Settled(before, q, base, created)) else None
  {
    assert cs[..|cs| - 1] == before && cs[|cs|..] == [];
    assert LastDeciding(cs, q) == Some(|before|);
  }

  lemma ActOfEntry(c: Content, q: Path, x: Option<Node>, created: nat)
    ensures Perform(ContentAct(c, q), x, created) ==
            if At(c, q) then EntryNode(c, x)
            else if Blocks(c, q) then None
            else DirectoryIf(Implies(c, q), x, created)
  {
    assert !c.NoContent? && Above(q, c.path) ==> !Above(c.path, q);
  }

  lemma {:induction false} ContentSettles(cs: seq<Content>, q: Path, base: Option<Node>, created: nat)
    ensures Run(ContentActs(cs, q), base, created) == Settled(cs, q, base, created)
  {
    if cs != [] {
      var before, c := cs[..|cs| - 1], cs[|cs| - 1];
      ContentSettles(before, q, base, created);
      assert ContentActs(cs, q)[..|cs| - 1] == ContentActs(before, q);
      assert cs == before + [c];
      ActOfEntry(c, q, Settled(before, q, base, created), created);
      if Decides(c, q) {
        SettledByLast(before, c, cs, q, base, created);
      } else {
        SettledExtended(before, c, cs, q, base, created);
      }
    }
  }

  /** The lookup for every delta, well-formed or not: at each path of every destination
      the three passes leave what the last deciding entry, the directories implied
      after it, and the markers settle. */
  lemma PassesSettle(t: Tree, dirs: seq<Path>, targets: seq<Path>, cs: seq<Content>, q: Path, created: nat)
    requires Rooted(t) && NonRoot(dirs) && NonRoot(targets) && ContentPathsOk(cs) && SortedBy(PathLe, dirs)
    ensures Get(ApplyPasses(t, dirs, targets, cs, created), q) ==
            Settled(cs, q, Base(dirs, targets, q, Get(t, q), created), created)
  {
    var x := Get(t, q);
    Locality(t, dirs, targets, cs, q, created);
    MarkersDenote(dirs, targets, q, x, created);
    RunConcat(ClearActs(dirs, q) + RemoveActs(targets, q), ContentActs(cs, q), x, created);
    ContentSettles(cs, q, Base(dirs, targets, q, x, created), created);
  }

  /** The same for an accepted stream, in terms of its entries alone. */
  lemma AcceptedStreamSettles(stream: seq<TarEntry>, plan: Plan, t: Tree, q: Path, created: nat)
    requires PlanOf(stream, plan) && Rooted(t)
    ensures Get(Rendered(t, plan, stream, created), q) ==
            Settled(Contents(plan.entries, stream), q,
                    Base(OpaqueDirs(plan.entries), Whiteouts(plan.entries), q, Get(t, q), created), created)
  {
    PlanPathsNonEmpty(stream, plan);
    PassesSettle(t, plan.opaqueDirs, plan.whiteoutTargets, Contents(plan.entries, stream), q, created);
    SameBase(plan.opaqueDirs, OpaqueDirs(plan.entries), plan.whiteoutTargets, Whiteouts(plan.entries), q, Get(t, q), created);
  }

  /** A delta that is not well-formed and does not render its overlay: a file, then an
      entry below it. The overlay has the file, the destination a directory. */
  lemma EntryBelowFileIsNoOverlay(t: Tree, file: FileData, below: Content, created: nat)
    requires Rooted(t) && file.path != [] && Implies(below, file.path)
    ensures var cs := [file, below];
            && Get(ApplyPasses(t, [], [], cs, created), file.path) == Some(Directory(created))
            && Overlay([], [], cs, file.path, Get(t, file.path), created) != Some(Directory(created))
  {
    var q, x := file.path, Get(t, file.path);
    PassesSettle(t, [], [], [file, below], q, created);
    NoMarkers(q, x, created);
    DirectorySettlesOnFile(file, below, x, created);
    OverlayHasFile(file, below, x, created);
  }

  lemma DirectorySettlesOnFile(file: FileData, below: Content, x: Option<Node>, created: nat)
    requires Implies(below, file.path)
    ensures Settled([file, below], file.path, x, created) == Some(Directory(created))
  {
    SettledByLast([], file, [file], file.path, x, created);
    SettledExtended([file], below, [file, below], file.path, x, created);
  }

  lemma NoMarkers(q: Path, x: Option<Node>, created: nat)
    ensures Base([], [], q, x, created) == x
  {
    assert !AnyCovers([], q) && !AnyBelow([], q) && !AnyAbove([], q);
  }

  lemma OverlayHasFile(file: FileData, below: Content, x: Option<Node>, created: nat)
    requires Implies(below, file.path)
    ensures !HoldsDir(Overlay([], [], [file, below], file.path, x, created))
  {
    NoMarkers(file.path, x, created);
    var cs: seq<Content> := [file, below];
    assert At(cs[0], file.path) && !At(cs[1], file.path);
    assert forall i :: 0 <= i < |cs| && At(cs[i], file.path) ==> i == 0;
  }

  /** For instance the file `a`, then the file `a/b`. */
  lemma FileAboveFileIsNoOverlay(t: Tree, created: nat)
    requires Rooted(t)
    ensures var cs := [FileContent(["a"], 420, 0, 0, []), FileContent(["a", "b"], 420, 0, 0, [])];
            Get(ApplyPasses(t, [], [], cs, created), ["a"]) != Overlay([], [], cs, ["a"], Get(t, ["a"]), created)
  {
    var below: Content := FileContent(["a", "b"], 420, 0, 0, []);
    assert Above(["a"], below.path) by { assert ["a"] == ["a", "b"][..1]; }
    EntryBelowFileIsNoOverlay(t, FileContent(["a"], 420, 0, 0, []), below, created);
  }

  // ---- exactly when the overlay is rendered --------------------------------------------

  /** No two content entries have the same path, so that the overlay names one entry. */
  ghost predicate DistinctPaths(cs: seq<Content>) {
    forall i, j :: 0 <= i < j < |cs| && !cs[i].NoContent? && !cs[j].NoContent? ==> cs[i].path != cs[j].path
  }

  /** Nothing below a file or symlink entry belongs to the delta's own entries. */
  lemma OverlayAtEntry(cs: seq<Content>, i: nat, base: Option<Node>, created: nat)
    requires DistinctPaths(cs) && i < |cs| && !cs[i].NoContent?
    ensures WithContent(cs, cs[i].path, base, created) == EntryNode(cs[i], base)
  {
    assert At(cs[i], cs[i].path);
    forall k | 0 <= k < |cs| && k != i ensures !At(cs[k], cs[i].path) {
      assert !cs[k].NoContent? ==> cs[k].path != cs[i].path;
    }
  }

  /** At the path of an entry, the last deciding entry is itself or a later one above it. */
  lemma DecidedAtEntry(cs: seq<Content>, i: nat) returns (last: nat)
    requires DistinctPaths(cs) && i < |cs| && !cs[i].NoContent?
    ensures i <= last < |cs| && LastDeciding(cs, cs[i].path) == Some(last)
    ensures At(cs[last], cs[i].path) <==> last == i
  {
    assert Decides(cs[i], cs[i].path);
    last := LastDeciding(cs, cs[i].path).value;
    if i < last {
      assert cs[i].path != cs[last].path;
    }
  }

  lemma ImpliedAfter(cs: seq<Content>, last: nat, q: Path, k: nat)
    requires last < k < |cs| && Implies(cs[k], q)
    ensures AnyImplies(cs[last + 1..], q)
  {
    assert cs[last + 1..][k - last - 1] == cs[k];
  }

  /** A file or symlink with a later entry below it is no longer there at the end. */
  lemma EntryBelowLater(cs: seq<Content>, i: nat, j: nat, base: Option<Node>, created: nat)
    requires DistinctPaths(cs) && i < j < |cs| && !cs[j].NoContent? && Blocks(cs[i], cs[j].path)
    ensures Settled(cs, cs[i].path, base, created) != WithContent(cs, cs[i].path, base, created)
  {
    var q := cs[i].path;
    OverlayAtEntry(cs, i, base, created);
    var last := DecidedAtEntry(cs, i);
    if last == i {
      ImpliedAfter(cs, i, q, j);
    }
  }

  /** An entry with a later file or symlink above it is gone at the end, unless a still
      later entry below it makes a directory there; but then the file is gone. */
  lemma EntryAboveLater(cs: seq<Content>, i: nat, j: nat) returns (q: Path)
    requires DistinctPaths(cs) && j < i < |cs| && !cs[j].NoContent? && Blocks(cs[i], cs[j].path)
    ensures forall base, created :: Settled(cs, q, base, created) != WithContent(cs, q, base, created)
  {
    var last := DecidedAtEntry(cs, j);
    q := cs[j].path;
    assert Decides(cs[i], q) && last != j;
    if AnyImplies(cs[last + 1..], q) {
      var k :| 0 <= k < |cs[last + 1..]| && Implies(cs[last + 1..][k], q);
      var m := last + 1 + k;
      assert cs[last + 1..][k] == cs[m];
      assert i <= last;
      AboveTransitive(cs[i].path, q, cs[m].path);
      q := cs[i].path;
      forall base, created ensures Settled(cs, q, base, created) != WithContent(cs, q, base, created) {
        EntryBelowLater(cs, i, m, base, created);
      }
    } else {
      forall base, created ensures Settled(cs, q, base, created) != WithContent(cs, q, base, created) {
        OverlayAtEntry(cs, j, base, created);
      }
    }
  }

  /** Entries that collide are not rendered as their overlay at some path, whatever the
      destination and the markers. */
  lemma CollisionShows(cs: seq<Content>) returns (q: Path)
    requires DistinctPaths(cs) && !WellFormed(cs)
    ensures forall base, created :: Settled(cs, q, base, created) != WithContent(cs, q, base, created)
  {
    var i, j :| 0 <= i < |cs| && 0 <= j < |cs| && i != j && !cs[j].NoContent? &&
                (At(cs[i], cs[j].path) || Blocks(cs[i], cs[j].path));
    assert !cs[i].NoContent? ==> cs[i].path != cs[j].path;
    if i < j {
      q := cs[i].path;
      forall base, created ensures Settled(cs, q, base, created) != WithContent(cs, q, base, created) {
        EntryBelowLater(cs, i, j, base, created);
      }
    } else {
      q := EntryAboveLater(cs, i, j);
    }
  }

  /** The exact condition for the overlay law: a delta with distinct content paths leaves
      its order-free overlay at every path if and only if no file or symlink path is above
      another content path. This holds of every destination and whatever the markers. */
  lemma OverlayExactly(t: Tree, dirs: seq<Path>, targets: seq<Path>, cs: seq<Content>, created: nat)
    requires Rooted(t) && NonRoot(dirs) && NonRoot(targets) && ContentPathsOk(cs) && SortedBy(PathLe, dirs)
    requires DistinctPaths(cs)
    ensures (forall q :: Get(ApplyPasses(t, dirs, targets, cs, created), q) ==
                         Overlay(dirs, targets, cs, q, Get(t, q), created)) <==>
            WellFormed(cs)
  {
    if WellFormed(cs) {
      forall q: Path ensures Get(ApplyPasses(t, dirs, targets, cs, created), q) ==
                             Overlay(dirs, targets, cs, q, Get(t, q), created) {
        PassesRenderOverlay(t, dirs, targets, cs, q, created);
      }
    } else {
      var q := CollisionShows(cs);
      PassesSettle(t, dirs, targets, cs, q, created);
      assert Get(ApplyPasses(t, dirs, targets, cs, created), q) != Overlay(dirs, targets, cs, q, Get(t, q), created);
    }
  }

  /** The same for an accepted stream, in terms of its entries alone. */
  lemma AcceptedStreamIsOverlayExactly(stream: seq<TarEntry>, plan: Plan, t: Tree, created: nat)
    requires PlanOf(stream, plan) && Rooted(t) && DistinctPaths(Contents(plan.entries, stream))
    ensures var dirs, targets, cs := OpaqueDirs(plan.entries), Whiteouts(plan.entries), Contents(plan.entries, stream);
            (forall q :: Get(Rendered(t, plan, stream, created), q) == Overlay(dirs, targets, cs, q, Get(t, q), created)) <==>
            WellFormed(cs)
  {
    var dirs, targets, cs := OpaqueDirs(plan.entries), Whiteouts(plan.entries), Contents(plan.entries, stream);
    PlanPathsNonEmpty(stream, plan);
    OverlayExactly(t, plan.opaqueDirs, plan.whiteoutTargets, cs, created);
    forall q ensures Overlay(plan.opaqueDirs, plan.whiteoutTargets, cs, q, Get(t, q), created) ==
                     Overlay(dirs, targets, cs, q, Get(t, q), created) {
      SameBase(plan.opaqueDirs, dirs, plan.whiteoutTargets, targets, q, Get(t, q), created);
    }
  }

  // ---- winners -----------------------------------------------------------------

  /** A later entry that takes the place of what is at `p`. */
  predicate Replaces(c: Content, p: Path) {
    At(c, p) || Blocks(c, p) || Implies(c, p)
  }

  /** The acts at `q` around those of one entry. */
  lemma ActsSplit(dirs: seq<Path>, targets: seq<Path>, cs: seq<Content>, i: nat, q: Path)
    requires i < |cs|
    ensures Acts(dirs, targets, cs, q) ==
            Acts(dirs, targets, cs[..i], q) + [ContentAct(cs[i], q)] + ContentActs(cs[i + 1..], q)
  {
    var markers, content := ClearActs(dirs, q) + RemoveActs(targets, q), ContentActs(cs, q);
    assert content == ContentActs(cs[..i], q) + [ContentAct(cs[i], q)] + ContentActs(cs[i + 1..], q);
  }

  lemma {:induction false} OneAct(before: seq<Act>, a: Act, x: Option<Node>, created: nat)
    ensures Run(before + [a], x, created) == Perform(a, Run(before, x, created), created)
  {
    assert (before + [a])[..|before|] == before;
  }

  /** The `i`th entry finds its file unchanged. */
  ghost predicate SkippedAt(t: Tree, cs: seq<Content>, i: nat, created: nat)
    requires i < |cs|
  {
    cs[i].FileContent? ==> Skips(Get(AppliedAll(t, cs[..i], created), cs[i].path), cs[i])
  }

  /** Winners survive, for every accepted delta, well-formed or not: a file entry
      that no later entry replaces is there at the end with its bytes and stamp,
      whatever markers the delta carries and whether it was written or skipped; its
      mode is the entry's unless it was skipped. */
  lemma WinnersSurvive(
    t: Tree, dirs: seq<Path>, targets: seq<Path>, cs: seq<Content>, i: nat, created: nat)
    requires Rooted(t) && NonRoot(dirs) && NonRoot(targets) && ContentPathsOk(cs)
    requires i < |cs| && cs[i].FileContent?
    requires forall j :: i < j < |cs| ==> !Replaces(cs[j], cs[i].path)
    ensures var node := Get(ApplyPasses(t, dirs, targets, cs, created), cs[i].path);
            && node.Some? && node.value.Regular?
            && node.value.bytes == cs[i].bytes && node.value.mtime == Stamp(cs[i].mtime)
            && (SkippedAt(WithoutAll(ClearedAll(t, dirs, created), targets), cs, i, created)
                || node.value.mode == cs[i].mode)
  {
    var c, x := cs[i], Get(t, cs[i].path);
    var before, later := Acts(dirs, targets, cs[..i], c.path), ContentActs(cs[i + 1..], c.path);
    Locality(t, dirs, targets, cs, c.path, created);
    Locality(t, dirs, targets, cs[..i], c.path, created);
    ActsSplit(dirs, targets, cs, i, c.path);
    RunConcat(before + [Place(c)], later, x, created);
    OneAct(before, Place(c), x, created);
    forall j | 0 <= j < |later| ensures later[j].Keep? {
      assert !Replaces(cs[i + 1 + j], c.path);
    }
    FixedActsDoNothing(later, Run(before + [Place(c)], x, created), created);
  }

  /** Entry `i` of the stream is content, for the path `p`. */
  predicate Brings(stream: seq<TarEntry>, i: nat, p: Path) {
    && i < |stream| && stream[i].name.Some? && Components(stream[i].name.value) == Ok(p)
    && p != [] && !(".wh." <= p[|p| - 1])
  }

  /** What an accepted content entry asks for is read off its header. */
  lemma BroughtContent(stream: seq<TarEntry>, plan: Plan, i: nat, p: Path)
    requires PlanOf(stream, plan) && Brings(stream, i, p)
    ensures var e, c := stream[i], ContentOf(plan.entries[i], stream[i]);
            && e.mode.Some?
            && match e.kind
               case DirectoryKind => c == DirContent(p, e.mode.value % 4096)
               case RegularKind | Continuous =>
                 && e.mtime.Some? && e.size.Some?
                 && c == FileContent(p, e.mode.value % 4096, e.mtime.value, e.size.value, e.content)
               case SymlinkKind => e.link.Target? && c == LinkContent(p, e.link.target)
               case _ => false
  {
    PlannedExactly(stream[i], plan.entries[i]);
  }

  /** Winners survive, for every accepted stream, in terms of its entries: a file entry
      that no later entry replaces is there with the bytes of the entry, the mtime of its
      header (0 if that is 2^63 or later) and, unless it was skipped, the permission bits
      of its header. */
  lemma AcceptedWinnersSurvive(stream: seq<TarEntry>, plan: Plan, t: Tree, i: nat, p: Path, created: nat)
    requires PlanOf(stream, plan) && Rooted(t) && Brings(stream, i, p)
    requires stream[i].kind.RegularKind? || stream[i].kind.Continuous?
    requires forall j :: i < j < |stream| ==> !Replaces(ContentOf(plan.entries[j], stream[j]), p)
    ensures var e, node := stream[i], Get(Rendered(t, plan, stream, created), p);
            && node.Some? && node.value.Regular? && e.mtime.Some? && e.mode.Some?
            && node.value.bytes == e.content
            && node.value.mtime == (if e.mtime.value < 0x8000_0000_0000_0000 then e.mtime.value else 0)
            && (SkippedAt(WithoutAll(ClearedAll(t, plan.opaqueDirs, created), plan.whiteoutTargets),
                          Contents(plan.entries, stream), i, created)
                || node.value.mode == e.mode.value % 4096)
  {
    PlanPathsNonEmpty(stream, plan);
    BroughtContent(stream, plan, i, p);
    WinnersSurvive(t, plan.opaqueDirs, plan.whiteoutTargets, Contents(plan.entries, stream), i, created);
  }

  /** A symlink entry that no later entry replaces is there with the target of the entry. */
  lemma AcceptedLinksSurvive(stream: seq<TarEntry>, plan: Plan, t: Tree, i: nat, p: Path, created: nat)
    requires PlanOf(stream, plan) && Rooted(t) && Brings(stream, i, p) && stream[i].kind.SymlinkKind?
    requires forall j :: i < j < |stream| ==> !Replaces(ContentOf(plan.entries[j], stream[j]), p)
    ensures stream[i].link.Target?
    ensures Get(Rendered(t, plan, stream, created), p) == Some(Link(stream[i].link.target))
  {
    BroughtLink(stream, plan, i, p);
    LinkRendered(stream, plan, t, i, p, created);
  }

  lemma LinkRendered(stream: seq<TarEntry>, plan: Plan, t: Tree, i: nat, p: Path, created: nat)
    requires PlanOf(stream, plan) && Rooted(t) && i < |stream|
    requires var c := ContentOf(plan.entries[i], stream[i]); c.LinkContent? && c.path == p
    requires forall j :: i < j < |stream| ==> !Replaces(ContentOf(plan.entries[j], stream[j]), p)
    ensures Get(Rendered(t, plan, stream, created), p) == Some(Link(ContentOf(plan.entries[i], stream[i]).target))
  {
    var base := SettledFrom(stream, plan, t, p, created);
    LinkSettles(Contents(plan.entries, stream), i, p, base, created);
  }

  lemma SettledFrom(stream: seq<TarEntry>, plan: Plan, t: Tree, q: Path, created: nat) returns (base: Option<Node>)
    requires PlanOf(stream, plan) && Rooted(t)
    ensures Get(Rendered(t, plan, stream, created), q) == Settled(Contents(plan.entries, stream), q, base, created)
  {
    base := Base(OpaqueDirs(plan.entries), Whiteouts(plan.entries), q, Get(t, q), created);
    AcceptedStreamSettles(stream, plan, t, q, created);
  }

  lemma BroughtLink(stream: seq<TarEntry>, plan: Plan, i: nat, p: Path)
    requires PlanOf(stream, plan) && Brings(stream, i, p) && stream[i].kind.SymlinkKind?
    ensures stream[i].link.Target? && ContentOf(plan.entries[i], stream[i]) == LinkContent(p, stream[i].link.target)
  {
    BroughtContent(stream, plan, i, p);
  }

  lemma LinkSettles(cs: seq<Content>, i: nat, p: Path, base: Option<Node>, created: nat)
    requires i < |cs| && cs[i].LinkContent? && cs[i].path == p && forall j :: i < j < |cs| ==> !Replaces(cs[j], p)
    ensures Settled(cs, p, base, created) == Some(Link(cs[i].target))
  {
    LastOne(cs, i, p);
    var later := cs[i + 1..];
    forall j | 0 <= j < |later| ensures !Implies(later[j], p) {
      assert !Replaces(cs[i + 1 + j], p);
    }
  }

  /** A directory entry that no later entry decides is there with the permission bits of
      its header, whatever comes below it. */
  lemma AcceptedDirectoriesSurvive(stream: seq<TarEntry>, plan: Plan, t: Tree, i: nat, p: Path, created: nat)
    requires PlanOf(stream, plan) && Rooted(t) && Brings(stream, i, p) && stream[i].kind.DirectoryKind?
    requires forall j :: i < j < |stream| ==> !Decides(ContentOf(plan.entries[j], stream[j]), p)
    ensures stream[i].mode.Some?
    ensures Get(Rendered(t, plan, stream, created), p) == Some(Directory(stream[i].mode.value % 4096))
  {
    BroughtDirectory(stream, plan, i, p);
    DirectoryRendered(stream, plan, t, i, p, created);
  }

  lemma BroughtDirectory(stream: seq<TarEntry>, plan: Plan, i: nat, p: Path)
    requires PlanOf(stream, plan) && Brings(stream, i, p) && stream[i].kind.DirectoryKind?
    ensures stream[i].mode.Some?
    ensures ContentOf(plan.entries[i], stream[i]) == DirContent(p, stream[i].mode.value % 4096)
  {
    BroughtContent(stream, plan, i, p);
  }

  lemma DirectoryRendered(stream: seq<TarEntry>, plan: Plan, t: Tree, i: nat, p: Path, created: nat)
    requires PlanOf(stream, plan) && Rooted(t) && i < |stream|
    requires var c := ContentOf(plan.entries[i], stream[i]); c.DirContent? && c.path == p
    requires forall j :: i < j < |stream| ==> !Decides(ContentOf(plan.entries[j], stream[j]), p)
    ensures Get(Rendered(t, plan, stream, created), p) == Some(Directory(ContentOf(plan.entries[i], stream[i]).mode))
  {
    var base := SettledFrom(stream, plan, t, p, created);
    DirectorySettles(Contents(plan.entries, stream), i, p, base, created);
  }

  lemma DirectorySettles(cs: seq<Content>, i: nat, p: Path, base: Option<Node>, created: nat)
    requires i < |cs| && cs[i].DirContent? && cs[i].path == p && forall j :: i < j < |cs| ==> !Decides(cs[j], p)
    ensures Settled(cs, p, base, created) == Some(Directory(cs[i].mode))
  {
    LastOne(cs, i, p);
  }

  lemma LastOne(cs: seq<Content>, i: nat, p: Path)
    requires i < |cs| && At(cs[i], p) && forall j :: i < j < |cs| ==> !Decides(cs[j], p)
    ensures LastDeciding(cs, p) == Some(i)
  {
    var last := LastDeciding(cs, p);
    assert Decides(cs[i], p);
  }

  /** No content entry of the stream has to do with `q`. */
  ghost predicate NoContentFor(stream: seq<TarEntry>, plan: Plan, q: Path)
    requires |plan.entries| == |stream|
  {
    forall j :: 0 <= j < |stream| ==> !Replaces(ContentOf(plan.entries[j], stream[j]), q)
  }

  lemma OnlyMarkersSettle(stream: seq<TarEntry>, plan: Plan, t: Tree, q: Path, created: nat)
    requires PlanOf(stream, plan) && Rooted(t) && NoContentFor(stream, plan, q)
    ensures Get(Rendered(t, plan, stream, created), q) ==
            Base(OpaqueDirs(plan.entries), Whiteouts(plan.entries), q, Get(t, q), created)
  {
    AcceptedStreamSettles(stream, plan, t, q, created);
    NothingSettles(Contents(plan.entries, stream), q,
                   Base(OpaqueDirs(plan.entries), Whiteouts(plan.entries), q, Get(t, q), created), created);
  }

  lemma NothingSettles(cs: seq<Content>, q: Path, base: Option<Node>, created: nat)
    requires forall j :: 0 <= j < |cs| ==> !Replaces(cs[j], q)
    ensures Settled(cs, q, base, created) == base
  {
    assert LastDeciding(cs, q).None?;
  }

  /** Deletions hold: nothing is left at or below a whiteout target where no content
      entry puts anything. */
  lemma WhiteoutsHold(stream: seq<TarEntry>, plan: Plan, t: Tree, i: nat, q: Path, created: nat)
    requires PlanOf(stream, plan) && Rooted(t) && NoContentFor(stream, plan, q)
    requires i < |stream| && plan.entries[i].Whiteout? && plan.entries[i].comps <= q
    ensures Get(Rendered(t, plan, stream, created), q) == None
  {
    OnlyMarkersSettle(stream, plan, t, q, created);
    MarkersListed(plan.entries, plan.entries[i].comps);
    var k :| 0 <= k < |Whiteouts(plan.entries)| && Whiteouts(plan.entries)[k] == plan.entries[i].comps;
    assert Covers(Whiteouts(plan.entries)[k], q);
  }

  /** Clears hold: an opaque directory is there, with mode 0755, unless a whiteout takes
      it; below it nothing of the destination is left. */
  lemma ClearsHold(stream: seq<TarEntry>, plan: Plan, t: Tree, i: nat, q: Path, created: nat)
    requires PlanOf(stream, plan) && Rooted(t) && NoContentFor(stream, plan, q)
    requires i < |stream| && plan.entries[i].OpaqueDir? && plan.entries[i].comps <= q
    requires forall j :: 0 <= j < |stream| && plan.entries[j].Whiteout? ==> !(plan.entries[j].comps <= q)
    requires forall j :: 0 <= j < |stream| && plan.entries[j].OpaqueDir? ==> !(q < plan.entries[j].comps)
    ensures Get(Rendered(t, plan, stream, created), q) ==
            if OpaqueDir(q) in plan.entries then Some(Directory(493)) else None
  {
    OnlyMarkersSettle(stream, plan, t, q, created);
    NotCovered(plan.entries, q);
    NotBelow(plan.entries, q);
    MarkersListed(plan.entries, q);
    OpaqueAtOrAbove(plan.entries, i, q);
  }

  lemma OpaqueAtOrAbove(plan: seq<Planned>, i: nat, q: Path)
    requires i < |plan| && plan[i].OpaqueDir? && plan[i].comps <= q
    ensures q in OpaqueDirs(plan) || AnyAbove(OpaqueDirs(plan), q)
  {
    var dirs := OpaqueDirs(plan);
    MarkersListed(plan, plan[i].comps);
    var k :| 0 <= k < |dirs| && dirs[k] == plan[i].comps;
    assert dirs[k] == q || Above(dirs[k], q);
  }

  lemma NotCovered(plan: seq<Planned>, q: Path)
    requires forall j :: 0 <= j < |plan| && plan[j].Whiteout? ==> !(plan[j].comps <= q)
    ensures !AnyCovers(Whiteouts(plan), q)
  {
    var targets := Whiteouts(plan);
    forall k | 0 <= k < |targets| ensures !Covers(targets[k], q) {
      MarkersListed(plan, targets[k]);
    }
  }

  lemma NotBelow(plan: seq<Planned>, q: Path)
    requires forall j :: 0 <= j < |plan| && plan[j].OpaqueDir? ==> !(q < plan[j].comps)
    ensures !AnyBelow(OpaqueDirs(plan), q)
  {
    var dirs := OpaqueDirs(plan);
    forall k | 0 <= k < |dirs| ensures !Above(q, dirs[k]) {
      MarkersListed(plan, dirs[k]);
    }
  }

  lemma NotAbove(plan: seq<Planned>, q: Path)
    requires forall j :: 0 <= j < |plan| && plan[j].OpaqueDir? ==> !(plan[j].comps <= q)
    ensures !AnyAbove(OpaqueDirs(plan), q) && q !in OpaqueDirs(plan)
  {
    var dirs := OpaqueDirs(plan);
    forall k | 0 <= k < |dirs| ensures !Above(dirs[k], q) && dirs[k] != q {
      MarkersListed(plan, dirs[k]);
    }
  }

  /** What no marker and no content entry has to do with stays as it was. */
  lemma OthersUntouched(stream: seq<TarEntry>, plan: Plan, t: Tree, q: Path, created: nat)
    requires PlanOf(stream, plan) && Rooted(t) && NoContentFor(stream, plan, q)
    requires forall j :: 0 <= j < |stream| && plan.entries[j].Whiteout? ==> !(plan.entries[j].comps <= q)
    requires forall j :: 0 <= j < |stream| && plan.entries[j].OpaqueDir? ==>
               !(plan.entries[j].comps <= q) && !(q < plan.entries[j].comps)
    ensures Get(Rendered(t, plan, stream, created), q) == Get(t, q)
  {
    OnlyMarkersSettle(stream, plan, t, q, created);
    NotCovered(plan.entries, q);
    NotBelow(plan.entries, q);
    NotAbove(plan.entries, q);
  }

  /** Rendering any accepted stream a second time changes nothing. */
  lemma AcceptedStreamIsIdempotent(stream: seq<TarEntry>, plan: Plan, t: Tree, created: nat)
    requires PlanOf(stream, plan) && Rooted(t)
    ensures var once := Rendered(t, plan, stream, created);
            Rendered(once, plan, stream, created) == once
  {
    PlanPathsNonEmpty(stream, plan);
    RenderingTwiceIsRenderingOnce(t, plan.opaqueDirs, plan.whiteoutTargets, Contents(plan.entries, stream), created);
  }
}
