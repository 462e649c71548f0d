/** What a second rendering of the same delta writes. */
module ExportRerun {
  import opened Orders
  import opened DestTree
  import opened ExportPlan
  import opened ExportApply
  import opened ExportEffect
  import opened ExportOverlay

  // ---- counters ---------------------------------------------------------------------

  function FileCount(cs: seq<Content>): nat {
    if cs == [] then 0
    else FileCount(cs[..|cs| - 1]) + if cs[|cs| - 1].FileContent? then 1 else 0
  }

  function LinkCount(cs: seq<Content>): nat {
    if cs == [] then 0
    else LinkCount(cs[..|cs| - 1]) + if cs[|cs| - 1].LinkContent? then 1 else 0
  }

  /** Every file entry is counted once, as written or as skipped, every symlink once;
      bytes are written only with a file. */
  lemma {:induction false} CountsConserved(s: Stats, t: Tree, cs: seq<Content>, created: nat)
    ensures var r := CountedAll(s, t, cs, created);
            && r.filesWritten + r.skippedUnchanged == s.filesWritten + s.skippedUnchanged + FileCount(cs)
            && r.symlinksWritten == s.symlinksWritten + LinkCount(cs)
            && r.deletesApplied == s.deletesApplied && r.opaqueClears == s.opaqueClears
            && r.filesWritten >= s.filesWritten
            && (r.filesWritten == s.filesWritten ==> r.bytesWritten == s.bytesWritten)
  {
    if cs != [] {
      CountsConserved(s, t, cs[..|cs| - 1], created);
    }
  }

  lemma {:induction false} NothingWrittenIffAllSkipped(s: Stats, t: Tree, cs: seq<Content>, created: nat)
    ensures CountedAll(s, t, cs, created).filesWritten == s.filesWritten <==>
            forall i :: 0 <= i < |cs| ==> SkippedAt(t, cs, i, created)
  {
    if cs != [] {
      var before := cs[..|cs| - 1];
      NothingWrittenIffAllSkipped(s, t, before, created);
      CountsConserved(s, t, before, created);
      forall i | 0 <= i < |before| ensures SkippedAt(t, cs, i, created) <==> SkippedAt(t, before, i, created) {
        assert cs[..i] == before[..i];
      }
      var skipsLast := SkippedAt(t, cs, |before|, created);
      assert CountedAll(s, t, cs, created).filesWritten ==
             CountedAll(s, t, before, created).filesWritten + if skipsLast then 0 else 1;
    }
  }

  // ---- what a rendering reports ---------------------------------------------------------

  function SumOver(n: nat, f: nat -> nat): nat {
    if n == 0 then 0 else SumOver(n - 1, f) + f(n - 1)
  }

  /** The bytes that entry `i` writes. */
  ghost function BytesAt(t: Tree, cs: seq<Content>, i: nat, created: nat): nat {
    if i < |cs| && cs[i].FileContent? && !SkippedAt(t, cs, i, created) then |cs[i].bytes| else 0
  }

  lemma {:induction false} BytesSummed(s: Stats, t: Tree, cs: seq<Content>, n: nat, created: nat)
    requires n <= |cs|
    ensures CountedAll(s, t, cs[..n], created).bytesWritten ==
            s.bytesWritten + SumOver(n, i => BytesAt(t, cs, i, created))
  {
    if n > 0 {
      BytesSummed(s, t, cs, n - 1, created);
      assert cs[..n][..n - 1] == cs[..n - 1];
    } else {
      assert cs[..n] == [];
    }
  }

  lemma PlannedContent(planned: Planned, e: TarEntry)
    requires PlanEntry(e) == Ok(planned)
    ensures ContentOf(planned, e).FileContent? <==> planned.FileEntry?
    ensures ContentOf(planned, e).LinkContent? <==> planned.SymlinkEntry?
  {
    PlannedExactly(e, planned);
  }

  lemma {:induction false} FilesNumbered(plan: seq<Planned>, cs: seq<Content>)
    requires |cs| == |plan| && forall i :: 0 <= i < |cs| ==> (cs[i].FileContent? <==> plan[i].FileEntry?)
    ensures FileCount(cs) == CountIf(plan, (e: Planned) => e.FileEntry?)
  {
    if plan != [] {
      var n := |plan| - 1;
      FilesNumbered(plan[..n], cs[..n]);
      CountOneMore(plan[..n], plan[n], plan, (e: Planned) => e.FileEntry?);
    }
  }

  lemma {:induction false} LinksNumbered(plan: seq<Planned>, cs: seq<Content>)
    requires |cs| == |plan| && forall i :: 0 <= i < |cs| ==> (cs[i].LinkContent? <==> plan[i].SymlinkEntry?)
    ensures LinkCount(cs) == CountIf(plan, (e: Planned) => e.SymlinkEntry?)
  {
    if plan != [] {
      var n := |plan| - 1;
      LinksNumbered(plan[..n], cs[..n]);
      CountOneMore(plan[..n], plan[n], plan, (e: Planned) => e.SymlinkEntry?);
    }
  }

  lemma ContentNumbered(plan: seq<Planned>, stream: seq<TarEntry>)
    requires Plans(stream, plan)
    ensures FileCount(Contents(plan, stream)) == CountIf(plan, (e: Planned) => e.FileEntry?)
    ensures LinkCount(Contents(plan, stream)) == CountIf(plan, (e: Planned) => e.SymlinkEntry?)
  {
    forall i | 0 <= i < |plan|
      ensures ContentOf(plan[i], stream[i]).FileContent? <==> plan[i].FileEntry?
      ensures ContentOf(plan[i], stream[i]).LinkContent? <==> plan[i].SymlinkEntry?
    {
      PlannedContent(plan[i], stream[i]);
    }
    FilesNumbered(plan, Contents(plan, stream));
    LinksNumbered(plan, Contents(plan, stream));
  }

  /** The counters that a rendering reports: one deletion for every whiteout, one clear
      for every opaque marker, one symlink for every symlink entry, one file, written or
      skipped, for every file entry, and the bytes of the files that were not skipped. */
  lemma ReportedStats(t: Tree, plan: Plan, stream: seq<TarEntry>, created: nat)
    requires PlanOf(stream, plan)
    ensures var stats := RenderedStats(t, plan, stream, created);
            var base := WithoutAll(ClearedAll(t, plan.opaqueDirs, created), plan.whiteoutTargets);
            && stats.deletesApplied == CountIf(plan.entries, (e: Planned) => e.Whiteout?)
            && stats.opaqueClears == CountIf(plan.entries, (e: Planned) => e.OpaqueDir?)
            && stats.symlinksWritten == CountIf(plan.entries, (e: Planned) => e.SymlinkEntry?)
            && stats.filesWritten + stats.skippedUnchanged == CountIf(plan.entries, (e: Planned) => e.FileEntry?)
            && stats.bytesWritten == SumOver(|stream|, i => BytesAt(base, Contents(plan.entries, stream), i, created))
  {
    var cs, s := Contents(plan.entries, stream), Stats(0, 0, |plan.whiteoutTargets|, |plan.opaqueDirs|, 0, 0);
    var base := WithoutAll(ClearedAll(t, plan.opaqueDirs, created), plan.whiteoutTargets);
    MarkersNumbered(plan.entries);
    assert |plan.opaqueDirs| == |multiset(plan.opaqueDirs)| == |OpaqueDirs(plan.entries)|;
    assert |plan.whiteoutTargets| == |multiset(plan.whiteoutTargets)| == |Whiteouts(plan.entries)|;
    ContentNumbered(plan.entries, stream);
    CountsConserved(s, base, cs, created);
    BytesSummed(s, base, cs, |cs|, created);
    assert cs[..|cs|] == cs;
  }

  // ---- one path -----------------------------------------------------------------------

  predicate HoldsFile(x: Option<Node>) {
    x.Some? && x.value.Regular?
  }

  /** The acts of a delta put directories, links and nothing, but no files: those are placed. */
  ghost predicate PlacesFiles(acts: seq<Act>) {
    forall k :: 0 <= k < |acts| && acts[k].Put? ==> !HoldsFile(acts[k].node)
  }

  /** Every file that the acts place is found unchanged. */
  ghost predicate SkipsAll(acts: seq<Act>, x: Option<Node>, created: nat) {
    forall k :: 0 <= k < |acts| && acts[k].Place? ==> Skips(Run(acts[..k], x, created), acts[k].file)
  }

  /** The entries write the same file, up to its mode. */
  predicate SameFile(c: Content, d: Content) {
    c.FileContent? && d.FileContent? && c.bytes == d.bytes && c.size == d.size && c.mtime == d.mtime
  }

  /** All acts keep, or place a file like `c` that its own result lets skip. */
  ghost predicate OnlyPlaces(acts: seq<Act>, c: Content) {
    forall k :: 0 <= k < |acts| ==> acts[k].Keep? || (acts[k].Place? && SameFile(acts[k].file, c))
  }

  lemma RunOneMore(acts: seq<Act>, k: nat, x: Option<Node>, created: nat)
    requires k < |acts|
    ensures Run(acts[..k + 1], x, created) == Perform(acts[k], Run(acts[..k], x, created), created)
  {
    assert acts[..k + 1][..k] == acts[..k];
  }

  /** An act other than a placed file or none leaves no file. */
  lemma OtherActs(a: Act, x: Option<Node>, created: nat)
    requires !a.Place? && (a.Put? ==> !HoldsFile(a.node)) && (!a.Keep? || !HoldsFile(x))
    ensures !HoldsFile(Perform(a, x, created))
  {
  }

  /** Where every placed file is skipped, a file that is not there does not come back. */
  lemma {:induction false} FileStaysAway(acts: seq<Act>, x: Option<Node>, k: nat, n: nat, created: nat)
    requires PlacesFiles(acts) && SkipsAll(acts, x, created) && k <= n <= |acts|
    requires !HoldsFile(Run(acts[..k], x, created))
    ensures !HoldsFile(Run(acts[..n], x, created))
  {
    if k < n {
      FileStaysAway(acts, x, k, n - 1, created);
      RunOneMore(acts, n - 1, x, created);
      OtherActs(acts[n - 1], Run(acts[..n - 1], x, created), created);
    }
  }

  /** If so, and the run ends as it began, a placed file is there throughout. */
  lemma FileIsThere(acts: seq<Act>, x: Option<Node>, m: nat, k: nat, created: nat)
    requires PlacesFiles(acts) && SkipsAll(acts, x, created) && Run(acts, x, created) == x
    requires m < |acts| && acts[m].Place? && k <= |acts|
    ensures HoldsFile(Run(acts[..k], x, created))
  {
    assert acts[..0] == [] && acts[..|acts|] == acts;
    if !HoldsFile(x) {
      FileStaysAway(acts, x, 0, m, created);
    }
    if !HoldsFile(Run(acts[..k], x, created)) {
      FileStaysAway(acts, x, k, |acts|, created);
    }
  }

  lemma {:induction false} NothingHappens(acts: seq<Act>, x: Option<Node>, m: nat, k: nat, created: nat)
    requires PlacesFiles(acts) && SkipsAll(acts, x, created) && Run(acts, x, created) == x
    requires m < |acts| && acts[m].Place? && k <= |acts|
    ensures Run(acts[..k], x, created) == x
    ensures forall j :: 0 <= j < k ==> acts[j].Keep? || acts[j].Place?
  {
    if k == 0 {
      assert acts[..0] == [];
    } else {
      NothingHappens(acts, x, m, k - 1, created);
      FileIsThere(acts, x, m, k, created);
      RunOneMore(acts, k - 1, x, created);
      if !acts[k - 1].Place? && !acts[k - 1].Keep? {
        OtherActs(acts[k - 1], x, created);
      }
    }
  }

  /** All placed files are skipped in a run that ends as it began: then nothing but
      placing the very same file happens. */
  lemma SkipsAllOnlyPlaces(acts: seq<Act>, x: Option<Node>, m: nat, created: nat)
    requires PlacesFiles(acts) && SkipsAll(acts, x, created) && Run(acts, x, created) == x
    requires m < |acts| && acts[m].Place?
    ensures OnlyPlaces(acts, acts[m].file) && Skippable(acts[m].file)
  {
    NothingHappens(acts, x, m, |acts|, created);
    NothingHappens(acts, x, m, m, created);
    SkipsOnlySkippable(x, acts[m].file);
    forall k | 0 <= k < |acts| && acts[k].Place? ensures SameFile(acts[k].file, acts[m].file) {
      NothingHappens(acts, x, m, k, created);
    }
  }

  lemma {:induction false} PlacedIsThere(acts: seq<Act>, c: FileData, m: nat, x: Option<Node>, created: nat)
    requires OnlyPlaces(acts, c) && Skippable(c) && m < |acts| && acts[m].Place?
    ensures Skips(Run(acts, x, created), c)
    decreases |acts|
  {
    var before, a := acts[..|acts| - 1], acts[|acts| - 1];
    if a.Place? {
      SkipsOnlySkippable(Run(before, x, created), a.file);
    } else {
      PlacedIsThere(before, c, m, x, created);
    }
  }

  /** Conversely, where only that file is placed, a second run skips it every time. */
  lemma OnlyPlacesSkipsAll(acts: seq<Act>, m: nat, x: Option<Node>, created: nat)
    requires m < |acts| && acts[m].Place? && OnlyPlaces(acts, acts[m].file) && Skippable(acts[m].file)
    ensures SkipsAll(acts, Run(acts, x, created), created)
  {
    var once := Run(acts, x, created);
    PlacedIsThere(acts, acts[m].file, m, x, created);
    forall k | 0 <= k < |acts| && acts[k].Place? ensures Skips(Run(acts[..k], once, created), acts[k].file) {
      FixedActsDoNothing(acts[..k], once, created);
    }
  }

  // ---- the whole delta ----------------------------------------------------------------

  /** No marker is at, above or (for an opaque one) below `p`. */
  ghost predicate Undisturbed(dirs: seq<Path>, targets: seq<Path>, p: Path) {
    !AnyCovers(targets, p) && p !in dirs && !AnyAbove(dirs, p) && !AnyBelow(dirs, p)
  }

  /** Nothing else in the delta takes the place of the file entry `cs[i]`, except files
      that are the same. */
  ghost predicate Unrivalled(cs: seq<Content>, i: nat)
    requires i < |cs| && cs[i].FileContent?
  {
    forall j :: 0 <= j < |cs| && Replaces(cs[j], cs[i].path) ==> SameFile(cs[j], cs[i]) && cs[j].path == cs[i].path
  }

  /** The file entry `cs[i]` is left alone by the second run. */
  ghost predicate Quiet(dirs: seq<Path>, targets: seq<Path>, cs: seq<Content>, i: nat)
    requires i < |cs| && cs[i].FileContent?
  {
    Skippable(cs[i]) && Undisturbed(dirs, targets, cs[i].path) && Unrivalled(cs, i)
  }

  lemma ContentActIs(c: Content, p: Path)
    ensures ContentAct(c, p).Keep? <==> !Replaces(c, p)
    ensures ContentAct(c, p).Place? <==> c.FileContent? && c.path == p
    ensures ContentAct(c, p).Place? ==> ContentAct(c, p).file == c
    ensures ContentAct(c, p).Put? ==> !HoldsFile(ContentAct(c, p).node)
  {
    assert !c.NoContent? && Above(p, c.path) ==> !Above(c.path, p) && p != c.path;
  }

  lemma MarkerActsAre(dirs: seq<Path>, targets: seq<Path>, p: Path)
    ensures var acts := ClearActs(dirs, p) + RemoveActs(targets, p);
            && (forall k :: 0 <= k < |acts| ==> !acts[k].Place? && (acts[k].Put? ==> !HoldsFile(acts[k].node)))
            && ((forall k :: 0 <= k < |acts| ==> acts[k].Keep?) <==> Undisturbed(dirs, targets, p))
  {
    var clears, removals := ClearActs(dirs, p), RemoveActs(targets, p);
    var acts := clears + removals;
    assert forall k :: 0 <= k < |clears| ==> acts[k] == ClearAct(dirs[k], p);
    assert forall k :: 0 <= k < |removals| ==> acts[|clears| + k] == RemoveAct(targets[k], p);
    assert (forall k :: 0 <= k < |acts| ==> acts[k].Keep?) <==>
           (forall k :: 0 <= k < |dirs| ==> ClearAct(dirs[k], p).Keep?) && (forall k :: 0 <= k < |targets| ==> RemoveAct(targets[k], p).Keep?);
  }

  lemma ActAt(dirs: seq<Path>, targets: seq<Path>, cs: seq<Content>, p: Path, k: nat)
    requires k < |dirs| + |targets| + |cs|
    ensures var acts, n := Acts(dirs, targets, cs, p), |dirs| + |targets|;
            && |acts| == n + |cs|
            && acts[k] == if k < n then (ClearActs(dirs, p) + RemoveActs(targets, p))[k] else ContentAct(cs[k - n], p)
  {
  }

  lemma ActsPlaceFiles(dirs: seq<Path>, targets: seq<Path>, cs: seq<Content>, p: Path)
    ensures PlacesFiles(Acts(dirs, targets, cs, p))
  {
    var acts, n := Acts(dirs, targets, cs, p), |dirs| + |targets|;
    MarkerActsAre(dirs, targets, p);
    forall k | 0 <= k < |acts| && acts[k].Put? ensures !HoldsFile(acts[k].node) {
      ActAt(dirs, targets, cs, p, k);
      if k >= n {
        ContentActIs(cs[k - n], p);
      }
    }
  }

  /** The acts at the path of a file entry place nothing but that file exactly when no
      marker and no other entry is in its way. */
  lemma OnlyPlacesExactly(dirs: seq<Path>, targets: seq<Path>, cs: seq<Content>, i: nat)
    requires i < |cs| && cs[i].FileContent?
    ensures OnlyPlaces(Acts(dirs, targets, cs, cs[i].path), cs[i]) <==>
            Undisturbed(dirs, targets, cs[i].path) && Unrivalled(cs, i)
  {
    var p := cs[i].path;
    var acts, n := Acts(dirs, targets, cs, p), |dirs| + |targets|;
    var markers := ClearActs(dirs, p) + RemoveActs(targets, p);
    MarkerActsAre(dirs, targets, p);
    if OnlyPlaces(acts, cs[i]) {
      forall k | 0 <= k < |markers| ensures markers[k].Keep? {
        ActAt(dirs, targets, cs, p, k);
      }
      forall j | 0 <= j < |cs| && Replaces(cs[j], p) ensures SameFile(cs[j], cs[i]) && cs[j].path == p {
        ActAt(dirs, targets, cs, p, n + j);
        ContentActIs(cs[j], p);
      }
    }
    if Undisturbed(dirs, targets, p) && Unrivalled(cs, i) {
      forall k | 0 <= k < |acts| ensures acts[k].Keep? || (acts[k].Place? && SameFile(acts[k].file, cs[i])) {
        ActAt(dirs, targets, cs, p, k);
        if k >= n {
          ContentActIs(cs[k - n], p);
        }
      }
    }
  }

  /** The tree that the content of the second run starts from. */
  function RerunBase(t: Tree, dirs: seq<Path>, targets: seq<Path>, cs: seq<Content>, created: nat): Tree {
    WithoutAll(ClearedAll(ApplyPasses(t, dirs, targets, cs, created), dirs, created), targets)
  }

  lemma ActsPrefix(dirs: seq<Path>, targets: seq<Path>, cs: seq<Content>, i: nat, p: Path)
    requires i <= |cs|
    ensures Acts(dirs, targets, cs[..i], p) == Acts(dirs, targets, cs, p)[..|dirs| + |targets| + i]
  {
  }

  /** What the `i`th entry of the second run finds at its path. */
  lemma FoundByRerun(t: Tree, dirs: seq<Path>, targets: seq<Path>, cs: seq<Content>, i: nat, p: Path, created: nat)
    requires Rooted(t) && NonRoot(dirs) && NonRoot(targets) && ContentPathsOk(cs) && i < |cs|
    ensures var acts := Acts(dirs, targets, cs, p);
            var once := Run(acts, Get(t, p), created);
            && Get(AppliedAll(RerunBase(t, dirs, targets, cs, created), cs[..i], created), p) ==
               Run(acts[..|dirs| + |targets| + i], once, created)
            && Run(acts, once, created) == once
  {
    var once := ApplyPasses(t, dirs, targets, cs, created);
    Locality(t, dirs, targets, cs, p, created);
    Locality(once, dirs, targets, cs, p, created);
    Locality(once, dirs, targets, cs[..i], p, created);
    ActsPrefix(dirs, targets, cs, i, p);
    RenderingTwiceIsRenderingOnce(t, dirs, targets, cs, created);
  }

  /** An entry at the path of `cs[i]` is skipped by the second run exactly when the
      corresponding act is. */
  lemma SkippedAtPath(t: Tree, dirs: seq<Path>, targets: seq<Path>, cs: seq<Content>, i: nat, created: nat)
    requires Rooted(t) && NonRoot(dirs) && NonRoot(targets) && ContentPathsOk(cs) && i < |cs| && cs[i].FileContent?
    ensures var acts := Acts(dirs, targets, cs, cs[i].path);
            var once := Run(acts, Get(t, cs[i].path), created);
            SkippedAt(RerunBase(t, dirs, targets, cs, created), cs, i, created) <==>
            Skips(Run(acts[..|dirs| + |targets| + i], once, created), cs[i])
  {
    FoundByRerun(t, dirs, targets, cs, i, cs[i].path, created);
  }

  ghost predicate AllSkipped(t: Tree, cs: seq<Content>, created: nat) {
    forall i :: 0 <= i < |cs| ==> SkippedAt(t, cs, i, created)
  }

  lemma AllSkippedSkipsAll(t: Tree, dirs: seq<Path>, targets: seq<Path>, cs: seq<Content>, p: Path, created: nat)
    requires Rooted(t) && NonRoot(dirs) && NonRoot(targets) && ContentPathsOk(cs)
    requires AllSkipped(RerunBase(t, dirs, targets, cs, created), cs, created)
    ensures var acts := Acts(dirs, targets, cs, p);
            SkipsAll(acts, Run(acts, Get(t, p), created), created)
  {
    var acts, n := Acts(dirs, targets, cs, p), |dirs| + |targets|;
    var once := Run(acts, Get(t, p), created);
    MarkerActsAre(dirs, targets, p);
    forall k | 0 <= k < |acts| && acts[k].Place? ensures Skips(Run(acts[..k], once, created), acts[k].file) {
      ActAt(dirs, targets, cs, p, k);
      ContentActIs(cs[k - n], p);
      SkippedActAt(t, dirs, targets, cs, k - n, p, created);
    }
  }

  lemma SkippedActAt(t: Tree, dirs: seq<Path>, targets: seq<Path>, cs: seq<Content>, i: nat, p: Path, created: nat)
    requires Rooted(t) && NonRoot(dirs) && NonRoot(targets) && ContentPathsOk(cs)
    requires i < |cs| && cs[i].FileContent? && cs[i].path == p
    requires AllSkipped(RerunBase(t, dirs, targets, cs, created), cs, created)
    ensures var acts := Acts(dirs, targets, cs, p);
            Skips(Run(acts[..|dirs| + |targets| + i], Run(acts, Get(t, p), created), created), cs[i])
  {
    assert SkippedAt(RerunBase(t, dirs, targets, cs, created), cs, i, created);
    SkippedAtPath(t, dirs, targets, cs, i, created);
  }

  lemma AllSkippedIsQuiet(t: Tree, dirs: seq<Path>, targets: seq<Path>, cs: seq<Content>, i: nat, created: nat)
    requires Rooted(t) && NonRoot(dirs) && NonRoot(targets) && ContentPathsOk(cs) && i < |cs| && cs[i].FileContent?
    requires AllSkipped(RerunBase(t, dirs, targets, cs, created), cs, created)
    ensures Quiet(dirs, targets, cs, i)
  {
    var p, m := cs[i].path, |dirs| + |targets| + i;
    var acts := Acts(dirs, targets, cs, p);
    ActAt(dirs, targets, cs, p, m);
    ContentActIs(cs[i], p);
    AllSkippedSkipsAll(t, dirs, targets, cs, p, created);
    ActsPlaceFiles(dirs, targets, cs, p);
    FoundByRerun(t, dirs, targets, cs, i, p, created);
    SkipsAllOnlyPlaces(acts, Run(acts, Get(t, p), created), m, created);
    OnlyPlacesExactly(dirs, targets, cs, i);
  }

  lemma QuietIsSkipped(t: Tree, dirs: seq<Path>, targets: seq<Path>, cs: seq<Content>, i: nat, created: nat)
    requires Rooted(t) && NonRoot(dirs) && NonRoot(targets) && ContentPathsOk(cs) && i < |cs| && cs[i].FileContent?
    requires Quiet(dirs, targets, cs, i)
    ensures SkippedAt(RerunBase(t, dirs, targets, cs, created), cs, i, created)
  {
    var p, m := cs[i].path, |dirs| + |targets| + i;
    var acts := Acts(dirs, targets, cs, p);
    ActAt(dirs, targets, cs, p, m);
    ContentActIs(cs[i], p);
    OnlyPlacesExactly(dirs, targets, cs, i);
    OnlyPlacesSkipsAll(acts, m, Get(t, p), created);
    SkippedAtPath(t, dirs, targets, cs, i, created);
  }

  /** The second run of any delta, well-formed or not, writes no file if and only if each
      file entry has a true size and a stamp that fits, no marker touches its path, and
      no other entry takes its place, except one that writes the very same file there;
      it then writes no byte and counts every file entry as skipped. */
  lemma SecondRunSkipsExactly(t: Tree, dirs: seq<Path>, targets: seq<Path>, cs: seq<Content>, s: Stats, created: nat)
    requires Rooted(t) && NonRoot(dirs) && NonRoot(targets) && ContentPathsOk(cs)
    ensures var again := CountedAll(s, RerunBase(t, dirs, targets, cs, created), cs, created);
            var quiet := forall i :: 0 <= i < |cs| && cs[i].FileContent? ==> Quiet(dirs, targets, cs, i);
            && (again.filesWritten == s.filesWritten <==> quiet)
            && (quiet ==> again.bytesWritten == s.bytesWritten)
            && (quiet ==> again.skippedUnchanged == s.skippedUnchanged + FileCount(cs))
  {
    var base := RerunBase(t, dirs, targets, cs, created);
    NothingWrittenIffAllSkipped(s, base, cs, created);
    CountsConserved(s, base, cs, created);
    if AllSkipped(base, cs, created) {
      forall i | 0 <= i < |cs| && cs[i].FileContent? ensures Quiet(dirs, targets, cs, i) {
        AllSkippedIsQuiet(t, dirs, targets, cs, i, created);
      }
    }
    if forall i :: 0 <= i < |cs| && cs[i].FileContent? ==> Quiet(dirs, targets, cs, i) {
      forall i | 0 <= i < |cs| ensures SkippedAt(base, cs, i, created) {
        if cs[i].FileContent? {
          QuietIsSkipped(t, dirs, targets, cs, i, created);
        }
      }
    }
  }

  lemma WellFormedIsUnrivalled(cs: seq<Content>, i: nat)
    requires WellFormed(cs) && i < |cs| && cs[i].FileContent?
    ensures Unrivalled(cs, i)
  {
    forall j | 0 <= j < |cs| && j != i ensures !Replaces(cs[j], cs[i].path) {
      assert !At(cs[j], cs[i].path) && !Blocks(cs[j], cs[i].path);
      assert !cs[j].NoContent? ==> !Blocks(cs[i], cs[j].path);
    }
  }

  /** For a well-formed delta there are no rivals: only sizes, stamps and markers count. */
  lemma SecondRunSkips(t: Tree, dirs: seq<Path>, targets: seq<Path>, cs: seq<Content>, s: Stats, created: nat)
    requires Rooted(t) && NonRoot(dirs) && NonRoot(targets) && ContentPathsOk(cs) && WellFormed(cs)
    ensures var again := CountedAll(s, RerunBase(t, dirs, targets, cs, created), cs, created);
            var quiet := forall i :: 0 <= i < |cs| && cs[i].FileContent? ==>
                           Skippable(cs[i]) && Undisturbed(dirs, targets, cs[i].path);
            && (again.filesWritten == s.filesWritten <==> quiet)
            && (quiet ==> again.bytesWritten == s.bytesWritten)
            && (quiet ==> again.skippedUnchanged == s.skippedUnchanged + FileCount(cs))
  {
    SecondRunSkipsExactly(t, dirs, targets, cs, s, created);
    forall i | 0 <= i < |cs| && cs[i].FileContent? ensures Unrivalled(cs, i) {
      WellFormedIsUnrivalled(cs, i);
    }
  }

  /** A file stamped 2^63 or later is written again by every run. */
  lemma LateStampIsWrittenAgain(s: Stats, created: nat)
    ensures var cs := [FileContent(["a"], 420, TWO_63, 0, [])];
            CountedAll(s, RerunBase(map[[] := Directory(created)], [], [], cs, created), cs, created).filesWritten > s.filesWritten
  {
    var c: Content := FileContent(["a"], 420, TWO_63, 0, []);
    var t: Tree := map[[] := Directory(created)];
    assert Rooted(t);
    SecondRunSkipsExactly(t, [], [], [c], s, created);
    assert !Skippable([c][0]);
    CountsConserved(s, RerunBase(t, [], [], [c], created), [c], created);
  }
}
