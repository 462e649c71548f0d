/** What an export delta does to each single path. The passes turn out to act on
    every path independently of all others, which gives the overlay lookup, the
    survival of winners and idempotence. */
module ExportEffect {
  import opened Orders
  import opened DestTree
  import opened ExportPlan
  import opened ExportApply

  type FileData = c: Content | c.FileContent? witness FileContent([], 0, 0, 0, [])

  /** The effect of one pass step on the node at one path. */
  datatype Act = Keep | Put(node: Option<Node>) | MakeDir | Place(file: FileData)

  predicate HoldsDir(x: Option<Node>) {
    x.Some? && x.value.Directory?
  }

  function Perform(a: Act, x: Option<Node>, created: nat): Option<Node> {
    match a
    case Keep => x
    case Put(node) => node
    case MakeDir => if HoldsDir(x) then x else Some(Directory(created))
    case Place(c) => if Skips(x, c) then x else Some(Written(c))
  }

  function Run(acts: seq<Act>, x: Option<Node>, created: nat): Option<Node> {
    if acts == [] then x
    else Perform(acts[|acts| - 1], Run(acts[..|acts| - 1], x, created), created)
  }

  function ClearAct(d: Path, q: Path): Act {
    if q == d then Put(Some(Directory(OPAQUE_MODE)))
    else if Above(d, q) then Put(None)
    else if Above(q, d) then MakeDir
    else Keep
  }

  function RemoveAct(w: Path, q: Path): Act {
    if Covers(w, q) then Put(None) else Keep
  }

  function ContentAct(c: Content, q: Path): Act {
    if c.NoContent? then Keep
    else if q == c.path then
      match c
      case DirContent(_, mode) => Put(Some(Directory(mode)))
      case FileContent(_, _, _, _, _) => Place(c)
      case LinkContent(_, target) => Put(Some(Link(target)))
    else if Above(c.path, q) && !c.DirContent? then Put(None)
    else if Above(q, c.path) then MakeDir
    else Keep
  }

  function ClearActs(dirs: seq<Path>, q: Path): seq<Act> {
    seq(|dirs|, i requires 0 <= i < |dirs| => ClearAct(dirs[i], q))
  }

  function RemoveActs(targets: seq<Path>, q: Path): seq<Act> {
    seq(|targets|, i requires 0 <= i < |targets| => RemoveAct(targets[i], q))
  }

  function ContentActs(cs: seq<Content>, q: Path): seq<Act> {
    seq(|cs|, i requires 0 <= i < |cs| => ContentAct(cs[i], q))
  }

  /** Everything a delta does at `q`, in order. */
  function Acts(dirs: seq<Path>, targets: seq<Path>, cs: seq<Content>, q: Path): seq<Act> {
    ClearActs(dirs, q) + RemoveActs(targets, q) + ContentActs(cs, q)
  }

  lemma {:induction false} RunConcat(a: seq<Act>, b: seq<Act>, x: Option<Node>, created: nat)
    ensures Run(a + b, x, created) == Run(b, Run(a, x, created), created)
  {
    if b == [] {
      assert a + b == a;
    } else {
      assert (a + b)[..|a + b| - 1] == a + b[..|b| - 1];
      RunConcat(a, b[..|b| - 1], x, created);
    }
  }

  // ---- locality --------------------------------------------------------------

  lemma ParentsAt(t: Tree, p: Path, q: Path, created: nat)
    ensures Get(WithParents(t, p, created), q) ==
            if Above(q, p) then Perform(MakeDir, Get(t, q), created) else Get(t, q)
  {
  }

  lemma ReplacedAt(t: Tree, p: Path, node: Node, q: Path)
    ensures Get(Without(t, p)[p := node], q) == if q == p then Some(node) else if Above(p, q) then None else Get(t, q)
  {
  }

  lemma SkippedFileAt(t: Tree, c: FileData, q: Path, created: nat)
    requires Rooted(t) && Skips(Get(t, c.path), c)
    ensures Get(WithParents(t, c.path, created), q) == Perform(ContentAct(c, q), Get(t, q), created)
  {
    ParentsAt(t, c.path, q, created);
    NothingBelowNonDirectory(t, c.path);
    assert Above(c.path, q) ==> q !in t && !Above(q, c.path);
  }

  lemma WrittenFileAt(t: Tree, c: FileData, q: Path, created: nat)
    requires !Skips(Get(t, c.path), c)
    ensures Get(Without(WithParents(t, c.path, created), c.path)[c.path := Written(c)], q) ==
            Perform(ContentAct(c, q), Get(t, q), created)
  {
    ParentsAt(t, c.path, q, created);
    ReplacedAt(WithParents(t, c.path, created), c.path, Written(c), q);
  }

  lemma FileAppliedAt(t: Tree, c: FileData, q: Path, created: nat)
    requires Rooted(t)
    ensures Get(Applied(t, c, created), q) == Perform(ContentAct(c, q), Get(t, q), created)
  {
    ParentsAt(t, c.path, c.path, created);
    if Skips(Get(t, c.path), c) {
      SkippedFileAt(t, c, q, created);
    } else {
      WrittenFileAt(t, c, q, created);
    }
  }

  lemma AppliedAt(t: Tree, c: Content, q: Path, created: nat)
    requires Rooted(t)
    ensures Get(Applied(t, c, created), q) == Perform(ContentAct(c, q), Get(t, q), created)
  {
    if c.FileContent? {
      FileAppliedAt(t, c, q, created);
    } else if c.DirContent? {
      assert Above(c.path, q) ==> !Above(q, c.path);
    }
  }

  lemma ClearedAt(t: Tree, d: Path, q: Path, created: nat)
    ensures Get(Cleared(t, d, created), q) == Perform(ClearAct(d, q), Get(t, q), created)
  {
    assert Above(q, d) ==> !Above(d, q);
  }

  lemma {:induction false} ClearedAllAt(t: Tree, dirs: seq<Path>, q: Path, created: nat)
    requires Rooted(t) && NonRoot(dirs)
    ensures Rooted(ClearedAll(t, dirs, created))
    ensures Get(ClearedAll(t, dirs, created), q) == Run(ClearActs(dirs, q), Get(t, q), created)
  {
    if dirs != [] {
      var before, d := dirs[..|dirs| - 1], dirs[|dirs| - 1];
      ClearedAllAt(t, before, q, created);
      ClearedAt(ClearedAll(t, before, created), d, q, created);
      ClearedRooted(ClearedAll(t, before, created), d, created);
      assert ClearActs(dirs, q)[..|dirs| - 1] == ClearActs(before, q);
    }
  }

  lemma {:induction false} WithoutAllAt(t: Tree, targets: seq<Path>, q: Path, created: nat)
    requires Rooted(t) && NonRoot(targets)
    ensures Rooted(WithoutAll(t, targets))
    ensures Get(WithoutAll(t, targets), q) == Run(RemoveActs(targets, q), Get(t, q), created)
  {
    if targets != [] {
      var before, w := targets[..|targets| - 1], targets[|targets| - 1];
      WithoutAllAt(t, before, q, created);
      WithoutRooted(WithoutAll(t, before), w);
      assert RemoveActs(targets, q)[..|targets| - 1] == RemoveActs(before, q);
    }
  }

  lemma {:induction false} AppliedAllAt(t: Tree, cs: seq<Content>, q: Path, created: nat)
    requires Rooted(t) && ContentPathsOk(cs)
    ensures Rooted(AppliedAll(t, cs, created))
    ensures Get(AppliedAll(t, cs, created), q) == Run(ContentActs(cs, q), Get(t, q), created)
  {
    if cs != [] {
      var before, c := cs[..|cs| - 1], cs[|cs| - 1];
      AppliedAllAt(t, before, q, created);
      AppliedAt(AppliedAll(t, before, created), c, q, created);
      AppliedRooted(AppliedAll(t, before, created), c, created);
      assert ContentActs(cs, q)[..|cs| - 1] == ContentActs(before, q);
    }
  }

  /** Locality, for every accepted delta and every destination: what the three
      passes leave at `q` is a function of what was at `q`. */
  lemma Locality(t: Tree, dirs: seq<Path>, targets: seq<Path>, cs: seq<Content>, q: Path, created: nat)
    requires Rooted(t) && NonRoot(dirs) && NonRoot(targets) && ContentPathsOk(cs)
    ensures Rooted(ApplyPasses(t, dirs, targets, cs, created))
    ensures Get(ApplyPasses(t, dirs, targets, cs, created), q) == Run(Acts(dirs, targets, cs, q), Get(t, q), created)
  {
    var cleared := ClearedAll(t, dirs, created);
    ClearedAllAt(t, dirs, q, created);
    WithoutAllAt(cleared, targets, q, created);
    AppliedAllAt(WithoutAll(cleared, targets), cs, q, created);
    RunConcat(ClearActs(dirs, q), RemoveActs(targets, q), Get(t, q), created);
    RunConcat(ClearActs(dirs, q) + RemoveActs(targets, q), ContentActs(cs, q), Get(t, q), created);
  }

  // ---- idempotence -----------------------------------------------------------

  predicate Fixes(a: Act, x: Option<Node>, created: nat) {
    Perform(a, x, created) == x
  }

  ghost predicate ConstantRun(acts: seq<Act>, created: nat) {
    forall x, y :: Run(acts, x, created) == Run(acts, y, created)
  }

  ghost predicate FixedRun(acts: seq<Act>, created: nat) {
    forall x, i :: 0 <= i < |acts| ==> Fixes(acts[i], Run(acts, x, created), created)
  }

  /** A second write of the same entry finds its own result unchanged. */
  predicate Skippable(c: Content)
    requires c.FileContent?
  {
    c.size == |c.bytes| && c.mtime < TWO_63
  }

  lemma SkipsOnlySkippable(x: Option<Node>, c: Content)
    requires c.FileContent?
    ensures Skips(Some(Written(c)), c) <==> Skippable(c)
    ensures Skips(x, c) ==> Skippable(c)
  {
  }

  /** A run of acts either forgets what was there or ends on a node that each of
      its acts leaves alone. */
  lemma {:induction false} RunForgetsOrFixes(acts: seq<Act>, created: nat)
    ensures ConstantRun(acts, created) || FixedRun(acts, created)
  {
    if acts != [] {
      var before, a := acts[..|acts| - 1], acts[|acts| - 1];
      RunForgetsOrFixes(before, created);
      if ConstantRun(before, created) {
        forall x, y ensures Run(acts, x, created) == Run(acts, y, created) {
          assert Run(before, x, created) == Run(before, y, created);
        }
      } else {
        match a {
          case Keep =>
            assert forall x :: Run(acts, x, created) == Run(before, x, created);
          case Put(_) =>
          case MakeDir => ExtendWithMakeDir(before, acts, created);
          case Place(c) => ExtendWithPlace(before, c, acts, created);
        }
      }
    }
  }

  lemma ExtendWithMakeDir(before: seq<Act>, acts: seq<Act>, created: nat)
    requires acts == before + [MakeDir] && FixedRun(before, created)
    ensures ConstantRun(acts, created) || FixedRun(acts, created)
  {
    assert acts[..|acts| - 1] == before;
    if i :| 0 <= i < |before| && (before[i].Put? || before[i].Place?) {
      forall x, y ensures Run(acts, x, created) == Run(acts, y, created) {
        assert Fixes(before[i], Run(before, x, created), created);
        assert Fixes(before[i], Run(before, y, created), created);
      }
    }
  }

  lemma ExtendWithPlace(before: seq<Act>, c: FileData, acts: seq<Act>, created: nat)
    requires acts == before + [Place(c)] && FixedRun(before, created)
    ensures ConstantRun(acts, created) || FixedRun(acts, created)
  {
    assert acts[..|acts| - 1] == before;
    if i :| 0 <= i < |before| && (before[i].Put? || before[i].MakeDir?) {
      forall x, y ensures Run(acts, x, created) == Run(acts, y, created) {
        assert Fixes(before[i], Run(before, x, created), created);
        assert Fixes(before[i], Run(before, y, created), created);
      }
    } else if i :| 0 <= i < |before| && before[i].Place? {
      ExtendPlaceWithPlace(before, i, c, acts, created);
    } else if !Skippable(c) {
      forall x, y ensures Run(acts, x, created) == Run(acts, y, created) {
        SkipsOnlySkippable(Run(before, x, created), c);
        SkipsOnlySkippable(Run(before, y, created), c);
      }
    } else {
      SkipsOnlySkippable(None, c);
    }
  }

  lemma ExtendPlaceWithPlace(before: seq<Act>, i: nat, c: FileData, acts: seq<Act>, created: nat)
    requires acts == before + [Place(c)] && FixedRun(before, created)
    requires i < |before| && before[i].Place?
    ensures ConstantRun(acts, created) || FixedRun(acts, created)
  {
    assert acts[..|acts| - 1] == before;
    var earlier := before[i].file;
    SkipsOnlySkippable(None, earlier);
    if Skippable(earlier) && Skips(Some(Written(earlier)), c) {
      forall x ensures Run(acts, x, created) == Run(before, x, created) {
        assert Fixes(before[i], Run(before, x, created), created);
      }
    } else {
      forall x, y ensures Run(acts, x, created) == Run(acts, y, created) {
        assert Fixes(before[i], Run(before, x, created), created);
        assert Fixes(before[i], Run(before, y, created), created);
      }
    }
  }

  lemma {:induction false} FixedActsDoNothing(acts: seq<Act>, x: Option<Node>, created: nat)
    requires forall i :: 0 <= i < |acts| ==> Fixes(acts[i], x, created)
    ensures Run(acts, x, created) == x
  {
    if acts != [] {
      FixedActsDoNothing(acts[..|acts| - 1], x, created);
    }
  }

  /** Idempotence, for every accepted delta, well-formed or not: rendering it again
      changes no node at all, not even a mode or a stamp. */
  lemma RenderingTwiceIsRenderingOnce(t: Tree, dirs: seq<Path>, targets: seq<Path>, cs: seq<Content>, created: nat)
    requires Rooted(t) && NonRoot(dirs) && NonRoot(targets) && ContentPathsOk(cs)
    ensures var once := ApplyPasses(t, dirs, targets, cs, created);
            ApplyPasses(once, dirs, targets, cs, created) == once
  {
    var once := ApplyPasses(t, dirs, targets, cs, created);
    var twice := ApplyPasses(once, dirs, targets, cs, created);
    forall q: Path ensures Get(twice, q) == Get(once, q) {
      Locality(t, dirs, targets, cs, q, created);
      Locality(once, dirs, targets, cs, q, created);
      var acts := Acts(dirs, targets, cs, q);
      RunForgetsOrFixes(acts, created);
      if FixedRun(acts, created) {
        FixedActsDoNothing(acts, Get(once, q), created);
      }
    }
    SameGets(once, twice);
  }

  lemma SameGets(a: Tree, b: Tree)
    requires forall q :: Get(a, q) == Get(b, q)
    ensures a == b
  {
    forall q | q in a ensures q in b && b[q] == a[q] { assert Get(a, q) == Get(b, q); }
    forall q | q in b ensures q in a { assert Get(a, q) == Get(b, q); }
  }
}
