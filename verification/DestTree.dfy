/** The export destination: a directory tree keyed by path, and what each
    file-system step of the applier makes of it. */
module DestTree {
  import opened Orders

  type Path = seq<string>
  type Bytes = seq<byte>

  const TWO_63 := 0x8000_0000_0000_0000

  datatype Node =
    | Directory(mode: nat)
    | Regular(bytes: Bytes, mode: nat, mtime: I64)
    | Link(target: string)
    | Special

  type Tree = map<Path, Node>

  const OPAQUE_MODE := 0x1ED // 0o755

  function Get(t: Tree, p: Path): Option<Node> {
    if p in t then Some(t[p]) else None
  }

  predicate IsDir(t: Tree, p: Path) {
    p in t && t[p].Directory?
  }

  function Parent(p: Path): Path
    requires p != []
  {
    p[..|p| - 1]
  }

  /** `a` is a proper ancestor of `b`. */
  predicate Above(a: Path, b: Path) {
    a < b
  }

  /** `b` is `a` or lies below it. */
  predicate Covers(a: Path, b: Path) {
    a == b || Above(a, b)
  }

  lemma AboveTransitive(a: Path, b: Path, c: Path)
    requires Above(a, b) && Covers(b, c)
    ensures Above(a, c)
  {
  }

  /** The ancestors of a path are its parent and the parent's ancestors. */
  lemma AboveParent(a: Path, p: Path)
    requires p != []
    ensures Above(a, p) <==> Covers(a, Parent(p))
  {
    if Above(a, p) && |a| == |Parent(p)| {
      assert a == Parent(p);
    }
  }

  /** The root is a directory and every other node sits in a directory. */
  ghost predicate Rooted(t: Tree) {
    && IsDir(t, [])
    && forall p :: p in t && p != [] ==> IsDir(t, Parent(p))
  }

  lemma {:induction false} AncestorsAreDirs(t: Tree, q: Path, p: Path)
    requires Rooted(t) && p in t && Above(q, p)
    ensures IsDir(t, q)
    decreases |p|
  {
    AboveParent(q, p);
    if Above(q, Parent(p)) {
      AncestorsAreDirs(t, q, Parent(p));
    }
  }

  function ProperPrefixes(p: Path): (r: set<Path>)
    ensures forall q :: q in r <==> Above(q, p)
  {
    var r := set i | 0 <= i < |p| :: p[..i];
    assert forall q :: Above(q, p) ==> q == p[..|q|];
    r
  }

  /** Every proper prefix of `p` is a directory: a missing or non-directory one
      is created with `created`, the mode `mkdir` yields under the umask. */
  function WithParents(t: Tree, p: Path, created: nat): (r: Tree)
  {
    map q | q in t.Keys + ProperPrefixes(p) ::
      if Above(q, p) && !IsDir(t, q) then Directory(created) else t[q]
  }

  /** `p` is a directory with exactly `mode`. */
  function WithDirectory(t: Tree, p: Path, mode: nat, created: nat): Tree {
    WithParents(t, p, created)[p := Directory(mode)]
  }

  /** Nothing is left at or below `p`. */
  function Without(t: Tree, p: Path): Tree {
    map q | q in t && !Covers(p, q) :: t[q]
  }

  /** Nothing is left strictly below `p`. */
  function Emptied(t: Tree, p: Path): Tree {
    map q | q in t && !Above(p, q) :: t[q]
  }

  /** An opaque clear of `p`. */
  function Cleared(t: Tree, p: Path, created: nat): Tree {
    Emptied(WithDirectory(t, p, OPAQUE_MODE, created), p)
  }

  lemma WithParentsRooted(t: Tree, p: Path, created: nat)
    requires Rooted(t)
    ensures Rooted(WithParents(t, p, created))
    ensures p != [] ==> IsDir(WithParents(t, p, created), Parent(p))
  {
    var r := WithParents(t, p, created);
    forall q | q in r && q != [] ensures IsDir(r, Parent(q)) {
      assert Above(Parent(q), q);
      if Above(q, p) {
        AboveTransitive(Parent(q), q, p);
      }
    }
    assert p != [] ==> Above(Parent(p), p);
    assert p != [] ==> Above([], p);
  }

  /** One more component: only the node at `p` itself can change. */
  lemma WithParentsStep(t: Tree, p: Path, next: string, created: nat)
    ensures WithParents(t, p + [next], created) ==
            if IsDir(t, p) then WithParents(t, p, created) else WithParents(t, p, created)[p := Directory(created)]
  {
    var longer := p + [next];
    assert Parent(longer) == p;
    forall q: Path ensures Above(q, longer) <==> Covers(q, p) {
      AboveParent(q, longer);
    }
  }

  lemma NothingBelowNonDirectory(t: Tree, p: Path)
    requires Rooted(t) && !IsDir(t, p)
    ensures forall q :: q in t ==> !Above(p, q)
  {
    forall q | q in t ensures !Above(p, q) {
      if Above(p, q) { AncestorsAreDirs(t, p, q); }
    }
  }

  lemma WithoutRooted(t: Tree, p: Path)
    requires Rooted(t) && p != []
    ensures Rooted(Without(t, p))
  {
    var r := Without(t, p);
    forall q | q in r && q != [] ensures IsDir(r, Parent(q)) {
      AboveParent(p, q);
    }
  }

  /** A node may be put at `p` when its parent is a directory and, unless it is a
      directory itself, nothing is below `p`. */
  lemma PutRooted(t: Tree, p: Path, node: Node)
    requires Rooted(t) && p != [] && IsDir(t, Parent(p))
    requires node.Directory? || forall q :: q in t ==> !Above(p, q)
    ensures Rooted(t[p := node])
  {
    var r := t[p := node];
    forall q | q in r && q != [] ensures IsDir(r, Parent(q)) {
      AboveParent(p, q);
    }
  }

  lemma EmptiedRooted(t: Tree, p: Path)
    requires Rooted(t)
    ensures Rooted(Emptied(t, p))
  {
    var r := Emptied(t, p);
    forall q | q in r && q != [] ensures IsDir(r, Parent(q)) {
      AboveParent(p, q);
    }
  }

  /** Removing a subtree: the children first, then the node itself. */
  lemma EmptiedThenUnlinked(t: Tree, p: Path)
    ensures Emptied(t, p) - {p} == Without(t, p)
  {
  }

  /** Removing what is no directory, or is not there at all. */
  lemma UnlinkedNonDirectory(t: Tree, p: Path)
    requires Rooted(t) && !IsDir(t, p)
    ensures t - {p} == Without(t, p)
  {
    NothingBelowNonDirectory(t, p);
  }
}
