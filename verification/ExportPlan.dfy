/** The validation pass of the export applier: entry names, marker encodings
    and the plan that the three apply passes follow. */
module ExportPlan {
  import opened Orders
  import opened DestTree

  const WHITEOUT_PREFIX := ".wh."
  const OPAQUE_MARKER := ".wh..wh..opq"

  datatype EntryKind = HardLink | DirectoryKind | RegularKind | Continuous | SymlinkKind | OtherKind

  datatype LinkName = Unreadable | Missing | Target(target: string)

  /** One tar entry. `None` in a header field stands for a field the tar reader
      cannot parse, `None` in `name` for a name that is not UTF-8. */
  datatype TarEntry = TarEntry(
    name: Option<string>, kind: EntryKind, mode: Option<nat>, mtime: Option<U64>, size: Option<U64>,
    link: LinkName, content: Bytes)

  datatype Reject =
    | EntryCap
    | NotUtf8
    | Absolute
    | Nul
    | DotDot
    | EmptyName
    | ReservedComponent
    | HardLinkEntry
    | OpaqueAtRoot
    | BadWhiteoutTarget
    | BadHeader
    | LinkWithoutTarget
    | Unsupported

  datatype Planned =
    | DirectoryEntry(comps: Path, mode: nat)
    | FileEntry(comps: Path, mode: nat, mtime: U64, size: U64)
    | SymlinkEntry(comps: Path)
    | OpaqueDir(comps: Path)
    | Whiteout(comps: Path)

  datatype Plan = Plan(entries: seq<Planned>, opaqueDirs: seq<Path>, whiteoutTargets: seq<Path>)

  predicate StartsWith(s: string, prefix: string) {
    prefix <= s
  }

  predicate Reserved(component: string) {
    StartsWith(component, WHITEOUT_PREFIX)
  }

  /** Some component before the last one is reserved. */
  predicate ReservedInside(comps: Path) {
    exists i :: 0 <= i < |comps| - 1 && Reserved(comps[i])
  }

  // ---- entry names -------------------------------------------------------

  /** `str::split('/')`: the maximal runs of other characters, at least one. */
  function Split(s: string): (parts: seq<string>)
    ensures parts != []
  {
    if s == [] then [[]]
    else
      var rest := Split(s[1..]);
      if s[0] == '/' then [[]] + rest else [[s[0]] + rest[0]] + rest[1..]
  }

  predicate Trivial(part: string) {
    part == "" || part == "."
  }

  /** The parts that carry a name, in order. */
  function Significant(parts: seq<string>): seq<string> {
    if parts == [] then []
    else if Trivial(parts[0]) then Significant(parts[1..])
    else [parts[0]] + Significant(parts[1..])
  }

  /** What `validated_components` answers for `name`. */
  function Components(name: string): Result<Path, Reject> {
    var parts := Split(name);
    var comps := Significant(parts);
    if StartsWith(name, "/") then Err(Absolute)
    else if '\0' in name then Err(Nul)
    else if ".." in parts then Err(DotDot)
    else if comps == [] then Err(EmptyName)
    else if ReservedInside(comps) then Err(ReservedComponent)
    else Ok(comps)
  }

  method ValidatedComponents(name: string) returns (r: Result<Path, Reject>)
    ensures r == Components(name)
  {
    if StartsWith(name, "/") {
      return Err(Absolute);
    }
    if '\0' in name {
      return Err(Nul);
    }
    var parts := Split(name);
    var comps := [];
    for k := 0 to |parts|
      invariant ".." !in parts[..k]
      invariant comps + Significant(parts[k..]) == Significant(parts)
    {
      assert parts[k..][0] == parts[k] && parts[k..][1..] == parts[k + 1..];
      if Trivial(parts[k]) {
        continue;
      }
      if parts[k] == ".." {
        return Err(DotDot);
      }
      comps := comps + [parts[k]];
    }
    assert comps == Significant(parts);
    if comps == [] {
      return Err(EmptyName);
    }
    for k := 0 to |comps| - 1
      invariant forall i :: 0 <= i < k ==> !Reserved(comps[i])
    {
      if Reserved(comps[k]) {
        assert ReservedInside(comps);
        return Err(ReservedComponent);
      }
    }
    r := Ok(comps);
  }

  /** A component that names a child of a directory and nothing else. */
  predicate SafeComponent(c: string) {
    !Trivial(c) && c != ".." && '/' !in c && '\0' !in c
  }

  /** A component list the apply passes may walk: it stays inside the destination
      and names no marker. */
  predicate SafePath(p: Path) {
    p != [] && forall i :: 0 <= i < |p| ==> SafeComponent(p[i]) && !Reserved(p[i])
  }

  lemma {:induction false} SplitParts(s: string, c: char)
    ensures forall part :: part in Split(s) ==> '/' !in part
    ensures c !in s ==> forall part :: part in Split(s) ==> c !in part
  {
    if s != [] {
      SplitParts(s[1..], c);
      var rest := Split(s[1..]);
      forall part | part in Split(s) ensures '/' !in part && (c !in s ==> c !in part) {
        if part !in rest && part != [] {
          assert part == [s[0]] + rest[0];
        }
      }
    }
  }

  lemma {:induction false} SignificantParts(parts: seq<string>)
    ensures forall c :: c in Significant(parts) <==> c in parts && !Trivial(c)
  {
    if parts != [] {
      SignificantParts(parts[1..]);
      assert parts == [parts[0]] + parts[1..];
    }
  }

  lemma AcceptedComponents(name: string)
    requires Components(name).Ok?
    ensures var p := Components(name).value;
            p != [] && (forall i :: 0 <= i < |p| ==> SafeComponent(p[i])) && (p == [p[|p| - 1]] || SafePath(Parent(p)))
  {
    var p := Components(name).value;
    SplitParts(name, '\0');
    SignificantParts(Split(name));
    forall i | 0 <= i < |p| ensures SafeComponent(p[i]) {
      assert p[i] in p;
    }
  }

  /** `/`-joined name of a component list. */
  function Joined(p: Path): string
    requires p != []
  {
    if |p| == 1 then p[0] else p[0] + "/" + Joined(p[1..])
  }

  lemma {:induction false} SplitJoined(c: string, rest: string)
    requires '/' !in c
    ensures Split(c) == [c]
    ensures Split(c + "/" + rest) == [c] + Split(rest)
  {
    if c == [] {
      assert c + "/" + rest == "/" + rest && ("/" + rest)[1..] == rest;
    } else {
      SplitJoined(c[1..], rest);
      var s := c + "/" + rest;
      assert s[0] == c[0] && s[1..] == c[1..] + "/" + rest;
      assert c == [c[0]] + c[1..];
    }
  }

  lemma {:induction false} SplitOfJoined(parts: seq<string>)
    requires parts != [] && forall part :: part in parts ==> '/' !in part
    ensures Split(Joined(parts)) == parts
  {
    SplitJoined(parts[0], "");
    assert parts == [parts[0]] + parts[1..];
    if |parts| > 1 {
      SplitOfJoined(parts[1..]);
      SplitJoined(parts[0], Joined(parts[1..]));
    }
  }

  lemma {:induction false} JoinedOfSplit(s: string)
    ensures Joined(Split(s)) == s
  {
    if s != [] {
      JoinedOfSplit(s[1..]);
      var rest := Split(s[1..]);
      assert s == [s[0]] + s[1..];
      if s[0] == '/' {
        assert ([[]] + rest)[1..] == rest;
      } else {
        assert ([[s[0]] + rest[0]] + rest[1..])[1..] == rest[1..];
      }
    }
  }

  /** Splitting at slashes is the inverse of joining with them: the parts of a name are
      the one list of slash-free parts that joins to it. */
  lemma SplitExactly(name: string, parts: seq<string>)
    ensures parts == Split(name) <==>
            parts != [] && (forall part :: part in parts ==> '/' !in part) && Joined(parts) == name
  {
    SplitParts(name, '/');
    JoinedOfSplit(name);
    if parts != [] && (forall part :: part in parts ==> '/' !in part) && Joined(parts) == name {
      SplitOfJoined(parts);
    }
  }

  lemma {:induction false} SignificantOneMore(before: seq<string>, last: string, parts: seq<string>)
    requires parts == before + [last]
    ensures Significant(parts) == if last != "" && last != "." then Significant(before) + [last] else Significant(before)
  {
    if before != [] {
      assert parts[0] == before[0] && parts[1..] == before[1..] + [last];
      SignificantOneMore(before[1..], last, parts[1..]);
    }
  }

  /** Empty parts and single dots carry no name; all others do, in their order. */
  lemma SignificantSelects(parts: seq<string>) returns (at: seq<nat>)
    ensures Selects(Significant(parts), parts, part => part != "" && part != ".", at)
  {
    var f: seq<string> -> seq<string> := some => Significant(some);
    var keep: string -> bool := part => part != "" && part != ".";
    forall before, last
      ensures f(before + [last]) == if keep(last) then f(before) + [last] else f(before)
    {
      SignificantOneMore(before, last, before + [last]);
    }
    at := GrowingSelects(f, keep, parts);
  }

  /** Which names are accepted, and as what: relative ones, free of NUL and of parent
      steps, that carry some name and no marker before the last one. */
  lemma AcceptedNames(name: string, p: Path)
    ensures Components(name) == Ok(p) <==>
            && (name == [] || name[0] != '/') && '\0' !in name && ".." !in Split(name)
            && Significant(Split(name)) == p && p != []
            && forall i :: 0 <= i < |p| - 1 ==> !(".wh." <= p[i])
  {
    if ReservedInside(Significant(Split(name))) {
      var i :| 0 <= i < |Significant(Split(name))| - 1 && Reserved(Significant(Split(name))[i]);
    }
  }

  lemma {:induction false} JoinedSplits(p: Path)
    requires p != [] && forall i :: 0 <= i < |p| ==> SafeComponent(p[i])
    ensures Split(Joined(p)) == p && Significant(p) == p
    ensures '\0' !in Joined(p) && Joined(p) != [] && Joined(p)[0] != '/'
  {
    assert p[0] != [];
    SplitJoined(p[0], "");
    if |p| > 1 {
      JoinedSplits(p[1..]);
      SplitJoined(p[0], Joined(p[1..]));
      JoinedStart(p[0], Joined(p[1..]));
      SignificantFirst(p[0], p[1..], p);
    } else {
      SignificantFirst(p[0], [], p);
    }
    assert p == [p[0]] + p[1..];
  }

  lemma JoinedStart(c: string, rest: string)
    requires SafeComponent(c) && '\0' !in rest
    ensures '\0' !in c + "/" + rest && c + "/" + rest != [] && (c + "/" + rest)[0] != '/'
  {
    assert (c + "/" + rest)[0] == c[0] && c[0] in c;
  }

  lemma SignificantFirst(c: string, rest: seq<string>, parts: seq<string>)
    requires SafeComponent(c) && parts == [c] + rest
    ensures Significant(parts) == [c] + Significant(rest)
  {
    assert parts[1..] == rest;
  }

  /** Joining and validating are inverse: every list of safe components whose
      reserved component, if any, comes last is read back from its own name. */
  lemma ComponentsRoundTrip(p: Path)
    requires p != [] && forall i :: 0 <= i < |p| ==> SafeComponent(p[i])
    ensures Components(Joined(p)) == if ReservedInside(p) then Err(ReservedComponent) else Ok(p)
  {
    JoinedSplits(p);
    assert ".." !in p;
  }

  // ---- classification ----------------------------------------------------

  predicate BadTarget(stripped: string) {
    Trivial(stripped) || stripped == ".." || '/' in stripped || Reserved(stripped)
  }

  /** What `classify_entry` makes of an entry whose name gave `comps`. */
  function Classify(e: TarEntry, comps: Path): Result<Planned, Reject>
    requires comps != []
  {
    var last := comps[|comps| - 1];
    if e.kind == HardLink then Err(HardLinkEntry)
    else if last == OPAQUE_MARKER then
      if |comps| < 2 then Err(OpaqueAtRoot) else Ok(OpaqueDir(Parent(comps)))
    else if Reserved(last) then
      var stripped := last[|WHITEOUT_PREFIX|..];
      if BadTarget(stripped) then Err(BadWhiteoutTarget) else Ok(Whiteout(Parent(comps) + [stripped]))
    else if e.mode.None? then Err(BadHeader)
    else
      var mode := e.mode.value % 0x1000; // & 0o7777
      match e.kind
      case DirectoryKind => Ok(DirectoryEntry(comps, mode))
      case RegularKind | Continuous =>
        if e.mtime.None? || e.size.None? then Err(BadHeader)
        else Ok(FileEntry(comps, mode, e.mtime.value, e.size.value))
      case SymlinkKind =>
        if e.link.Target? then Ok(SymlinkEntry(comps))
        else if e.link.Missing? then Err(LinkWithoutTarget)
        else Err(BadHeader)
      case _ => Err(Unsupported)
  }

  function PlanEntry(e: TarEntry): Result<Planned, Reject> {
    if e.name.None? then Err(NotUtf8)
    else match Components(e.name.value)
      case Err(error) => Err(error)
      case Ok(comps) => Classify(e, comps)
  }

  /** No accepted entry, content or marker, reaches outside the destination or
      names a reserved component. */
  lemma PlannedPathsAreSafe(e: TarEntry)
    requires PlanEntry(e).Ok?
    ensures SafePath(PlanEntry(e).value.comps)
  {
    AcceptedComponents(e.name.value);
    var comps := Components(e.name.value).value;
    var last := comps[|comps| - 1];
    if Reserved(last) && last != OPAQUE_MARKER {
      StrippedIsSafe(last);
      SafeExtended(Parent(comps), last[|WHITEOUT_PREFIX|..]);
    } else if !Reserved(last) {
      SafeExtended(Parent(comps), last);
      assert comps == Parent(comps) + [last];
    }
  }

  lemma StrippedIsSafe(last: string)
    requires SafeComponent(last) && Reserved(last) && !BadTarget(last[|WHITEOUT_PREFIX|..])
    ensures SafeComponent(last[|WHITEOUT_PREFIX|..]) && !Reserved(last[|WHITEOUT_PREFIX|..])
  {
    assert last == WHITEOUT_PREFIX + last[|WHITEOUT_PREFIX|..];
  }

  lemma SafeExtended(p: Path, c: string)
    requires (p == [] || SafePath(p)) && SafeComponent(c) && !Reserved(c)
    ensures SafePath(p + [c])
  {
  }

  /** Every safe path can be whited out: the marker entry that the layer format names
      for it is planned as exactly that. */
  lemma WhiteoutRoundTrip(p: Path, e: TarEntry)
    requires SafePath(p) && !e.kind.HardLink?
    ensures PlanEntry(e.(name := Some(Joined(WhiteoutName(p))))) == Ok(Whiteout(p))
  {
    var w := WhiteoutName(p);
    PrefixedName(p[|p| - 1]);
    ComponentsRoundTrip(w);
    assert Parent(w) + [p[|p| - 1]] == p;
  }

  /** Every safe path can be made opaque in the same way. */
  lemma OpaqueRoundTrip(p: Path, e: TarEntry)
    requires SafePath(p) && !e.kind.HardLink?
    ensures PlanEntry(e.(name := Some(Joined(p + [OPAQUE_MARKER])))) == Ok(OpaqueDir(p))
  {
    var o := p + [OPAQUE_MARKER];
    assert Parent(o) == p && o[|p|] == OPAQUE_MARKER;
    ComponentsRoundTrip(o);
  }

  function WhiteoutName(p: Path): Path
    requires p != []
  {
    Parent(p) + [WHITEOUT_PREFIX + p[|p| - 1]]
  }

  lemma PrefixedName(c: string)
    requires SafeComponent(c) && !Reserved(c)
    ensures var w := WHITEOUT_PREFIX + c;
            SafeComponent(w) && Reserved(w) && w[|WHITEOUT_PREFIX|..] == c && w != OPAQUE_MARKER && !BadTarget(c)
  {
    var w := WHITEOUT_PREFIX + c;
    assert w[0] == '.' && w[1] == 'w';
    assert w[|WHITEOUT_PREFIX|..] == c;
    assert OPAQUE_MARKER[|WHITEOUT_PREFIX|..] == ".wh..opq";
  }

  /** The name of an entry that asks for `p`, as components. */
  function NameFor(p: Planned): Path {
    match p
    case OpaqueDir(dir) => dir + [".wh..wh..opq"]
    case Whiteout(target) => if target == [] then [] else target[..|target| - 1] + [".wh." + target[|target| - 1]]
    case _ => p.comps
  }

  /** The entry asks for `p`: by its name, its kind and the fields of its header. Of the
      mode the low twelve bits count, of a symlink only that it has a target. */
  predicate AsksFor(e: TarEntry, p: Planned) {
    && SafePath(p.comps) && !e.kind.HardLink?
    && e.name.Some? && Components(e.name.value) == Ok(NameFor(p))
    && match p
       case DirectoryEntry(_, mode) => e.kind.DirectoryKind? && e.mode.Some? && mode == e.mode.value % 4096
       case FileEntry(_, mode, mtime, size) =>
         && (e.kind.RegularKind? || e.kind.Continuous?)
         && e.mode.Some? && mode == e.mode.value % 4096 && e.mtime == Some(mtime) && e.size == Some(size)
       case SymlinkEntry(_) => e.kind.SymlinkKind? && e.mode.Some? && e.link.Target?
       case _ => true
  }

  /** An entry is planned as what it asks for, and refused if it asks for nothing. */
  lemma PlannedExactly(e: TarEntry, p: Planned)
    ensures PlanEntry(e) == Ok(p) <==> AsksFor(e, p)
  {
    if PlanEntry(e) == Ok(p) {
      PlannedPathsAreSafe(e);
      NamedExactly(Components(e.name.value).value, e, p);
    }
    if AsksFor(e, p) {
      AskedIsPlanned(e, p);
    }
  }

  lemma NamedExactly(comps: Path, e: TarEntry, p: Planned)
    requires comps != [] && Classify(e, comps) == Ok(p)
    ensures NameFor(p) == comps
  {
    var last := comps[|comps| - 1];
    assert comps == comps[..|comps| - 1] + [last];
    if p.Whiteout? {
      assert last == ".wh." + last[4..];
      assert p.comps[..|p.comps| - 1] == comps[..|comps| - 1];
    }
  }

  lemma AskedIsPlanned(e: TarEntry, p: Planned)
    requires AsksFor(e, p)
    ensures PlanEntry(e) == Ok(p)
  {
    if p.OpaqueDir? {
      OpaqueIsPlanned(p.comps, e);
    } else if p.Whiteout? {
      WhiteoutIsPlanned(p.comps, e);
    } else {
      assert !Reserved(p.comps[|p.comps| - 1]) && Reserved(OPAQUE_MARKER);
    }
  }

  lemma OpaqueIsPlanned(dir: Path, e: TarEntry)
    requires dir != [] && !e.kind.HardLink?
    ensures Classify(e, dir + [".wh..wh..opq"]) == Ok(OpaqueDir(dir))
  {
    var comps := dir + [".wh..wh..opq"];
    assert comps[|comps| - 1] == OPAQUE_MARKER && Parent(comps) == dir;
  }

  lemma WhiteoutIsPlanned(target: Path, e: TarEntry)
    requires SafePath(target) && !e.kind.HardLink?
    ensures Classify(e, target[..|target| - 1] + [".wh." + target[|target| - 1]]) == Ok(Whiteout(target))
  {
    var dir, name := target[..|target| - 1], target[|target| - 1];
    var comps := dir + [".wh." + name];
    PrefixedName(name);
    assert comps[|comps| - 1] == ".wh." + name && Parent(comps) == dir;
    assert target == dir + [name];
  }

  /** Every safe path can be asked for by its own name: the entry is planned by its kind,
      with the fields of its header, or refused for the reason given. Hard links are
      refused whatever they carry. */
  lemma ContentRoundTrip(p: Path, e: TarEntry)
    requires SafePath(p) && e.name == Some(Joined(p))
    ensures PlanEntry(e) ==
            match e.kind
            case HardLink => Err(HardLinkEntry)
            case DirectoryKind => if e.mode.None? then Err(BadHeader) else Ok(DirectoryEntry(p, e.mode.value % 4096))
            case RegularKind | Continuous =>
              if e.mode.None? || e.mtime.None? || e.size.None? then Err(BadHeader)
              else Ok(FileEntry(p, e.mode.value % 4096, e.mtime.value, e.size.value))
            case SymlinkKind =>
              if e.mode.None? || e.link.Unreadable? then Err(BadHeader)
              else if e.link.Missing? then Err(LinkWithoutTarget)
              else Ok(SymlinkEntry(p))
            case OtherKind => if e.mode.None? then Err(BadHeader) else Err(Unsupported)
  {
    ComponentsRoundTrip(p);
    assert !Reserved(p[|p| - 1]) && Reserved(OPAQUE_MARKER);
  }

  /** Markers that name no target: the opaque marker of the destination itself, and a
      whiteout of nothing, of a dot or dot-dot, or of another marker. */
  lemma MarkersWithoutTarget(dir: Path, marked: string, e: TarEntry)
    requires (dir == [] || SafePath(dir)) && !e.kind.HardLink?
    requires marked in {"", ".", ".."} || (".wh." <= marked && '/' !in marked && '\0' !in marked)
    requires e.name == Some(Joined(dir + [".wh." + marked]))
    ensures PlanEntry(e) ==
            if marked == ".wh..opq" then if dir == [] then Err(OpaqueAtRoot) else Ok(OpaqueDir(dir))
            else Err(BadWhiteoutTarget)
  {
    var last := ".wh." + marked;
    var comps := dir + [last];
    MarkerName(marked);
    assert comps[|comps| - 1] == last && Parent(comps) == dir;
    ComponentsRoundTrip(comps);
  }

  lemma MarkerName(marked: string)
    requires marked in {"", ".", ".."} || (".wh." <= marked && '/' !in marked && '\0' !in marked)
    ensures SafeComponent(".wh." + marked) && Reserved(".wh." + marked) && BadTarget(marked)
    ensures (".wh." + marked)[4..] == marked
    ensures ".wh." + marked == OPAQUE_MARKER <==> marked == ".wh..opq"
  {
    var last := ".wh." + marked;
    assert last[4..] == marked && last[0] == '.' && last[1] == 'w';
    assert OPAQUE_MARKER[4..] == ".wh..opq" && ".wh." + ".wh..opq" == OPAQUE_MARKER;
  }

  // ---- the plan ------------------------------------------------------------

  ghost predicate Accepted(stream: seq<TarEntry>, cap: nat) {
    |stream| <= cap && forall i :: 0 <= i < |stream| ==> PlanEntry(stream[i]).Ok?
  }

  /** `plan` lists, entry by entry, what the stream holds. */
  ghost predicate Plans(stream: seq<TarEntry>, plan: seq<Planned>) {
    |plan| == |stream| && forall i :: 0 <= i < |stream| ==> PlanEntry(stream[i]) == Ok(plan[i])
  }

  function OpaqueDirs(plan: seq<Planned>): seq<Path> {
    if plan == [] then []
    else
      var last := plan[|plan| - 1];
      OpaqueDirs(plan[..|plan| - 1]) + if last.OpaqueDir? then [last.comps] else []
  }

  function Whiteouts(plan: seq<Planned>): seq<Path> {
    if plan == [] then []
    else
      var last := plan[|plan| - 1];
      Whiteouts(plan[..|plan| - 1]) + if last.Whiteout? then [last.comps] else []
  }

  lemma MarkersAppended(plan: seq<Planned>, e: Planned)
    ensures OpaqueDirs(plan + [e]) == OpaqueDirs(plan) + if e.OpaqueDir? then [e.comps] else []
    ensures Whiteouts(plan + [e]) == Whiteouts(plan) + if e.Whiteout? then [e.comps] else []
  {
    assert (plan + [e])[..|plan|] == plan;
  }

  /** `error` is what the first entry that cannot be planned gives, or the entry
      cap when that is reached first. */
  ghost predicate RejectedWith(stream: seq<TarEntry>, cap: nat, error: Reject) {
    exists i :: && 0 <= i < |stream| && i <= cap
                && (forall j :: 0 <= j < i ==> PlanEntry(stream[j]).Ok?)
                && if i == cap then error == EntryCap else PlanEntry(stream[i]) == Err(error)
  }

  lemma RejectedAt(stream: seq<TarEntry>, cap: nat, entries: seq<Planned>, error: Reject)
    requires |entries| < |stream| && |entries| <= cap && Plans(stream[..|entries|], entries)
    requires if |entries| == cap then error == EntryCap else PlanEntry(stream[|entries|]) == Err(error)
    ensures RejectedWith(stream, cap, error) && !Accepted(stream, cap)
  {
    var k := |entries|;
    assert forall i :: 0 <= i < k ==> PlanEntry(stream[..k][i]) == PlanEntry(stream[i]);
    assert stream[k] in stream;
  }

  method PlanNextEntry(e: TarEntry) returns (r: Result<Planned, Reject>)
    ensures r == PlanEntry(e)
  {
    if e.name.None? {
      return Err(NotUtf8);
    }
    var comps := ValidatedComponents(e.name.value);
    if comps.Err? {
      return Err(comps.error);
    }
    r := Classify(e, comps.value);
  }

  lemma PlansExtended(stream: seq<TarEntry>, entries: seq<Planned>, e: Planned)
    requires |entries| < |stream| && Plans(stream[..|entries|], entries) && PlanEntry(stream[|entries|]) == Ok(e)
    ensures Plans(stream[..|entries| + 1], entries + [e])
  {
    var k := |entries|;
    forall i | 0 <= i <= k ensures PlanEntry(stream[..k + 1][i]) == Ok((entries + [e])[i]) {
      if i < k {
        assert stream[..k][i] == stream[i];
        assert PlanEntry(stream[..k][i]) == Ok(entries[i]);
      }
    }
  }

  lemma PlannedIsAccepted(stream: seq<TarEntry>, cap: nat, entries: seq<Planned>)
    requires |stream| <= cap && Plans(stream, entries)
    ensures Accepted(stream, cap)
  {
    forall i | 0 <= i < |stream| ensures PlanEntry(stream[i]).Ok? {
      assert PlanEntry(stream[i]) == Ok(entries[i]);
    }
  }

  lemma PlannedAsAsked(stream: seq<TarEntry>, entries: seq<Planned>)
    requires Plans(stream, entries)
    ensures forall i :: 0 <= i < |stream| ==> AsksFor(stream[i], entries[i])
  {
    forall i | 0 <= i < |stream| ensures AsksFor(stream[i], entries[i]) {
      PlannedExactly(stream[i], entries[i]);
    }
  }

  ghost predicate AsksForSomething(e: TarEntry) {
    exists p :: AsksFor(e, p)
  }

  lemma PlannedIfAsked(e: TarEntry)
    ensures PlanEntry(e).Ok? <==> AsksForSomething(e)
  {
    if PlanEntry(e).Ok? {
      PlannedExactly(e, PlanEntry(e).value);
    }
    if AsksForSomething(e) {
      var p :| AsksFor(e, p);
      PlannedExactly(e, p);
    }
  }

  /** A stream is accepted exactly when it is within the cap and every entry asks for
      something. */
  lemma AcceptedExactly(stream: seq<TarEntry>, cap: nat)
    ensures Accepted(stream, cap) <==> |stream| <= cap && forall i :: 0 <= i < |stream| ==> AsksForSomething(stream[i])
  {
    forall e ensures PlanEntry(e).Ok? <==> AsksForSomething(e) {
      PlannedIfAsked(e);
    }
  }

  /** The loop over the entries; the markers are collected in stream order. */
  method PlanEntries(stream: seq<TarEntry>, cap: nat) returns (r: Result<Plan, Reject>)
    ensures r.Ok? <==> Accepted(stream, cap)
    ensures r.Ok? ==> Plans(stream, r.value.entries)
    ensures r.Ok? ==> forall i :: 0 <= i < |stream| ==> AsksFor(stream[i], r.value.entries[i])
    ensures r.Ok? ==> r.value.opaqueDirs == OpaqueDirs(r.value.entries)
    ensures r.Ok? ==> r.value.whiteoutTargets == Whiteouts(r.value.entries)
    ensures r.Err? ==> RejectedWith(stream, cap, r.error)
  {
    var entries: seq<Planned>, opaqueDirs: seq<Path>, whiteouts: seq<Path> := [], [], [];
    for k := 0 to |stream|
      invariant k == |entries| <= cap
      invariant Plans(stream[..k], entries)
      invariant opaqueDirs == OpaqueDirs(entries) && whiteouts == Whiteouts(entries)
    {
      if k >= cap {
        RejectedAt(stream, cap, entries, EntryCap);
        return Err(EntryCap);
      }
      var planned := PlanNextEntry(stream[k]);
      if planned.Err? {
        RejectedAt(stream, cap, entries, planned.error);
        return Err(planned.error);
      }
      MarkersAppended(entries, planned.value);
      PlansExtended(stream, entries, planned.value);
      if planned.value.OpaqueDir? {
        opaqueDirs := opaqueDirs + [planned.value.comps];
      } else if planned.value.Whiteout? {
        whiteouts := whiteouts + [planned.value.comps];
      }
      entries := entries + [planned.value];
    }
    assert stream[..|stream|] == stream;
    PlannedIsAccepted(stream, cap, entries);
    PlannedAsAsked(stream, entries);
    r := Ok(Plan(entries, opaqueDirs, whiteouts));
  }

  method PlanStream(stream: seq<TarEntry>, cap: nat) returns (r: Result<Plan, Reject>)
    ensures r.Ok? <==> Accepted(stream, cap)
    ensures r.Ok? ==> Plans(stream, r.value.entries)
    ensures r.Ok? ==> forall i :: 0 <= i < |stream| ==> AsksFor(stream[i], r.value.entries[i])
    ensures r.Ok? ==>
              && SortedBy(PathLe, r.value.opaqueDirs) && SortedBy(PathLe, r.value.whiteoutTargets)
              && multiset(r.value.opaqueDirs) == multiset(OpaqueDirs(r.value.entries))
              && multiset(r.value.whiteoutTargets) == multiset(Whiteouts(r.value.entries))
    ensures r.Err? ==> RejectedWith(stream, cap, r.error)
  {
    r := PlanEntries(stream, cap);
    if r.Ok? {
      PathLeIsTotal();
      var opaqueDirs := Sort(PathLe, r.value.opaqueDirs);
      var whiteouts := Sort(PathLe, r.value.whiteoutTargets);
      r := Ok(Plan(r.value.entries, opaqueDirs, whiteouts));
    }
  }

  lemma {:induction false} MarkersListed(plan: seq<Planned>, p: Path)
    ensures p in OpaqueDirs(plan) <==> OpaqueDir(p) in plan
    ensures p in Whiteouts(plan) <==> Whiteout(p) in plan
  {
    if plan != [] {
      MarkersListed(plan[..|plan| - 1], p);
      assert plan == plan[..|plan| - 1] + [plan[|plan| - 1]];
    }
  }

  /** Every marker is listed as often as the stream holds it. */
  lemma MarkersCounted(plan: seq<Planned>, p: Path)
    ensures multiset(OpaqueDirs(plan))[p] == CountIf(plan, e => e == OpaqueDir(p))
    ensures multiset(Whiteouts(plan))[p] == CountIf(plan, e => e == Whiteout(p))
  {
    OpaqueDirsCounted(plan, p);
    WhiteoutsCounted(plan, p);
  }

  lemma {:induction false} OpaqueDirsCounted(plan: seq<Planned>, p: Path)
    ensures multiset(OpaqueDirs(plan))[p] == CountIf(plan, e => e == OpaqueDir(p))
  {
    if plan != [] {
      var before, last := plan[..|plan| - 1], plan[|plan| - 1];
      OpaqueDirsCounted(before, p);
      ListedOneMore(OpaqueDirs(before), last.comps, last.OpaqueDir?, p);
      CountOneMore(before, last, plan, e => e == OpaqueDir(p));
    }
  }

  lemma {:induction false} WhiteoutsCounted(plan: seq<Planned>, p: Path)
    ensures multiset(Whiteouts(plan))[p] == CountIf(plan, e => e == Whiteout(p))
  {
    if plan != [] {
      var before, last := plan[..|plan| - 1], plan[|plan| - 1];
      WhiteoutsCounted(before, p);
      ListedOneMore(Whiteouts(before), last.comps, last.Whiteout?, p);
      CountOneMore(before, last, plan, e => e == Whiteout(p));
    }
  }

  lemma ListedOneMore(listed: seq<Path>, next: Path, added: bool, p: Path)
    ensures multiset(listed + if added then [next] else [])[p] ==
            multiset(listed)[p] + if added && next == p then 1 else 0
  {
    assert listed + [] == listed;
  }

  lemma {:induction false} MarkersNumbered(plan: seq<Planned>)
    ensures |OpaqueDirs(plan)| == CountIf(plan, (e: Planned) => e.OpaqueDir?)
    ensures |Whiteouts(plan)| == CountIf(plan, (e: Planned) => e.Whiteout?)
  {
    if plan != [] {
      var before, last := plan[..|plan| - 1], plan[|plan| - 1];
      MarkersNumbered(before);
      assert plan == before + [last];
      CountOneMore(before, last, plan, (e: Planned) => e.OpaqueDir?);
      CountOneMore(before, last, plan, (e: Planned) => e.Whiteout?);
    }
  }
}
