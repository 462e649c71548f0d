/** The diagnostic artifact: which workspace holders it keeps and how it is shrunk
    to its size cap. */
module Artifact {
  import opened Orders

  const MAX_WORKSPACE_IDS := 128
  const MAX_WORKSPACE_ID_BYTES := 256
  const MAX_ARTIFACT_BYTES := 1048576

  /** A string as its UTF-8 bytes. */
  type Utf8 = seq<byte>

  datatype Holder = Holder(workspaceId: Utf8, pid: int)

  // ---- truncation -------------------------------------------------------------------

  /** `is_char_boundary`: not in front of a continuation byte. */
  predicate Boundary(s: Utf8, i: nat) {
    i == 0 || i == |s| || (i < |s| && !(0x80 <= s[i] < 0xC0))
  }

  /** `r` is the longest prefix of at most `max` bytes that ends between characters. */
  ghost predicate IsTruncation(s: Utf8, max: nat, r: Utf8) {
    && r <= s && |r| <= max && Boundary(s, |r|)
    && forall i :: |r| < i <= max && i <= |s| ==> !Boundary(s, i)
  }

  function TruncatedEnd(s: Utf8, end: nat): (r: nat)
    requires end <= |s|
    ensures r <= end && Boundary(s, r) && forall i :: r < i <= end ==> !Boundary(s, i)
  {
    if Boundary(s, end) then end else TruncatedEnd(s, end - 1)
  }

  function Truncated(s: Utf8, max: nat): (r: Utf8)
    ensures IsTruncation(s, max, r)
  {
    if |s| <= max then s else s[..TruncatedEnd(s, max)]
  }

  method TruncateUtf8(s: Utf8, max: nat) returns (r: Utf8)
    ensures r == Truncated(s, max)
  {
    if |s| <= max {
      return s;
    }
    var end := max;
    while !Boundary(s, end)
      invariant 0 <= end <= max < |s|
      invariant TruncatedEnd(s, end) == TruncatedEnd(s, max)
      decreases end
    {
      end := end - 1;
    }
    r := s[..end];
  }

  predicate Continuation(b: byte) {
    0x80 <= b < 0xC0
  }

  /** One character in UTF-8: exactly its first byte is no continuation byte. */
  predicate IsCharacter(bytes: Utf8) {
    bytes != [] && forall i :: 0 <= i < |bytes| ==> (Continuation(bytes[i]) <==> i > 0)
  }

  type Character = bytes: Utf8 | IsCharacter(bytes) witness [0]

  /** The encoding of a code point. */
  function Encoded(c: nat): seq<byte>
    requires c < 0x11_0000
  {
    if c < 0x80 then [c]
    else if c < 0x800 then [0xC0 + c / 64, 0x80 + c % 64]
    else if c < 0x1_0000 then [0xE0 + c / 4096, 0x80 + c / 64 % 64, 0x80 + c % 64]
    else [0xF0 + c / 262144, 0x80 + c / 4096 % 64, 0x80 + c / 64 % 64, 0x80 + c % 64]
  }

  lemma EncodedIsCharacter(c: nat)
    requires c < 0x11_0000
    ensures IsCharacter(Encoded(c))
  {
  }

  function Text(cs: seq<Character>): Utf8 {
    if cs == [] then [] else Text(cs[..|cs| - 1]) + cs[|cs| - 1]
  }

  /** Byte `i` is the first of some character. */
  ghost predicate Starts(cs: seq<Character>, i: nat) {
    exists k :: 0 <= k < |cs| && i == |Text(cs[..k])|
  }

  lemma StartsOneMore(cs: seq<Character>, i: nat)
    requires cs != []
    ensures Starts(cs, i) <==> Starts(cs[..|cs| - 1], i) || i == |Text(cs[..|cs| - 1])|
  {
    var before := cs[..|cs| - 1];
    assert forall k :: 0 <= k < |cs| ==> before[..k] == cs[..k];
    if Starts(before, i) {
      var k :| 0 <= k < |before| && i == |Text(before[..k])|;
      assert i == |Text(cs[..k])|;
    }
    if Starts(cs, i) {
      var k :| 0 <= k < |cs| && i == |Text(cs[..k])|;
      assert k < |before| ==> i == |Text(before[..k])|;
    }
  }

  lemma {:induction false} FirstCharacters(cs: seq<Character>, k: nat)
    requires k <= |cs|
    ensures Text(cs[..k]) <= Text(cs)
    ensures k < |cs| ==> |Text(cs[..k])| < |Text(cs)|
  {
    if k == |cs| {
      assert cs[..k] == cs;
    } else {
      var before := cs[..|cs| - 1];
      FirstCharacters(before, k);
      assert before[..k] == cs[..k];
    }
  }

  /** Exactly the continuation bytes do not start a character. */
  lemma {:induction false} CharactersStart(cs: seq<Character>, i: nat)
    requires i < |Text(cs)|
    ensures Continuation(Text(cs)[i]) <==> !Starts(cs, i)
  {
    var before, last := cs[..|cs| - 1], cs[|cs| - 1];
    var n := |Text(before)|;
    StartsOneMore(cs, i);
    if i < n {
      CharactersStart(before, i);
    } else {
      assert Text(cs)[i] == last[i - n];
      if Starts(before, i) {
        var k :| 0 <= k < |before| && i == |Text(before[..k])|;
        FirstCharacters(before, k);
      }
    }
  }

  /** Truncating keeps whole characters: of a text it leaves the longest run of its first
      characters that fits. */
  lemma TruncationKeepsCharacters(cs: seq<Character>, max: nat) returns (k: nat)
    ensures k <= |cs| && Truncated(Text(cs), max) == Text(cs[..k])
    ensures |Text(cs[..k])| <= max
    ensures k < |cs| ==> |Text(cs[..k + 1])| > max
  {
    var s, r := Text(cs), Truncated(Text(cs), max);
    if |r| == |s| {
      k := |cs|;
      assert cs[..|cs|] == cs;
    } else {
      k := StartOf(cs, |r|);
      FirstCharacters(cs, k);
      SamePrefix(r, Text(cs[..k]), s);
      NextStart(cs, k);
    }
  }

  lemma StartOf(cs: seq<Character>, i: nat) returns (k: nat)
    requires i < |Text(cs)| && Boundary(Text(cs), i)
    ensures k < |cs| && i == |Text(cs[..k])|
  {
    if i == 0 {
      k := 0;
      assert cs[..0] == [];
    } else {
      CharactersStart(cs, i);
      k :| 0 <= k < |cs| && i == |Text(cs[..k])|;
    }
  }

  lemma SamePrefix(a: Utf8, b: Utf8, s: Utf8)
    requires a <= s && b <= s && |a| == |b|
    ensures a == b
  {
    assert a == s[..|a|];
  }

  /** The end of a character is a boundary. */
  lemma NextStart(cs: seq<Character>, k: nat)
    requires k < |cs|
    ensures |Text(cs[..k])| < |Text(cs[..k + 1])| <= |Text(cs)| && Boundary(Text(cs), |Text(cs[..k + 1])|)
  {
    assert cs[..k + 1][..k] == cs[..k];
    FirstCharacters(cs, k + 1);
    if k + 1 < |cs| {
      assert Starts(cs, |Text(cs[..k + 1])|);
      CharactersStart(cs, |Text(cs[..k + 1])|);
    } else {
      assert cs[..k + 1] == cs;
    }
  }

  // ---- the order of holders -----------------------------------------------------------

  function AsString(s: Utf8): string {
    seq(|s|, i requires 0 <= i < |s| => s[i] as char)
  }

  /** Field by field, workspace id first. */
  predicate HolderLe(a: Holder, b: Holder) {
    if a.workspaceId == b.workspaceId then a.pid <= b.pid
    else StringLe(AsString(a.workspaceId), AsString(b.workspaceId))
  }

  predicate HolderLt(a: Holder, b: Holder) {
    a != b && HolderLe(a, b)
  }

  lemma AsStringInjective(a: Utf8, b: Utf8)
    requires AsString(a) == AsString(b)
    ensures a == b
  {
    assert |AsString(a)| == |a| && |AsString(b)| == |b|;
    forall i | 0 <= i < |a| ensures a[i] == b[i] {
      assert AsString(a)[i] == AsString(b)[i];
      assert (a[i] as char) as int == a[i] && (b[i] as char) as int == b[i];
    }
  }

  lemma HolderTotal(a: Holder, b: Holder)
    ensures a == b || HolderLt(a, b) || HolderLt(b, a)
    ensures !(HolderLt(a, b) && HolderLt(b, a))
  {
    StringLeTotal(AsString(a.workspaceId), AsString(b.workspaceId));
    if AsString(a.workspaceId) == AsString(b.workspaceId) {
      AsStringInjective(a.workspaceId, b.workspaceId);
    }
  }

  /** One holder comes before another if its id does, byte by byte, or if they have the
      same id and it has the smaller process id. */
  lemma HolderLtExactly(a: Holder, b: Holder)
    ensures a.workspaceId == b.workspaceId ==> (HolderLt(a, b) <==> a.pid < b.pid)
    ensures a.workspaceId < b.workspaceId ==> HolderLt(a, b)
    ensures b.workspaceId < a.workspaceId ==> !HolderLt(a, b)
    ensures forall i :: DifferAt(a.workspaceId, b.workspaceId, i) ==>
              (HolderLt(a, b) <==> a.workspaceId[i] < b.workspaceId[i])
  {
    var x, y := AsString(a.workspaceId), AsString(b.workspaceId);
    StringLeIsLexicographic(x, y);
    forall i | DifferAt(a.workspaceId, b.workspaceId, i) ensures HolderLt(a, b) <==> a.workspaceId[i] < b.workspaceId[i] {
      StringsDiffer(a.workspaceId, b.workspaceId, i);
    }
    PrefixAsString(a.workspaceId, b.workspaceId);
    PrefixAsString(b.workspaceId, a.workspaceId);
  }

  lemma PrefixAsString(a: Utf8, b: Utf8)
    ensures a < b ==> AsString(a) < AsString(b) && a != b
  {
    if a < b {
      assert a == b[..|a|];
      assert AsString(b)[..|a|] == AsString(a);
    }
  }

  lemma StringsDiffer(a: Utf8, b: Utf8, i: int)
    requires DifferAt(a, b, i)
    ensures DifferAt(AsString(a), AsString(b), i) && a != b
    ensures AsString(a)[i] < AsString(b)[i] <==> a[i] < b[i]
  {
    assert AsString(a)[..i] == AsString(a[..i]) && AsString(b)[..i] == AsString(b[..i]);
    assert (a[i] as char) as int == a[i] && (b[i] as char) as int == b[i];
  }

  lemma HolderTransitive(a: Holder, b: Holder, c: Holder)
    requires HolderLt(a, b) && HolderLt(b, c)
    ensures HolderLt(a, c)
  {
    if a.workspaceId != b.workspaceId && b.workspaceId != c.workspaceId {
      StringLeTransitive(AsString(a.workspaceId), AsString(b.workspaceId), AsString(c.workspaceId));
      if a.workspaceId == c.workspaceId {
        HolderTotal(a, b);
        StringLeTotal(AsString(a.workspaceId), AsString(b.workspaceId));
        AsStringInjective(a.workspaceId, b.workspaceId);
      }
    }
  }

  ghost predicate Ascending(s: seq<Holder>) {
    forall i, j :: 0 <= i < j < |s| ==> HolderLt(s[i], s[j])
  }

  ghost predicate AllBelow(s: seq<Holder>, h: Holder) {
    forall i :: 0 <= i < |s| ==> HolderLt(s[i], h)
  }

  /** `s` lists the `cap` smallest elements of `all`, or all of them if fewer. */
  ghost predicate Smallest(s: seq<Holder>, all: set<Holder>, cap: nat) {
    && Ascending(s) && |s| <= cap
    && (forall i :: 0 <= i < |s| ==> s[i] in all)
    && (forall h :: h in all && h !in s ==> |s| == cap && AllBelow(s, h))
  }

  lemma NextNotSmaller(s: seq<Holder>, r: seq<Holder>, all: set<Holder>, cap: nat, n: nat)
    requires Smallest(s, all, cap) && Smallest(r, all, cap) && n < |s| && n < |r| && s[..n] == r[..n]
    ensures !HolderLt(s[n], r[n])
  {
    if HolderLt(s[n], r[n]) {
      if s[n] in r {
        var k :| 0 <= k < |r| && r[k] == s[n];
        if k > n {
          HolderTotal(r[n], r[k]);
        }
      } else {
        assert HolderLt(r[n], s[n]);
        HolderTotal(s[n], r[n]);
      }
    }
  }

  /** There is only one list of the smallest elements: they agree as far as both go,
      and neither goes further. */
  lemma {:induction false} SmallestIsUnique(s: seq<Holder>, r: seq<Holder>, all: set<Holder>, cap: nat, n: nat)
    requires Smallest(s, all, cap) && Smallest(r, all, cap) && n <= |s| && n <= |r|
    ensures s[..n] == r[..n]
    ensures n == |s| || n == |r| ==> s == r
  {
    if n > 0 {
      SmallestIsUnique(s, r, all, cap, n - 1);
      NextNotSmaller(s, r, all, cap, n - 1);
      NextNotSmaller(r, s, all, cap, n - 1);
      HolderTotal(s[n - 1], r[n - 1]);
      assert s[..n] == s[..n - 1] + [s[n - 1]] && r[..n] == r[..n - 1] + [r[n - 1]];
    }
    if n == |s| < |r| {
      LongerIsImpossible(s, r, all, cap);
    } else if n == |r| < |s| {
      LongerIsImpossible(r, s, all, cap);
    }
  }

  lemma LongerIsImpossible(s: seq<Holder>, r: seq<Holder>, all: set<Holder>, cap: nat)
    requires Smallest(s, all, cap) && Smallest(r, all, cap) && s <= r
    ensures s == r
  {
    if |s| < |r| {
      NextIsNew(s, r);
    }
  }

  lemma NextIsNew(s: seq<Holder>, r: seq<Holder>)
    requires Ascending(r) && s <= r && |s| < |r|
    ensures r[|s|] !in s
  {
    forall i | 0 <= i < |s| ensures s[i] != r[|s|] {
      assert HolderLt(r[i], r[|s|]);
    }
  }

  /** `BTreeSet::insert`. */
  method Insert(s: seq<Holder>, h: Holder) returns (r: seq<Holder>)
    requires Ascending(s)
    ensures Ascending(r)
    ensures h in s ==> r == s
    ensures h !in s ==> exists k :: 0 <= k <= |s| && r == s[..k] + [h] + s[k..]
  {
    var k := 0;
    while k < |s| && HolderLt(s[k], h)
      invariant 0 <= k <= |s|
      invariant forall i :: 0 <= i < k ==> HolderLt(s[i], h)
    {
      k := k + 1;
    }
    if k < |s| && s[k] == h {
      return s;
    }
    r := s[..k] + [h] + s[k..];
    forall j | k <= j < |s| ensures HolderLt(h, s[j]) {
      HolderTotal(h, s[k]);
      if k < j { HolderTransitive(h, s[k], s[j]); }
    }
    forall j | 0 <= j < |s| ensures s[j] != h {
    }
  }

  /** `r` has the elements of `s` and `h`. */
  ghost predicate Extends(r: seq<Holder>, s: seq<Holder>, h: Holder) {
    |r| == |s| + 1 && forall x :: x in r <==> x in s || x == h
  }

  lemma InsertedExtends(s: seq<Holder>, h: Holder, r: seq<Holder>, k: nat)
    requires k <= |s| && r == s[..k] + [h] + s[k..]
    ensures Extends(r, s, h)
  {
    assert s == s[..k] + s[k..];
  }

  /** Dropping the largest of one element too many keeps the smallest ones. */
  lemma PopLastKeepsSmallest(s: seq<Holder>, all: set<Holder>, h: Holder, r: seq<Holder>, cap: nat)
    requires Smallest(s, all, cap) && Ascending(r) && Extends(r, s, h) && |s| == cap
    ensures Smallest(r[..cap], all + {h}, cap)
  {
    var kept, last := r[..cap], r[cap];
    assert r == kept + [last];
    assert AllBelow(kept, last);
    forall i | 0 <= i < |kept| ensures kept[i] in all + {h} {
      assert kept[i] in r;
    }
    forall x | x in all + {h} && x !in kept ensures AllBelow(kept, x) {
      if x != last {
        assert x !in r && x in all && x !in s;
        BelowAnOutsider(s, h, kept, last, x);
      }
    }
  }

  lemma BelowAnOutsider(s: seq<Holder>, h: Holder, kept: seq<Holder>, last: Holder, x: Holder)
    requires AllBelow(s, x) && AllBelow(kept, last) && Extends(kept + [last], s, h)
    ensures AllBelow(kept, x)
  {
    var r := kept + [last];
    assert last in r;
    forall i | 0 <= i < |kept| ensures HolderLt(kept[i], x) {
      if last in s {
        HolderTransitive(kept[i], last, x);
      } else {
        assert r[i] == kept[i] && kept[i] in r;
        assert kept[i] != last;
      }
    }
  }

  lemma RoomKeepsSmallest(s: seq<Holder>, all: set<Holder>, h: Holder, r: seq<Holder>, cap: nat)
    requires Smallest(s, all, cap) && Ascending(r) && Extends(r, s, h) && |s| < cap
    ensures Smallest(r, all + {h}, cap)
  {
    forall i | 0 <= i < |r| ensures r[i] in all + {h} {
      assert r[i] in r;
    }
  }

  function Bounded(h: Holder): Holder {
    Holder(Truncated(h.workspaceId, MAX_WORKSPACE_ID_BYTES), h.pid)
  }

  function AllBounded(holders: seq<Holder>): set<Holder> {
    set h | h in holders :: Bounded(h)
  }

  lemma AllBoundedAppend(holders: seq<Holder>, h: Holder)
    ensures AllBounded(holders + [h]) == AllBounded(holders) + {Bounded(h)}
  {
    var all := holders + [h];
    assert forall x :: x in all <==> x in holders || x == h;
  }

  /** Keeps, in ascending order, exactly the 128 smallest of the distinct bounded
      holders, and counts the rest as omitted. */
  method NormalizeWorkspaceHolders(holders: seq<Holder>) returns (retained: seq<Holder>, omitted: nat)
    ensures Smallest(retained, AllBounded(holders), MAX_WORKSPACE_IDS)
    ensures |retained| + omitted == |holders|
  {
    retained := [];
    for k := 0 to |holders|
      invariant Smallest(retained, AllBounded(holders[..k]), MAX_WORKSPACE_IDS)
      invariant |retained| <= k
    {
      var id := TruncateUtf8(holders[k].workspaceId, MAX_WORKSPACE_ID_BYTES);
      var h := Holder(id, holders[k].pid);
      assert holders[..k + 1] == holders[..k] + [holders[k]];
      AllBoundedAppend(holders[..k], holders[k]);
      ghost var before := retained;
      retained := Insert(retained, h);
      if h !in before {
        ghost var at :| 0 <= at <= |before| && retained == before[..at] + [h] + before[at..];
        InsertedExtends(before, h, retained, at);
        if |before| < MAX_WORKSPACE_IDS {
          RoomKeepsSmallest(before, AllBounded(holders[..k]), h, retained, MAX_WORKSPACE_IDS);
        } else {
          PopLastKeepsSmallest(before, AllBounded(holders[..k]), h, retained, MAX_WORKSPACE_IDS);
        }
      } else {
        assert AllBounded(holders[..k]) + {h} == AllBounded(holders[..k]);
      }
      if |retained| > MAX_WORKSPACE_IDS {
        retained := retained[..|retained| - 1];
      }
    }
    assert holders[..|holders|] == holders;
    omitted := |holders| - |retained|;
  }

  // ---- shrinking ------------------------------------------------------------------------

  /** The parts of the payload that shrink; `rest` stands for all others. */
  datatype Payload = Payload(
    workspaceIds: seq<Utf8>, workspaceHolders: seq<Holder>, truncated: bool, omitted: U64, rest: string)

  datatype CaptureError = TooLarge | NotWritten

  function IdsOf(holders: seq<Holder>): seq<Utf8> {
    seq(|holders|, i requires 0 <= i < |holders| => holders[i].workspaceId)
  }

  /** The holders part of `diagnostic_payload`. */
  method BuildPayload(holders: seq<Holder>, rest: string) returns (payload: Payload)
    requires |holders| <= U64_MAX
    ensures Smallest(payload.workspaceHolders, AllBounded(holders), MAX_WORKSPACE_IDS)
    ensures payload.workspaceIds == IdsOf(payload.workspaceHolders) && payload.rest == rest
    ensures |payload.workspaceIds| + payload.omitted == |holders|
    ensures payload.truncated <==> payload.omitted > 0
  {
    var retained, omitted := NormalizeWorkspaceHolders(holders);
    payload := Payload(IdsOf(retained), retained, omitted > 0, omitted, rest);
  }

  /** The payload with only its first `n` workspaces, the others counted as omitted. */
  function Shrunk(p: Payload, n: nat): Payload
    requires n <= |p.workspaceIds| == |p.workspaceHolders| && p.omitted + |p.workspaceIds| <= U64_MAX
  {
    if n == |p.workspaceIds| then p
    else Payload(p.workspaceIds[..n], p.workspaceHolders[..n], true, p.omitted + (|p.workspaceIds| - n), p.rest)
  }

  /** Drops workspaces from the end until the artifact fits, and publishes it. `size`
      is the length of the serialized artifact, `written` whether the write succeeds.
      What is published is the largest version that fits; it is an error exactly when
      even the smallest does not, or the write fails. */
  method CaptureArtifact(size: Payload -> nat, maxBytes: nat, payload: Payload, written: bool)
    returns (r: Result<Payload, CaptureError>)
    requires payload.workspaceIds == IdsOf(payload.workspaceHolders)
    requires payload.omitted + |payload.workspaceIds| <= U64_MAX
    ensures var cap := if maxBytes < MAX_ARTIFACT_BYTES then maxBytes else MAX_ARTIFACT_BYTES;
            var n := |payload.workspaceIds|;
            && (r.Ok? ==>
                  exists k :: 0 <= k <= n && r.value == Shrunk(payload, k) && size(r.value) <= cap
                           && forall m :: k < m <= n ==> size(Shrunk(payload, m)) > cap)
            && (r == Err(TooLarge) <==> forall m :: 0 <= m <= n ==> size(Shrunk(payload, m)) > cap)
            && (r == Err(NotWritten) <==> !written && exists m :: 0 <= m <= n && size(Shrunk(payload, m)) <= cap)
    ensures r.Ok? ==> r.value.rest == payload.rest && r.value.workspaceHolders <= payload.workspaceHolders
    ensures r.Ok? ==> r.value.workspaceIds == IdsOf(r.value.workspaceHolders)
    ensures r.Ok? ==> |r.value.workspaceIds| + r.value.omitted == |payload.workspaceIds| + payload.omitted
    ensures r.Ok? && (payload.truncated <==> payload.omitted > 0) ==> (r.value.truncated <==> r.value.omitted > 0)
  {
    var cap := if maxBytes < MAX_ARTIFACT_BYTES then maxBytes else MAX_ARTIFACT_BYTES;
    var current := payload;
    while true
      invariant |current.workspaceIds| <= |payload.workspaceIds|
      invariant current == Shrunk(payload, |current.workspaceIds|)
      invariant current.workspaceIds == IdsOf(current.workspaceHolders)
      invariant forall m :: |current.workspaceIds| < m <= |payload.workspaceIds| ==> size(Shrunk(payload, m)) > cap
      decreases |current.workspaceIds|
    {
      var n := |current.workspaceIds|;
      if size(current) <= cap {
        assert current == Shrunk(payload, n);
        return if written then Ok(current) else Err(NotWritten);
      }
      if n == 0 {
        return Err(TooLarge);
      }
      assert payload.workspaceIds[..n][..n - 1] == payload.workspaceIds[..n - 1];
      assert payload.workspaceHolders[..n][..n - 1] == payload.workspaceHolders[..n - 1];
      current := Payload(current.workspaceIds[..n - 1], current.workspaceHolders[..n - 1], true,
                         SaturatingAdd(current.omitted, 1), current.rest);
    }
  }
}
