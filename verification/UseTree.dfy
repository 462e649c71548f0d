/** The use-tree expander of the source-boundary checker. */
module UseTree {
  import opened Orders

  const UNTERMINATED := "<unterminated-group>"

  // ---- characters -------------------------------------------------------------------

  /** Unicode White_Space. */
  predicate IsSpace(c: char) {
    var n := c as int;
    || 0x9 <= n <= 0xD || n == 0x20 || n == 0x85 || n == 0xA0 || n == 0x1680
    || 0x2000 <= n <= 0x200A || n == 0x2028 || n == 0x2029 || n == 0x202F || n == 0x205F || n == 0x3000
  }

  predicate IdentifierCharacter(c: char) {
    'a' <= c <= 'z' || 'A' <= c <= 'Z' || '0' <= c <= '9' || c == '_'
  }

  function Spaces(s: string): (n: nat)
    ensures n <= |s|
  {
    if s == [] || !IsSpace(s[0]) then 0 else 1 + Spaces(s[1..])
  }

  function TrimStart(s: string): string {
    s[Spaces(s)..]
  }

  predicate StartsWith(s: string, prefix: string) {
    prefix <= s
  }

  function WithoutSpaces(s: string): string {
    if s == [] then [] else if IsSpace(s[0]) then WithoutSpaces(s[1..]) else [s[0]] + WithoutSpaces(s[1..])
  }

  function TrimEndColons(s: string): string {
    if s != [] && s[|s| - 1] == ':' then TrimEndColons(s[..|s| - 1]) else s
  }

  // ---- paths --------------------------------------------------------------------------

  function IdentifierRun(s: string): (n: nat)
    ensures n <= |s|
  {
    if s == [] || !IdentifierCharacter(s[0]) then 0 else 1 + IdentifierRun(s[1..])
  }

  /** Length of the identifier or glob at the start. */
  function Segment(s: string): (n: nat)
    ensures n <= |s|
  {
    if IdentifierRun(s) == 0 && StartsWith(s, "*") then 1 else IdentifierRun(s)
  }

  /** Length of a `::` with the spaces around it, or 0 where the path ends, which it
      does in front of a group. */
  function Separator(s: string): (n: nat)
    ensures n <= |s|
  {
    var rest := TrimStart(s);
    if !StartsWith(rest, "::") || StartsWith(TrimStart(rest[2..]), "{") then 0
    else Spaces(s) + 2 + Spaces(rest[2..])
  }

  /** Length of the path at the start. */
  function PathLength(s: string): (n: nat)
    ensures n <= |s|
    decreases |s|
  {
    var segment := Segment(s);
    if segment == 0 then 0 else segment + AfterSegment(s[segment..])
  }

  /** Length of what continues a path after one of its segments. */
  function AfterSegment(s: string): (n: nat)
    ensures n <= |s|
    decreases |s|
  {
    var separator := Separator(s);
    if separator == 0 then 0 else separator + PathLength(s[separator..])
  }

  lemma DropTwice(s: string, first: nat, second: nat)
    requires first <= second <= |s|
    ensures s[first..][second - first..] == s[second..]
  {
  }

  /** What is left of a path, read from `cursor` on, is `n` long, or nothing. */
  ghost predicate Remains(source: string, cursor: nat, more: bool, n: int) {
    cursor <= |source| && n == if more then PathLength(source[cursor..]) else 0
  }

  /** What continues a path after a segment, read from `cursor` on, is `n` long. */
  ghost predicate Continues(source: string, cursor: nat, n: int) {
    cursor <= |source| && n == AfterSegment(source[cursor..])
  }

  lemma SegmentRead(source: string, start: nat, cursor: nat, n: int)
    requires Remains(source, start, true, n) && cursor == start + Segment(source[start..])
    ensures cursor == start ==> n == 0
    ensures cursor > start ==> Continues(source, cursor, n - (cursor - start))
  {
    DropTwice(source, start, cursor);
    PathLengthOf(source[start..], cursor - start, source[cursor..]);
  }

  lemma PathLengthOf(s: string, segment: nat, rest: string)
    requires segment == Segment(s) && rest == s[segment..]
    ensures PathLength(s) == if segment == 0 then 0 else segment + AfterSegment(rest)
  {
  }

  lemma AfterSegmentOf(s: string, separator: nat, rest: string)
    requires separator == Separator(s) && rest == s[separator..]
    ensures AfterSegment(s) == if separator == 0 then 0 else separator + PathLength(rest)
  {
  }

  lemma SeparatorRead(source: string, start: nat, cursor: nat, n: int)
    requires Continues(source, start, n) && cursor == start + Separator(source[start..])
    ensures Remains(source, cursor, cursor > start, n - (cursor - start))
  {
    DropTwice(source, start, cursor);
    AfterSegmentOf(source[start..], cursor - start, source[cursor..]);
  }

  method ScanSegment(source: string, start: nat, ghost n: int) returns (cursor: nat)
    requires Remains(source, start, true, n)
    ensures start <= cursor && (cursor == start ==> n == 0)
    ensures cursor > start ==> Continues(source, cursor, n - (cursor - start))
  {
    cursor := start + Segment(source[start..]);
    SegmentRead(source, start, cursor, n);
  }

  method ScanSeparator(source: string, start: nat, ghost n: int) returns (cursor: nat)
    requires Continues(source, start, n)
    ensures start <= cursor && Remains(source, cursor, cursor > start, n - (cursor - start))
  {
    cursor := start + Separator(source[start..]);
    SeparatorRead(source, start, cursor, n);
  }

  /** One turn of the scan: a segment, then a separator. */
  method ScanTurn(source: string, start: nat, ghost n: int) returns (cursor: nat, more: bool)
    requires Remains(source, start, true, n)
    ensures start <= cursor && (more ==> start < cursor)
    ensures Remains(source, cursor, more, n - (cursor - start))
  {
    var middle := ScanSegment(source, start, n);
    if middle == start {
      return start, false;
    }
    cursor := ScanSeparator(source, middle, n - (middle - start));
    more := cursor > middle;
  }

  method PathSourceLength(source: string) returns (cursor: nat)
    ensures cursor == Spaces(source) + PathLength(TrimStart(source))
  {
    cursor := Spaces(source);
    var more := true;
    ghost var start, n := cursor, PathLength(TrimStart(source));
    while more
      invariant start <= cursor && Remains(source, cursor, more, n - (cursor - start))
      decreases more, |source| - cursor
    {
      cursor, more := ScanTurn(source, cursor, n - (cursor - start));
    }
  }

  /** The path at the start without its spaces. */
  function ReferencePath(s: string): Option<string> {
    var path := TrimEndColons(WithoutSpaces(s[..PathLength(s)]));
    if path == [] then None else Some(path)
  }

  // ---- groups ---------------------------------------------------------------------------

  function DepthAfter(c: char, depth: int): int {
    if c == '{' then depth + 1 else if c == '}' then depth - 1 else depth
  }

  /** Index of the brace that brings the depth to zero. */
  function Closing(s: string, depth: int): (r: Option<nat>)
    ensures r.Some? ==> r.value < |s|
  {
    if s == [] then None
    else if s[0] == '}' && depth == 1 then Some(0)
    else
      var r := Closing(s[1..], DepthAfter(s[0], depth));
      if r.None? then None else Some(r.value + 1)
  }

  method MatchingBrace(source: string) returns (r: Option<nat>)
    ensures r == Closing(source, 1)
  {
    var depth := 1;
    for index := 0 to |source|
      invariant Closing(source, 1) ==
                var rest := Closing(source[index..], depth); if rest.None? then None else Some(rest.value + index)
    {
      assert source[index..][1..] == source[index + 1..];
      if source[index] == '{' {
        depth := depth + 1;
      } else if source[index] == '}' {
        depth := depth - 1;
        if depth == 0 {
          return Some(index);
        }
      }
    }
    r := None;
  }

  function MaxLength(items: seq<string>): (n: nat)
    ensures forall i :: 0 <= i < |items| ==> |items[i]| <= n
  {
    if items == [] then 0
    else
      var rest := MaxLength(items[1..]);
      if |items[0]| > rest then |items[0]| else rest
  }

  /** `a` in front of the first item. */
  function Prepend(a: string, items: seq<string>): (r: seq<string>)
    requires items != []
    ensures |r| == |items|
  {
    [a + items[0]] + items[1..]
  }

  lemma PrependTwice(a: string, b: string, items: seq<string>)
    requires items != []
    ensures Prepend(a, Prepend(b, items)) == Prepend(a + b, items)
    ensures Prepend([], items) == items
  {
    assert a + (b + items[0]) == (a + b) + items[0];
    assert [] + items[0] == items[0];
  }

  /** The items between the commas at depth zero, at least one. */
  function Items(s: string, depth: int): (items: seq<string>)
    ensures items != []
  {
    if s == [] then [[]]
    else if s[0] == ',' && depth == 0 then [[]] + Items(s[1..], depth)
    else Prepend([s[0]], Items(s[1..], DepthAfter(s[0], depth)))
  }

  lemma {:induction false} ItemsAreShort(s: string, depth: int)
    ensures MaxLength(Items(s, depth)) <= |s|
  {
    if s != [] {
      if s[0] == ',' && depth == 0 {
        ItemsAreShort(s[1..], depth);
        assert ([[]] + Items(s[1..], depth))[1..] == Items(s[1..], depth);
      } else {
        ItemsAreShort(s[1..], DepthAfter(s[0], depth));
        PrependLength([s[0]], Items(s[1..], DepthAfter(s[0], depth)));
      }
    }
  }

  lemma PrependLength(a: string, items: seq<string>)
    requires items != []
    ensures MaxLength(Prepend(a, items)) <= |a| + MaxLength(items)
  {
    assert Prepend(a, items)[1..] == items[1..];
  }

  /** The items still to come of a split that has read up to `index`, with the current
      item beginning at `start`. */
  ghost function ItemsFrom(source: string, start: nat, index: nat, depth: int): seq<string>
    requires start <= index <= |source|
    decreases |source| - index
  {
    if index == |source| then [source[start..]]
    else if source[index] == ',' && depth == 0 then
      [source[start..index]] + ItemsFrom(source, index + 1, index + 1, depth)
    else ItemsFrom(source, start, index + 1, DepthAfter(source[index], depth))
  }

  lemma {:induction false} ItemsFromAreItems(source: string, start: nat, index: nat, depth: int)
    requires start <= index <= |source|
    ensures ItemsFrom(source, start, index, depth) == Prepend(source[start..index], Items(source[index..], depth))
    decreases |source| - index
  {
    if index == |source| {
      assert source[index..] == [] && source[start..index] + [] == source[start..];
    } else {
      var c := source[index];
      SliceStep(source, start, index);
      if c == ',' && depth == 0 {
        ItemsFromAreItems(source, index + 1, index + 1, depth);
        CommaItem(source[start..index], source[index + 1..]);
      } else {
        ItemsFromAreItems(source, start, index + 1, DepthAfter(c, depth));
        OtherItem(source[start..index], c, source[index + 1..], depth);
      }
    }
  }

  lemma SliceStep(s: string, start: nat, index: nat)
    requires start <= index < |s|
    ensures s[index..] == [s[index]] + s[index + 1..]
    ensures s[start..index + 1] == s[start..index] + [s[index]] && s[index + 1..index + 1] == []
  {
  }

  lemma CommaItem(piece: string, rest: string)
    ensures Prepend(piece, Items([','] + rest, 0)) == [piece] + Prepend([], Items(rest, 0))
  {
    assert ([','] + rest)[1..] == rest;
    PrependTwice([], [], Items(rest, 0));
    assert piece + [] == piece;
  }

  lemma OtherItem(piece: string, c: char, rest: string, depth: int)
    requires c != ',' || depth != 0
    ensures Prepend(piece, Items([c] + rest, depth)) == Prepend(piece + [c], Items(rest, DepthAfter(c, depth)))
  {
    assert ([c] + rest)[1..] == rest;
    PrependTwice(piece, [c], Items(rest, DepthAfter(c, depth)));
  }

  method SplitReferenceGroup(source: string) returns (items: seq<string>)
    ensures items == Items(source, 0)
  {
    var depth, start := 0, 0;
    items := [];
    for index := 0 to |source|
      invariant 0 <= start <= index
      invariant items + ItemsFrom(source, start, index, depth) == ItemsFrom(source, 0, 0, 0)
    {
      var c := source[index];
      if c == '{' {
        depth := depth + 1;
      } else if c == '}' {
        depth := depth - 1;
      } else if c == ',' && depth == 0 {
        items := items + [source[start..index]];
        start := index + 1;
      }
    }
    items := items + [source[start..]];
    ItemsFromAreItems(source, 0, 0, 0);
    PrependTwice([], [], Items(source, 0));
    assert source[0..] == source && source[0..0] == [];
  }

  // ---- expansion --------------------------------------------------------------------------

  function Qualified(prefix: string, path: string): string {
    if prefix == [] then path else prefix + "::" + path
  }

  /** What follows a path up to its group, if a group follows. */
  function GroupAfter(s: string): (r: Option<string>)
    ensures r.Some? ==> |r.value| < |s|
  {
    var rest := TrimStart(s);
    if !StartsWith(rest, "::") then None
    else
      var group := TrimStart(rest[2..]);
      if StartsWith(group, "{") then Some(group[1..]) else None
  }

  /** The references of the group whose opening brace has been read. */
  function ExpandedGroup(group: string, prefix: string): set<string>
    decreases |group|, 0, 0
  {
    var close := Closing(group, 1);
    if close.None? then {UNTERMINATED}
    else
      ItemsAreShort(group[..close.value], 0);
      ExpandedItems(Items(group[..close.value], 0), prefix)
  }

  function ExpandedItems(items: seq<string>, prefix: string): set<string>
    decreases MaxLength(items), 1, |items|
  {
    if items == [] then {} else Expanded(items[0], prefix) + ExpandedItems(items[1..], prefix)
  }

  /** The fully qualified references of a use tree. */
  function Expanded(source: string, prefix: string): set<string>
    decreases |source|, 0, 0
  {
    var s := TrimStart(source);
    if StartsWith(s, "{") then ExpandedGroup(s[1..], prefix)
    else
      var path := ReferencePath(s);
      if path.None? then {}
      else
        var group := GroupAfter(s[PathLength(s)..]);
        if group.Some? then ExpandedGroup(group.value, Qualified(prefix, path.value))
        else {Qualified(prefix, path.value)}
  }

  lemma {:induction false} TrimmedStaysTrimmed(s: string)
    ensures Spaces(TrimStart(s)) == 0
  {
    if s != [] && IsSpace(s[0]) {
      TrimmedStaysTrimmed(s[1..]);
      assert TrimStart(s) == TrimStart(s[1..]);
    }
  }

  /** The path of a trimmed source with the rest of it. */
  method ReadPath(s: string) returns (path: Option<string>, rest: string)
    requires Spaces(s) == 0
    ensures path == ReferencePath(s) && rest == s[PathLength(s)..]
  {
    assert TrimStart(s) == s;
    var length := PathSourceLength(s);
    var text := TrimEndColons(WithoutSpaces(s[..length]));
    path, rest := if text == [] then None else Some(text), s[length..];
  }

  /** Adds the references of a use tree to a set of references. */
  method ExpandReferenceTree(source: string, prefix: string, references: set<string>) returns (r: set<string>)
    ensures r == references + Expanded(source, prefix)
    decreases |source|, 0
  {
    var s := TrimStart(source);
    if StartsWith(s, "{") {
      r := ExpandGroup(s[1..], prefix, references);
      return;
    }
    TrimmedStaysTrimmed(source);
    var path, rest := ReadPath(s);
    if path.None? {
      return references;
    }
    var qualified := Qualified(prefix, path.value);
    var group := GroupAfter(rest);
    if group.Some? {
      r := ExpandGroup(group.value, qualified, references);
    } else {
      r := references + {qualified};
    }
  }

  method ExpandGroup(group: string, prefix: string, references: set<string>) returns (r: set<string>)
    ensures r == references + ExpandedGroup(group, prefix)
    decreases |group|, 1
  {
    var close := MatchingBrace(group);
    if close.None? {
      return references + {UNTERMINATED};
    }
    var items := SplitReferenceGroup(group[..close.value]);
    ItemsAreShort(group[..close.value], 0);
    r := references;
    for k := 0 to |items|
      invariant r + ExpandedItems(items[k..], prefix) == references + ExpandedItems(items, prefix)
    {
      assert items[k..][1..] == items[k + 1..];
      r := ExpandReferenceTree(items[k], prefix, r);
    }
  }
}
