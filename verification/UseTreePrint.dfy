/** Use trees, their printed form with one space between tokens, and the proof that
    the expander reads back exactly their leaf paths. */
module UseTreePrint {
  import opened Orders
  import opened UseTree

  /** A path with an optional alias, or a group below a possibly empty path. */
  datatype Use =
    | Leaf(path: seq<string>, alias: Option<string>)
    | Group(path: seq<string>, items: seq<Use>, trailing: bool)

  predicate Identifier(s: string) {
    s != [] && forall i :: 0 <= i < |s| ==> IdentifierCharacter(s[i])
  }

  predicate Names(s: string) {
    Identifier(s) || s == "*"
  }

  predicate LegalPath(path: seq<string>) {
    forall i :: 0 <= i < |path| ==> Names(path[i])
  }

  predicate Legal(t: Use) {
    && LegalPath(t.path)
    && match t
       case Leaf(path, alias) => path != [] && (alias.Some? ==> Identifier(alias.value))
       case Group(_, items, _) => forall i :: 0 <= i < |items| ==> Legal(items[i])
  }

  // ---- printing ---------------------------------------------------------------------

  function PrintPath(path: seq<string>): string
    requires path != []
  {
    if |path| == 1 then path[0] else path[0] + " :: " + PrintPath(path[1..])
  }

  function JoinPath(path: seq<string>): string
    requires path != []
  {
    if |path| == 1 then path[0] else path[0] + "::" + JoinPath(path[1..])
  }

  function Print(t: Use): string
    requires Legal(t)
    decreases t, 1
  {
    match t
    case Leaf(path, alias) => PrintPath(path) + PrintAlias(alias)
    case Group(path, items, trailing) =>
      Head(path) + ("{" + PrintItems(items, trailing) + "}")
  }

  /** What stands in front of the brace of a group. */
  function Head(path: seq<string>): string {
    if path == [] then "" else PrintPath(path) + " :: "
  }

  function PrintAlias(alias: Option<string>): string {
    if alias.Some? then " as " + alias.value else ""
  }

  /** What stands between the braces of a group. */
  function PrintItems(items: seq<Use>, trailing: bool): string
    requires forall i :: 0 <= i < |items| ==> Legal(items[i])
    decreases items, 0
  {
    if items == [] then " "
    else if |items| == 1 && !trailing then " " + Print(items[0]) + " "
    else " " + Print(items[0]) + " ," + PrintItems(items[1..], trailing)
  }

  /** The tokens of a tree, as the checker's tokenizer lists them. */
  function Tokens(t: Use): (tokens: seq<string>)
    requires Legal(t)
    ensures tokens != []
    decreases t, 1
  {
    match t
    case Leaf(path, alias) => PathTokens(path) + if alias.Some? then ["as", alias.value] else []
    case Group(path, items, trailing) =>
      (if path == [] then [] else PathTokens(path) + ["::"]) + (["{"] + ItemTokens(items, trailing) + ["}"])
  }

  function PathTokens(path: seq<string>): (tokens: seq<string>)
    requires path != []
    ensures tokens != []
  {
    if |path| == 1 then [path[0]] else [path[0], "::"] + PathTokens(path[1..])
  }

  function ItemTokens(items: seq<Use>, trailing: bool): seq<string>
    requires forall i :: 0 <= i < |items| ==> Legal(items[i])
    decreases items, 0
  {
    if items == [] then []
    else if |items| == 1 && !trailing then Tokens(items[0])
    else Tokens(items[0]) + [","] + ItemTokens(items[1..], trailing)
  }

  /** `join(" ")`. */
  function Spaced(tokens: seq<string>): string {
    if tokens == [] then "" else if |tokens| == 1 then tokens[0] else tokens[0] + " " + Spaced(tokens[1..])
  }

  lemma {:induction false} SpacedConcat(a: seq<string>, b: seq<string>)
    requires a != [] && b != []
    ensures Spaced(a + b) == Spaced(a) + " " + Spaced(b)
  {
    assert (a + b)[1..] == a[1..] + b;
    if |a| > 1 {
      SpacedConcat(a[1..], b);
    } else {
      assert a[1..] + b == b;
    }
  }

  lemma {:induction false} PathIsSpacedTokens(path: seq<string>)
    requires path != []
    ensures PrintPath(path) == Spaced(PathTokens(path))
  {
    if |path| > 1 {
      PathIsSpacedTokens(path[1..]);
      SpacedConcat([path[0], "::"], PathTokens(path[1..]));
      assert [path[0], "::"][1..] == ["::"];
      assert Spaced([path[0], "::"]) == path[0] + " " + "::";
    }
  }

  lemma SpacedPair(a: string, b: string)
    ensures Spaced([a, b]) == a + " " + b
  {
    assert [a, b][1..] == [b];
  }

  lemma LeafIsSpacedTokens(path: seq<string>, alias: Option<string>)
    requires path != []
    ensures PrintPath(path) + PrintAlias(alias) == Spaced(PathTokens(path) + if alias.Some? then ["as", alias.value] else [])
  {
    PathIsSpacedTokens(path);
    if alias.Some? {
      SpacedConcat(PathTokens(path), ["as", alias.value]);
      SpacedPair("as", alias.value);
    } else {
      assert PathTokens(path) + [] == PathTokens(path);
    }
  }

  /** The printed form is the tokens with one space between any two. */
  lemma {:induction false} PrintIsSpacedTokens(t: Use)
    requires Legal(t)
    ensures Print(t) == Spaced(Tokens(t))
    decreases t, 1
  {
    match t {
      case Leaf(path, alias) =>
        LeafIsSpacedTokens(path, alias);
      case Group(path, items, trailing) =>
        ItemsAreSpaced(items, trailing);
        BracesAreSpaced(PrintItems(items, trailing), ItemTokens(items, trailing));
        HeadIsSpaced(path, "{" + PrintItems(items, trailing) + "}", ["{"] + ItemTokens(items, trailing) + ["}"]);
    }
  }

  /** A body of items is its tokens, between spaces. */
  predicate SpacedBody(body: string, tokens: seq<string>) {
    body == if tokens == [] then " " else " " + Spaced(tokens) + " "
  }

  lemma BracesAreSpaced(body: string, tokens: seq<string>)
    requires SpacedBody(body, tokens)
    ensures "{" + body + "}" == Spaced(["{"] + tokens + ["}"])
  {
    if tokens == [] {
      assert ["{"] + tokens + ["}"] == ["{", "}"];
      SpacedPair("{", "}");
    } else {
      SpacedConcat(["{"] + tokens, ["}"]);
      SpacedConcat(["{"], tokens);
    }
  }

  lemma HeadIsSpaced(path: seq<string>, group: string, tokens: seq<string>)
    requires tokens != [] && group == Spaced(tokens)
    ensures Head(path) + group ==
            Spaced((if path == [] then [] else PathTokens(path) + ["::"]) + tokens)
  {
    if path == [] {
      assert [] + tokens == tokens;
    } else {
      PathIsSpacedTokens(path);
      SpacedConcat(PathTokens(path), ["::"]);
      SpacedConcat(PathTokens(path) + ["::"], tokens);
    }
  }

  lemma {:induction false} ItemsAreSpaced(items: seq<Use>, trailing: bool)
    requires forall i :: 0 <= i < |items| ==> Legal(items[i])
    ensures SpacedBody(PrintItems(items, trailing), ItemTokens(items, trailing))
    decreases items, 0
  {
    if items != [] {
      PrintIsSpacedTokens(items[0]);
      if |items| > 1 || trailing {
        ItemsAreSpaced(items[1..], trailing);
        ItemThenRest(Print(items[0]), Tokens(items[0]), PrintItems(items[1..], trailing), ItemTokens(items[1..], trailing));
      }
    }
  }

  lemma ItemThenRest(item: string, itemTokens: seq<string>, rest: string, restTokens: seq<string>)
    requires itemTokens != [] && item == Spaced(itemTokens) && SpacedBody(rest, restTokens)
    ensures SpacedBody(" " + item + " ," + rest, itemTokens + [","] + restTokens)
  {
    SpacedConcat(itemTokens, [","]);
    if restTokens == [] {
      assert itemTokens + [","] + restTokens == itemTokens + [","];
      LastComma(item);
    } else {
      SpacedConcat(itemTokens + [","], restTokens);
      CommaBetween(item, Spaced(restTokens));
    }
  }

  lemma LastComma(a: string)
    ensures " " + a + " ," + " " == " " + (a + " " + ",") + " "
  {
  }

  lemma CommaBetween(a: string, b: string)
    ensures " " + a + " ," + (" " + b + " ") == " " + (a + " " + "," + " " + b) + " "
  {
  }

  lemma CommaAfterSpace(a: string, b: string)
    ensures " " + a + " ," + b == (" " + a + " ") + ("," + b)
  {
  }

  // ---- meaning ------------------------------------------------------------------------

  /** The fully qualified leaf paths below `prefix`. */
  function Leaves(t: Use, prefix: string): set<string>
    requires Legal(t)
    decreases t, 1
  {
    match t
    case Leaf(path, _) => {Qualified(prefix, JoinPath(path))}
    case Group(path, items, _) =>
      AllLeaves(items, if path == [] then prefix else Qualified(prefix, JoinPath(path)))
  }

  function AllLeaves(items: seq<Use>, prefix: string): set<string>
    requires forall i :: 0 <= i < |items| ==> Legal(items[i])
    decreases items, 0
  {
    if items == [] then {} else Leaves(items[0], prefix) + AllLeaves(items[1..], prefix)
  }

  // ---- spaces and paths -------------------------------------------------------------------

  predicate AllSpaces(s: string) {
    forall i :: 0 <= i < |s| ==> IsSpace(s[i])
  }

  lemma {:induction false} TrimLead(lead: string, s: string)
    requires AllSpaces(lead) && (s != [] ==> !IsSpace(s[0]))
    ensures TrimStart(lead + s) == s && Spaces(lead + s) == |lead|
  {
    if lead == [] {
      assert lead + s == s;
    } else {
      TrimLead(lead[1..], s);
      assert (lead + s)[1..] == lead[1..] + s;
    }
  }

  lemma {:induction false} RunOfIdentifier(name: string, rest: string)
    requires forall i :: 0 <= i < |name| ==> IdentifierCharacter(name[i])
    requires rest == [] || !IdentifierCharacter(rest[0])
    ensures IdentifierRun(name + rest) == |name|
  {
    if name == [] {
      assert name + rest == rest;
    } else {
      RunOfIdentifier(name[1..], rest);
      assert (name + rest)[1..] == name[1..] + rest;
    }
  }

  lemma SegmentOfName(name: string, rest: string)
    requires Names(name) && (rest == [] || !IdentifierCharacter(rest[0]))
    ensures Segment(name + rest) == |name|
  {
    if name == "*" {
      assert (name + rest)[0] == '*';
      assert IdentifierRun(name + rest) == 0;
    } else {
      RunOfIdentifier(name, rest);
    }
  }

  /** A path may be followed by what neither continues its last name nor adds another. */
  predicate EndsPath(rest: string) {
    (rest == [] || !IdentifierCharacter(rest[0])) && Separator(rest) == 0
  }

  lemma StartOfPath(path: seq<string>)
    requires path != [] && LegalPath(path)
    ensures PrintPath(path) != [] && (IdentifierCharacter(PrintPath(path)[0]) || PrintPath(path)[0] == '*')
  {
    assert Names(path[0]);
  }

  lemma {:induction false} PathLengthOfPrinted(path: seq<string>, rest: string)
    requires path != [] && LegalPath(path) && EndsPath(rest)
    ensures PathLength(PrintPath(path) + rest) == |PrintPath(path)|
  {
    assert Names(path[0]);
    if |path| == 1 {
      LastName(path[0], rest);
    } else {
      PathLengthOfPrinted(path[1..], rest);
      StartOfPath(path[1..]);
      JoinedName(path[0], PrintPath(path[1..]), rest);
    }
  }

  lemma JoinedName(name: string, printed: string, rest: string)
    requires Names(name) && printed != [] && (IdentifierCharacter(printed[0]) || printed[0] == '*')
    ensures PathLength(name + " :: " + printed + rest) == |name| + 4 + PathLength(printed + rest)
  {
    NextName(name, printed + rest, name + " :: " + printed + rest);
  }

  lemma LastName(name: string, rest: string)
    requires Names(name) && EndsPath(rest)
    ensures PathLength(name + rest) == |name|
  {
    SegmentOfName(name, rest);
    assert (name + rest)[|name|..] == rest;
  }

  lemma NextName(name: string, next: string, s: string)
    requires Names(name) && next != [] && (IdentifierCharacter(next[0]) || next[0] == '*')
    requires s == name + (" :: " + next)
    ensures PathLength(s) == |name| + 4 + PathLength(next)
  {
    SegmentOfName(name, " :: " + next);
    SeparatorOfPrinted(next);
    assert s[|name|..] == " :: " + next;
    assert s[|name| + 4..] == next;
  }

  lemma SeparatorOfPrinted(next: string)
    requires next != [] && (IdentifierCharacter(next[0]) || next[0] == '*')
    ensures Separator(" :: " + next) == 4
  {
    var rest := ":: " + next;
    assert " :: " + next == " " + rest;
    TrimLead(" ", rest);
    assert rest[2..] == " " + next;
    TrimLead(" ", next);
  }

  lemma {:induction false} WithoutSpacesConcat(a: string, b: string)
    ensures WithoutSpaces(a + b) == WithoutSpaces(a) + WithoutSpaces(b)
  {
    if a == [] {
      assert a + b == b;
    } else {
      WithoutSpacesConcat(a[1..], b);
      FirstWithoutSpaces(a[0], a[1..] + b, a + b);
      FirstWithoutSpaces(a[0], a[1..], a);
    }
  }

  lemma FirstWithoutSpaces(c: char, rest: string, s: string)
    requires s == [c] + rest
    ensures WithoutSpaces(s) == (if IsSpace(c) then [] else [c]) + WithoutSpaces(rest)
  {
    assert s[1..] == rest;
  }

  lemma {:induction false} NamesHaveNoSpaces(name: string)
    requires forall i :: 0 <= i < |name| ==> IdentifierCharacter(name[i]) || name[i] == '*'
    ensures WithoutSpaces(name) == name
  {
    if name != [] {
      NamesHaveNoSpaces(name[1..]);
    }
  }

  lemma SeparatorWithoutSpaces()
    ensures WithoutSpaces(" :: ") == "::"
  {
    assert " :: "[1..] == ":: " && ":: "[1..] == ": " && ": "[1..] == " ";
    assert WithoutSpaces(" ") == "";
  }

  lemma {:induction false} PathOfPrinted(path: seq<string>)
    requires path != [] && LegalPath(path)
    ensures WithoutSpaces(PrintPath(path)) == JoinPath(path)
    ensures JoinPath(path) != [] && JoinPath(path)[|JoinPath(path)| - 1] != ':'
  {
    assert Names(path[0]);
    NamesHaveNoSpaces(path[0]);
    if |path| > 1 {
      PathOfPrinted(path[1..]);
      SeparatorWithoutSpaces();
      WithoutSpacesConcat(path[0] + " :: ", PrintPath(path[1..]));
      WithoutSpacesConcat(path[0], " :: ");
    }
  }

  lemma ReferencePathOfPrinted(path: seq<string>, rest: string)
    requires path != [] && LegalPath(path) && EndsPath(rest)
    ensures ReferencePath(PrintPath(path) + rest) == Some(JoinPath(path))
    ensures (PrintPath(path) + rest)[PathLength(PrintPath(path) + rest)..] == rest
  {
    PathLengthOfPrinted(path, rest);
    PathOfPrinted(path);
    assert (PrintPath(path) + rest)[..|PrintPath(path)|] == PrintPath(path);
  }

  // ---- braces ---------------------------------------------------------------------------------

  function EndDepth(s: string, depth: int): int {
    if s == [] then depth else EndDepth(s[1..], DepthAfter(s[0], depth))
  }

  /** From `depth` on, no brace closes below `floor` and no comma is at depth zero. */
  predicate Tame(s: string, depth: int, floor: int) {
    s == [] || (&& (s[0] == '}' ==> depth > floor) && (s[0] == ',' ==> depth > 0)
                && Tame(s[1..], DepthAfter(s[0], depth), floor))
  }

  /** Tame, and back where it started. */
  predicate Neutral(s: string, depth: int, floor: int) {
    Tame(s, depth, floor) && EndDepth(s, depth) == depth
  }

  lemma {:induction false} TameConcat(a: string, b: string, depth: int, floor: int)
    requires Tame(a, depth, floor) && Tame(b, EndDepth(a, depth), floor)
    ensures Tame(a + b, depth, floor) && EndDepth(a + b, depth) == EndDepth(b, EndDepth(a, depth))
  {
    if a == [] {
      assert a + b == b;
    } else {
      assert (a + b)[1..] == a[1..] + b;
      TameConcat(a[1..], b, DepthAfter(a[0], depth), floor);
    }
  }

  predicate Plain(s: string) {
    '{' !in s && '}' !in s && ',' !in s
  }

  lemma {:induction false} PlainIsNeutral(s: string, depth: int, floor: int)
    requires Plain(s)
    ensures Neutral(s, depth, floor)
  {
    if s != [] {
      assert s[0] in s;
      PlainIsNeutral(s[1..], depth, floor);
    }
  }

  lemma {:induction false} PathIsPlain(path: seq<string>)
    requires path != [] && LegalPath(path)
    ensures Plain(PrintPath(path))
  {
    assert Names(path[0]);
    if |path| > 1 {
      PathIsPlain(path[1..]);
      assert Plain(" :: ");
    }
  }

  lemma {:induction false} PrintIsNeutral(t: Use, depth: nat, floor: int)
    requires Legal(t) && floor <= depth
    ensures Neutral(Print(t), depth, floor)
    decreases t, 1
  {
    match t {
      case Leaf(path, alias) =>
        PathIsPlain(path);
        assert Plain(" as ");
        PlainIsNeutral(Print(t), depth, floor);
      case Group(path, items, trailing) =>
        var head := Head(path);
        if path != [] { PathIsPlain(path); assert Plain(" :: "); }
        PlainIsNeutral(head, depth, floor);
        ItemsAreNeutral(items, trailing, depth + 1, floor);
        BracesAreNeutral(head, PrintItems(items, trailing), depth, floor);
    }
  }

  lemma BracesAreNeutral(head: string, body: string, depth: nat, floor: int)
    requires floor <= depth && Neutral(head, depth, floor) && Neutral(body, depth + 1, floor)
    ensures Neutral(head + ("{" + body + "}"), depth, floor)
  {
    assert "{"[1..] == "" && "}"[1..] == "";
    TameConcat("{", body, depth, floor);
    TameConcat("{" + body, "}", depth, floor);
    TameConcat(head, "{" + body + "}", depth, floor);
  }

  lemma {:induction false} ItemsAreNeutral(items: seq<Use>, trailing: bool, depth: nat, floor: int)
    requires (forall i :: 0 <= i < |items| ==> Legal(items[i])) && depth >= 1 && floor <= depth
    ensures Neutral(PrintItems(items, trailing), depth, floor)
    decreases items, 0
  {
    PlainIsNeutral(" ", depth, floor);
    if items != [] {
      PrintIsNeutral(items[0], depth, floor);
      TameConcat(" ", Print(items[0]), depth, floor);
      if |items| == 1 && !trailing {
        TameConcat(" " + Print(items[0]), " ", depth, floor);
      } else {
        assert ","[1..] == "" && " " + "," == " ,";
        TameConcat(" ", ",", depth, floor);
        TameConcat(" " + Print(items[0]), " ,", depth, floor);
        ItemsAreNeutral(items[1..], trailing, depth, floor);
        TameConcat(" " + Print(items[0]) + " ,", PrintItems(items[1..], trailing), depth, floor);
      }
    }
  }

  lemma {:induction false} ClosingSkips(a: string, b: string, depth: int)
    requires depth >= 1 && Tame(a, depth, 1)
    ensures Closing(a + b, depth) ==
            var r := Closing(b, EndDepth(a, depth)); if r.None? then None else Some(r.value + |a|)
  {
    if a == [] {
      assert a + b == b;
    } else {
      assert (a + b)[1..] == a[1..] + b;
      ClosingSkips(a[1..], b, DepthAfter(a[0], depth));
    }
  }

  lemma {:induction false} ItemsSkip(a: string, b: string, depth: int)
    requires Tame(a, depth, 0)
    ensures Items(a + b, depth) == Prepend(a, Items(b, EndDepth(a, depth)))
  {
    if a == [] {
      assert a + b == b;
      PrependTwice([], [], Items(b, depth));
    } else {
      assert (a + b)[1..] == a[1..] + b;
      ItemsSkip(a[1..], b, DepthAfter(a[0], depth));
      PrependTwice([a[0]], a[1..], Items(b, EndDepth(a, depth)));
      assert [a[0]] + a[1..] == a;
    }
  }

  // ---- the round trip ---------------------------------------------------------------------------

  /** The items that a printed group is split into. */
  ghost function ItemTexts(items: seq<Use>, trailing: bool): seq<string>
    requires forall i :: 0 <= i < |items| ==> Legal(items[i])
  {
    if items == [] then [" "]
    else if |items| == 1 && !trailing then [" " + Print(items[0]) + " "]
    else [" " + Print(items[0]) + " "] + ItemTexts(items[1..], trailing)
  }

  lemma {:induction false} PrintedItemsSplit(items: seq<Use>, trailing: bool)
    requires forall i :: 0 <= i < |items| ==> Legal(items[i])
    ensures Items(PrintItems(items, trailing), 0) == ItemTexts(items, trailing)
  {
    if items == [] {
      NeutralText(" ");
    } else {
      ItemIsNeutral(items[0]);
      if |items| == 1 && !trailing {
        NeutralText(" " + Print(items[0]) + " ");
      } else {
        PrintedItemsSplit(items[1..], trailing);
        SplitAtComma(Print(items[0]), PrintItems(items[1..], trailing));
      }
    }
  }

  lemma SplitAtComma(item: string, rest: string)
    requires Neutral(" " + item + " ", 0, 0)
    ensures Items(" " + item + " ," + rest, 0) == [" " + item + " "] + Items(rest, 0)
  {
    CommaAfterSpace(item, rest);
    NeutralThenComma(" " + item + " ", rest);
  }

  lemma NeutralThenComma(text: string, rest: string)
    requires Neutral(text, 0, 0)
    ensures Items(text + ("," + rest), 0) == [text] + Items(rest, 0)
  {
    ItemsSkip(text, "," + rest, 0);
    assert ("," + rest)[1..] == rest;
    assert text + [] == text;
  }

  lemma NeutralText(s: string)
    requires Neutral(s, 0, 0)
    ensures Items(s, 0) == [s]
  {
    ItemsSkip(s, "", 0);
    assert s + "" == s;
  }

  lemma ItemIsNeutral(t: Use)
    requires Legal(t)
    ensures Neutral(" " + Print(t) + " ", 0, 0)
  {
    PlainIsNeutral(" ", 0, 0);
    PrintIsNeutral(t, 0, 0);
    TameConcat(" ", Print(t), 0, 0);
    TameConcat(" " + Print(t), " ", 0, 0);
  }

  /** The closing brace of a printed group is found, whatever follows it. */
  lemma PrintedGroupCloses(items: seq<Use>, trailing: bool, tail: string)
    requires forall i :: 0 <= i < |items| ==> Legal(items[i])
    ensures Closing(PrintItems(items, trailing) + ("}" + tail), 1) == Some(|PrintItems(items, trailing)|)
  {
    ItemsAreNeutral(items, trailing, 1, 1);
    ClosingSkips(PrintItems(items, trailing), "}" + tail, 1);
  }

  /** What may follow a printed tree: nothing that makes its last path longer. */
  predicate EndsTree(tail: string) {
    (tail == [] || !IdentifierCharacter(tail[0])) && !StartsWith(TrimStart(tail), "::")
  }

  /** Round trip: for every use tree, expanding its printed form, between spaces and
      before anything that does not continue it, gives exactly its leaf paths. */
  lemma {:induction false} ExpandedPrintedTree(t: Use, lead: string, tail: string, prefix: string)
    requires Legal(t) && AllSpaces(lead) && EndsTree(tail)
    ensures Expanded(lead + Print(t) + tail, prefix) == Leaves(t, prefix)
    decreases t, 2
  {
    match t {
      case Leaf(path, alias) =>
        ExpandedPrintedLeaf(path, alias, lead, tail, prefix);
      case Group(path, items, trailing) =>
        var inner := if path == [] then prefix else Qualified(prefix, JoinPath(path));
        ExpandedPrintedGroup(items, trailing, tail, inner);
        GroupAtItsBrace(path, PrintItems(items, trailing) + ("}" + tail), lead, prefix);
        GroupText(lead, Head(path), PrintItems(items, trailing), tail);
    }
  }

  lemma ExpandedAtBrace(source: string, group: string, prefix: string)
    requires TrimStart(source) == "{" + group
    ensures Expanded(source, prefix) == ExpandedGroup(group, prefix)
  {
    assert ("{" + group)[1..] == group;
  }

  lemma ExpandedAtPath(source: string, path: seq<string>, rest: string, prefix: string)
    requires path != [] && LegalPath(path) && EndsPath(rest) && TrimStart(source) == PrintPath(path) + rest
    ensures var group, qualified := GroupAfter(rest), Qualified(prefix, JoinPath(path));
            Expanded(source, prefix) == if group.Some? then ExpandedGroup(group.value, qualified) else {qualified}
  {
    StartOfPath(path);
    assert (PrintPath(path) + rest)[0] == PrintPath(path)[0] != '{';
    ReferencePathOfPrinted(path, rest);
  }

  lemma ExpandedPrintedLeaf(path: seq<string>, alias: Option<string>, lead: string, tail: string, prefix: string)
    requires Legal(Leaf(path, alias)) && AllSpaces(lead) && EndsTree(tail)
    ensures Expanded(lead + Print(Leaf(path, alias)) + tail, prefix) == {Qualified(prefix, JoinPath(path))}
  {
    var rest := PrintAlias(alias) + tail;
    var source := lead + Print(Leaf(path, alias)) + tail;
    assert source == lead + (PrintPath(path) + rest);
    StartOfPath(path);
    TrimLead(lead, PrintPath(path) + rest);
    AliasEndsPath(alias, tail);
    ExpandedAtPath(source, path, rest, prefix);
  }

  /** A group is expanded below its path, if it has one. */
  lemma GroupAtItsBrace(path: seq<string>, group: string, lead: string, prefix: string)
    requires LegalPath(path) && AllSpaces(lead)
    ensures Expanded(lead + (Head(path) + ("{" + group)), prefix) ==
            ExpandedGroup(group, if path == [] then prefix else Qualified(prefix, JoinPath(path)))
  {
    var source := lead + (Head(path) + ("{" + group));
    if path == [] {
      assert source == lead + ("{" + group);
      TrimLead(lead, "{" + group);
      ExpandedAtBrace(source, group, prefix);
    } else {
      assert source == lead + (PrintPath(path) + (" :: {" + group));
      StartOfPath(path);
      TrimLead(lead, PrintPath(path) + (" :: {" + group));
      GroupFollows(group);
      ExpandedAtPath(source, path, " :: {" + group, prefix);
    }
  }

  lemma GroupText(lead: string, head: string, body: string, tail: string)
    ensures lead + (head + ("{" + body + "}")) + tail == lead + (head + ("{" + (body + ("}" + tail))))
  {
  }

  /** A printed group without its closing brace is reported, whatever its path. */
  lemma UnclosedGroupIsReported(path: seq<string>, items: seq<Use>, trailing: bool, lead: string, prefix: string)
    requires LegalPath(path) && AllSpaces(lead) && forall i :: 0 <= i < |items| ==> Legal(items[i])
    ensures Expanded(lead + (Head(path) + ("{" + PrintItems(items, trailing))), prefix) == {UNTERMINATED}
  {
    var body := PrintItems(items, trailing);
    GroupAtItsBrace(path, body, lead, prefix);
    ItemsAreNeutral(items, trailing, 1, 1);
    ClosingSkips(body, "", 1);
    assert body + "" == body;
  }

  lemma AliasEndsPath(alias: Option<string>, tail: string)
    requires (alias.Some? ==> Identifier(alias.value)) && EndsTree(tail)
    ensures EndsPath(PrintAlias(alias) + tail) && GroupAfter(PrintAlias(alias) + tail) == None
  {
    if alias.Some? {
      AliasText(alias.value, tail);
      WordEndsPath("as " + (alias.value + tail));
    } else {
      assert PrintAlias(alias) + tail == tail;
      NoSeparator(tail);
    }
  }

  lemma AliasText(name: string, tail: string)
    ensures (" as " + name) + tail == " " + ("as " + (name + tail))
  {
  }

  lemma WordEndsPath(word: string)
    requires word != [] && !IsSpace(word[0]) && word[0] != ':'
    ensures EndsPath(" " + word) && GroupAfter(" " + word) == None
  {
    TrimLead(" ", word);
    assert (" " + word)[0] == ' ';
    NoSeparator(" " + word);
  }

  lemma NoSeparator(rest: string)
    requires !StartsWith(TrimStart(rest), "::")
    ensures Separator(rest) == 0 && GroupAfter(rest) == None
  {
  }

  lemma GroupFollows(group: string)
    ensures EndsPath(" :: {" + group) && GroupAfter(" :: {" + group) == Some(group)
  {
    var rest := ":: {" + group;
    assert " :: {" + group == " " + rest;
    TrimLead(" ", rest);
    assert rest[2..] == " " + ("{" + group);
    TrimLead(" ", "{" + group);
    assert ("{" + group)[1..] == group;
  }

  lemma {:induction false} ExpandedPrintedGroup(items: seq<Use>, trailing: bool, tail: string, prefix: string)
    requires forall i :: 0 <= i < |items| ==> Legal(items[i])
    ensures ExpandedGroup(PrintItems(items, trailing) + ("}" + tail), prefix) == AllLeaves(items, prefix)
    decreases items, 1
  {
    var body := PrintItems(items, trailing);
    PrintedGroupCloses(items, trailing, tail);
    assert (body + ("}" + tail))[..|body|] == body;
    PrintedItemsSplit(items, trailing);
    ExpandedPrintedItems(items, trailing, prefix);
  }

  lemma {:induction false} ExpandedPrintedItems(items: seq<Use>, trailing: bool, prefix: string)
    requires forall i :: 0 <= i < |items| ==> Legal(items[i])
    ensures ExpandedItems(ItemTexts(items, trailing), prefix) == AllLeaves(items, prefix)
    decreases items, 0
  {
    if items == [] {
      TrimLead(" ", "");
      assert ExpandedItems([" "], prefix) == Expanded(" ", prefix) + ExpandedItems([], prefix);
    } else {
      assert EndsTree(" ") by { TrimLead(" ", ""); }
      ExpandedPrintedTree(items[0], " ", " ", prefix);
      var texts := ItemTexts(items, trailing);
      assert texts[0] == " " + Print(items[0]) + " ";
      if |items| > 1 || trailing {
        ExpandedPrintedItems(items[1..], trailing, prefix);
        assert texts[1..] == ItemTexts(items[1..], trailing);
      }
    }
  }

  // ---- fully qualified paths -------------------------------------------------------------------

  /** The leaf paths of a tree below `prefix`, as lists of their names. */
  ghost function LeafPaths(t: Use, prefix: seq<string>): set<seq<string>>
    decreases t, 1
  {
    match t
    case Leaf(path, _) => {prefix + path}
    case Group(path, items, _) => AllLeafPaths(items, prefix + path)
  }

  ghost function AllLeafPaths(items: seq<Use>, prefix: seq<string>): set<seq<string>>
    decreases items, 0
  {
    if items == [] then {} else LeafPaths(items[0], prefix) + AllLeafPaths(items[1..], prefix)
  }

  /** Names joined with `::`, nothing for none. */
  function PathText(path: seq<string>): string {
    if path == [] then "" else JoinPath(path)
  }

  ghost function PathTexts(paths: set<seq<string>>): set<string> {
    set p | p in paths :: PathText(p)
  }

  /** Qualifying a text by a prefix is joining one longer list of names. */
  lemma {:induction false} QualifiedIsJoined(prefix: seq<string>, path: seq<string>)
    requires LegalPath(prefix) && path != []
    ensures Qualified(PathText(prefix), JoinPath(path)) == JoinPath(prefix + path)
  {
    if prefix == [] {
      assert prefix + path == path;
    } else {
      assert Names(prefix[0]);
      var rest := prefix[1..];
      QualifiedIsJoined(rest, path);
      assert (prefix + path)[0] == prefix[0] && (prefix + path)[1..] == rest + path;
      if rest == [] {
        assert rest + path == path;
      } else {
        JoinedThrice(prefix[0], JoinPath(rest), JoinPath(path));
      }
      assert JoinPath(prefix) != [];
    }
  }

  lemma JoinedThrice(a: string, b: string, c: string)
    ensures (a + "::" + b) + "::" + c == a + "::" + (b + "::" + c)
  {
  }

  lemma LegalConcat(a: seq<string>, b: seq<string>)
    requires LegalPath(a) && LegalPath(b)
    ensures LegalPath(a + b)
  {
  }

  lemma {:induction false} LeavesAreLeafPaths(t: Use, prefix: seq<string>)
    requires Legal(t) && LegalPath(prefix)
    ensures Leaves(t, PathText(prefix)) == PathTexts(LeafPaths(t, prefix))
    decreases t, 1
  {
    match t {
      case Leaf(path, _) =>
        QualifiedIsJoined(prefix, path);
        OneText(prefix + path);
      case Group(path, items, _) =>
        LegalConcat(prefix, path);
        AllLeavesAreLeafPaths(items, prefix + path);
        if path == [] {
          assert prefix + path == prefix;
        } else {
          QualifiedIsJoined(prefix, path);
        }
    }
  }

  lemma OneText(path: seq<string>)
    ensures PathTexts({path}) == {PathText(path)}
  {
  }

  lemma TextsUnion(a: set<seq<string>>, b: set<seq<string>>)
    ensures PathTexts(a + b) == PathTexts(a) + PathTexts(b)
  {
  }

  lemma {:induction false} AllLeavesAreLeafPaths(items: seq<Use>, prefix: seq<string>)
    requires (forall i :: 0 <= i < |items| ==> Legal(items[i])) && LegalPath(prefix)
    ensures AllLeaves(items, PathText(prefix)) == PathTexts(AllLeafPaths(items, prefix))
    decreases items, 0
  {
    if items != [] {
      LeavesAreLeafPaths(items[0], prefix);
      AllLeavesAreLeafPaths(items[1..], prefix);
      TextsUnion(LeafPaths(items[0], prefix), AllLeafPaths(items[1..], prefix));
    }
  }

  /** Round trip: for every use tree, expanding its printed form, between spaces and before
      anything that does not continue it, gives exactly the texts of its leaf paths, each
      qualified by all the paths of the groups around it. */
  lemma PrintedTreeExpandsToLeafPaths(t: Use, lead: string, tail: string, prefix: seq<string>)
    requires Legal(t) && AllSpaces(lead) && EndsTree(tail) && LegalPath(prefix)
    ensures Expanded(lead + Print(t) + tail, PathText(prefix)) == PathTexts(LeafPaths(t, prefix))
  {
    ExpandedPrintedTree(t, lead, tail, PathText(prefix));
    LeavesAreLeafPaths(t, prefix);
  }

  // ---- a path that stops at a separator ------------------------------------------------------------

  lemma {:induction false} DanglingLength(path: seq<string>)
    requires path != [] && LegalPath(path)
    ensures PathLength(PrintPath(path) + " :: ") == |PrintPath(path)| + 4
  {
    assert Names(path[0]);
    if |path| == 1 {
      DanglingName(path[0]);
    } else {
      DanglingLength(path[1..]);
      StartOfPath(path[1..]);
      JoinedName(path[0], PrintPath(path[1..]), " :: ");
    }
  }

  lemma DanglingName(name: string)
    requires Names(name)
    ensures PathLength(name + " :: ") == |name| + 4
  {
    SegmentOfName(name, " :: ");
    DanglingSeparator();
    assert (name + " :: ")[|name|..] == " :: ";
    assert " :: "[4..] == "";
  }

  lemma DanglingSeparator()
    ensures Separator(" :: ") == 4
  {
    var rest := ":: ";
    assert " :: " == " " + rest;
    TrimLead(" ", rest);
    assert rest[2..] == " " + "";
    TrimLead(" ", "");
  }

  lemma ColonsTrimmed(s: string)
    requires s != [] && s[|s| - 1] != ':'
    ensures TrimEndColons(s + "::") == s
  {
    OneColonTrimmed(s, s + ":");
    OneColonTrimmed(s + ":", s + "::");
  }

  lemma OneColonTrimmed(s: string, longer: string)
    requires longer == s + ":"
    ensures TrimEndColons(longer) == TrimEndColons(s)
  {
    assert longer[..|longer| - 1] == s;
  }

  /** A separator with nothing behind it is not part of the reference. */
  lemma DanglingSeparatorIsDropped(path: seq<string>, lead: string, prefix: seq<string>)
    requires path != [] && LegalPath(path) && AllSpaces(lead) && LegalPath(prefix)
    ensures Expanded(lead + (PrintPath(path) + " :: "), PathText(prefix)) == {JoinPath(prefix + path)}
  {
    var s := PrintPath(path) + " :: ";
    StartOfPath(path);
    assert s[0] == PrintPath(path)[0] != '{';
    TrimLead(lead, s);
    DanglingPath(path);
    ExpandedWithoutGroup(lead + s, s, JoinPath(path), PathText(prefix));
    QualifiedIsJoined(prefix, path);
  }

  lemma ExpandedWithoutGroup(source: string, s: string, path: string, prefix: string)
    requires TrimStart(source) == s && s != [] && s[0] != '{'
    requires ReferencePath(s) == Some(path) && GroupAfter(s[PathLength(s)..]) == None
    ensures Expanded(source, prefix) == {Qualified(prefix, path)}
  {
  }

  lemma DanglingPath(path: seq<string>)
    requires path != [] && LegalPath(path)
    ensures var s := PrintPath(path) + " :: ";
            ReferencePath(s) == Some(JoinPath(path)) && GroupAfter(s[PathLength(s)..]) == None
  {
    var s := PrintPath(path) + " :: ";
    DanglingLength(path);
    PathOfPrinted(path);
    WithoutSpacesConcat(PrintPath(path), " :: ");
    SeparatorWithoutSpaces();
    ColonsTrimmed(JoinPath(path));
    WholePath(s, JoinPath(path));
  }

  lemma WholePath(s: string, path: string)
    requires PathLength(s) == |s| && TrimEndColons(WithoutSpaces(s)) == path && path != []
    ensures ReferencePath(s) == Some(path) && GroupAfter(s[PathLength(s)..]) == None
  {
    assert s[..|s|] == s && s[|s|..] == [];
  }
}
