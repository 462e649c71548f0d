/** Shared value types, the lexicographic orders Rust derives for `String` and
    `Vec<String>`, and insertion into a sorted sequence. */
module Orders {

  datatype Option<+T> = None | Some(value: T)

  datatype Result<+T, +E> = Ok(value: T) | Err(error: E)

  type byte = x: int | 0 <= x < 0x100
  type U32 = x: int | 0 <= x < 0x1_0000_0000
  type U64 = x: int | 0 <= x < 0x1_0000_0000_0000_0000
  type I64 = x: int | -0x8000_0000_0000_0000 <= x < 0x8000_0000_0000_0000

  const U64_MAX: U64 := 0xFFFF_FFFF_FFFF_FFFF

  function SaturatingAdd(a: U64, b: U64): U64 {
    if a + b > U64_MAX then U64_MAX else a + b
  }

  /** Code-point order on strings (the byte order of their UTF-8 encodings). */
  predicate StringLe(a: string, b: string) {
    a == [] || (b != [] && (a[0] < b[0] || (a[0] == b[0] && StringLe(a[1..], b[1..]))))
  }

  lemma {:induction false} StringLeTotal(a: string, b: string)
    ensures StringLe(a, b) || StringLe(b, a)
    ensures StringLe(a, b) && StringLe(b, a) ==> a == b
  {
    if a != [] && b != [] && a[0] == b[0] {
      StringLeTotal(a[1..], b[1..]);
      assert a == [a[0]] + a[1..] && b == [b[0]] + b[1..];
    }
  }

  lemma {:induction false} StringLeTransitive(a: string, b: string, c: string)
    requires StringLe(a, b) && StringLe(b, c)
    ensures StringLe(a, c)
  {
    if a != [] && a[0] == b[0] && b[0] == c[0] {
      StringLeTransitive(a[1..], b[1..], c[1..]);
    }
  }

  /** The first place where `a` and `b` differ. */
  ghost predicate DifferAt<T>(a: seq<T>, b: seq<T>, i: int) {
    0 <= i < |a| && i < |b| && a[..i] == b[..i] && a[i] != b[i]
  }

  /** A string comes before another if it is a prefix of it or has the smaller character
      where they first differ. */
  lemma {:induction false} StringLeIsLexicographic(a: string, b: string)
    ensures a <= b ==> StringLe(a, b)
    ensures b < a ==> !StringLe(a, b)
    ensures forall i :: DifferAt(a, b, i) ==> (StringLe(a, b) <==> a[i] < b[i])
  {
    if a != [] && b != [] {
      StringLeIsLexicographic(a[1..], b[1..]);
      forall i | DifferAt(a, b, i) ensures StringLe(a, b) <==> a[i] < b[i] {
        if i > 0 {
          DifferBelow(a, b, i);
        }
      }
      if a <= b || b <= a {
        assert a[0] == b[0];
        assert a <= b ==> a[1..] <= b[1..];
        assert b < a ==> b[1..] < a[1..];
      }
    }
  }

  lemma DifferBelow<T>(a: seq<T>, b: seq<T>, i: int)
    requires DifferAt(a, b, i) && i > 0
    ensures a[0] == b[0] && DifferAt(a[1..], b[1..], i - 1)
  {
    assert a[0] == a[..i][0] && b[0] == b[..i][0];
    assert a[1..][..i - 1] == a[..i][1..] && b[1..][..i - 1] == b[..i][1..];
  }

  /** The same for component lists, whose components are compared as strings. */
  lemma {:induction false} PathLeIsLexicographic(a: seq<string>, b: seq<string>)
    ensures a <= b ==> PathLe(a, b)
    ensures b < a ==> !PathLe(a, b)
    ensures forall i :: DifferAt(a, b, i) ==> (PathLe(a, b) <==> StringLe(a[i], b[i]))
  {
    if a != [] && b != [] {
      PathLeIsLexicographic(a[1..], b[1..]);
      forall i | DifferAt(a, b, i) ensures PathLe(a, b) <==> StringLe(a[i], b[i]) {
        if i > 0 {
          DifferBelow(a, b, i);
        }
      }
      if a <= b || b <= a {
        assert a[0] == b[0];
        assert a <= b ==> a[1..] <= b[1..];
        assert b < a ==> b[1..] < a[1..];
      }
    }
  }

  /** Lexicographic order on component lists, components compared by `StringLe`. */
  predicate PathLe(a: seq<string>, b: seq<string>) {
    a == [] || (b != [] && if a[0] == b[0] then PathLe(a[1..], b[1..]) else StringLe(a[0], b[0]))
  }

  lemma {:induction false} PathLeTotal(a: seq<string>, b: seq<string>)
    ensures PathLe(a, b) || PathLe(b, a)
    ensures PathLe(a, b) && PathLe(b, a) ==> a == b
  {
    if a != [] && b != [] {
      StringLeTotal(a[0], b[0]);
      if a[0] == b[0] {
        PathLeTotal(a[1..], b[1..]);
        assert a == [a[0]] + a[1..] && b == [b[0]] + b[1..];
      }
    }
  }

  lemma {:induction false} PathLeTransitive(a: seq<string>, b: seq<string>, c: seq<string>)
    requires PathLe(a, b) && PathLe(b, c)
    ensures PathLe(a, c)
  {
    if a != [] {
      if a[0] == b[0] == c[0] {
        PathLeTransitive(a[1..], b[1..], c[1..]);
      } else {
        StringLeTotal(a[0], b[0]);
        StringLeTotal(b[0], c[0]);
        StringLeTransitive(a[0], b[0], c[0]);
      }
    }
  }

  /** A path never sorts after one it is a prefix of. */
  lemma {:induction false} PrefixSortsFirst(a: seq<string>, b: seq<string>)
    requires a <= b
    ensures PathLe(a, b)
  {
    if a != [] {
      PrefixSortsFirst(a[1..], b[1..]);
    }
  }

  // ---- selecting ------------------------------------------------------------------------

  ghost predicate Increasing(at: seq<nat>) {
    forall i, j :: 0 <= i < j < |at| ==> at[i] < at[j]
  }

  ghost predicate TakenFrom<T>(r: seq<T>, xs: seq<T>, keep: T -> bool, at: seq<nat>) {
    |r| == |at| && forall i :: 0 <= i < |at| ==> at[i] < |xs| && r[i] == xs[at[i]] && keep(r[i])
  }

  ghost predicate NoneMissed<T>(xs: seq<T>, keep: T -> bool, at: seq<nat>) {
    forall k :: 0 <= k < |xs| && keep(xs[k]) ==> k in at
  }

  /** `r` lists, in order, exactly the elements of `xs` that `keep` wants; `at` says where
      they were. */
  ghost predicate Selects<T>(r: seq<T>, xs: seq<T>, keep: T -> bool, at: seq<nat>) {
    Increasing(at) && TakenFrom(r, xs, keep, at) && NoneMissed(xs, keep, at)
  }

  lemma SelectsOneMore<T>(r: seq<T>, xs: seq<T>, keep: T -> bool, at: seq<nat>, x: T, r': seq<T>, xs': seq<T>)
    returns (at': seq<nat>)
    requires Selects(r, xs, keep, at) && xs' == xs + [x] && r' == if keep(x) then r + [x] else r
    ensures Selects(r', xs', keep, at')
  {
    if keep(x) {
      at' := at + [|xs|];
      TakenOneMore(r, xs, keep, at, x);
    } else {
      at' := at;
    }
    NoneMissedOneMore(xs, keep, at, x, at');
  }

  lemma TakenOneMore<T>(r: seq<T>, xs: seq<T>, keep: T -> bool, at: seq<nat>, x: T)
    requires Increasing(at) && TakenFrom(r, xs, keep, at) && keep(x)
    ensures Increasing(at + [|xs|]) && TakenFrom(r + [x], xs + [x], keep, at + [|xs|])
  {
  }

  lemma NoneMissedOneMore<T>(xs: seq<T>, keep: T -> bool, at: seq<nat>, x: T, at': seq<nat>)
    requires NoneMissed(xs, keep, at) && at <= at' && (keep(x) ==> |xs| in at')
    ensures NoneMissed(xs + [x], keep, at')
  {
    var all := xs + [x];
    forall k | 0 <= k < |all| && keep(all[k]) ensures k in at' {
      if k < |xs| {
        assert all[k] == xs[k];
        StillIn(at, at', k);
      }
    }
  }

  lemma StillIn<T>(a: seq<T>, b: seq<T>, x: T)
    requires a <= b && x in a
    ensures x in b
  {
    var i :| 0 <= i < |a| && a[i] == x;
    assert b[i] == x;
  }

  /** A function that appends just what `keep` wants. */
  ghost predicate Grows<T(!new)>(f: seq<T> -> seq<T>, keep: T -> bool) {
    f([]) == [] && forall before, x :: f(before + [x]) == if keep(x) then f(before) + [x] else f(before)
  }

  lemma GrownAt<T(!new)>(f: seq<T> -> seq<T>, keep: T -> bool, before: seq<T>, x: T, xs: seq<T>)
    requires Grows(f, keep) && xs == before + [x]
    ensures f(xs) == if keep(x) then f(before) + [x] else f(before)
  {
  }

  /** It selects exactly that. */
  lemma {:induction false} GrowingSelects<T(!new)>(f: seq<T> -> seq<T>, keep: T -> bool, xs: seq<T>) returns (at: seq<nat>)
    requires Grows(f, keep)
    ensures Selects(f(xs), xs, keep, at)
  {
    if xs == [] {
      at := [];
    } else {
      var before, last := xs[..|xs| - 1], xs[|xs| - 1];
      assert xs == before + [last];
      GrownAt(f, keep, before, last, xs);
      at := GrowingSelects(f, keep, before);
      at := SelectsOneMore(f(before), before, keep, at, last, f(xs), xs);
    }
  }

  // ---- counting -----------------------------------------------------------------------

  /** At how many places of `xs` there is an element that `keep` wants. */
  ghost function CountIf<T>(xs: seq<T>, keep: T -> bool): nat {
    |set i | 0 <= i < |xs| && keep(xs[i])|
  }

  lemma CountOneMore<T>(before: seq<T>, last: T, xs: seq<T>, keep: T -> bool)
    requires xs == before + [last]
    ensures CountIf(xs, keep) == CountIf(before, keep) + if keep(last) then 1 else 0
  {
    var earlier := set i | 0 <= i < |before| && keep(before[i]);
    var all := set i | 0 <= i < |xs| && keep(xs[i]);
    if keep(last) {
      assert all == earlier + {|before|};
    } else {
      assert all == earlier;
    }
  }

  // ---- sorting ------------------------------------------------------------------------

  ghost predicate TotalPreorder<T(!new)>(le: (T, T) -> bool) {
    && (forall a, b :: le(a, b) || le(b, a))
    && (forall a, b, c :: le(a, b) && le(b, c) ==> le(a, c))
  }

  ghost predicate SortedBy<T>(le: (T, T) -> bool, s: seq<T>) {
    forall i, j :: 0 <= i < j < |s| ==> le(s[i], s[j])
  }

  /** `Vec::sort_by`, as an insertion sort. */
  method Sort<T(!new)>(le: (T, T) -> bool, xs: seq<T>) returns (sorted: seq<T>)
    requires TotalPreorder(le)
    ensures SortedBy(le, sorted)
    ensures multiset(sorted) == multiset(xs)
  {
    sorted := [];
    for k := 0 to |xs|
      invariant SortedBy(le, sorted)
      invariant multiset(sorted) == multiset(xs[..k])
    {
      sorted := Insert(le, sorted, xs[k]);
      assert xs[..k + 1] == xs[..k] + [xs[k]];
    }
    assert xs[..|xs|] == xs;
  }

  method Insert<T(!new)>(le: (T, T) -> bool, s: seq<T>, x: T) returns (r: seq<T>)
    requires TotalPreorder(le) && SortedBy(le, s)
    ensures SortedBy(le, r)
    ensures multiset(r) == multiset(s) + multiset{x}
  {
    var k := 0;
    while k < |s| && le(s[k], x)
      invariant 0 <= k <= |s|
      invariant forall i :: 0 <= i < k ==> le(s[i], x)
    {
      k := k + 1;
    }
    r := s[..k] + [x] + s[k..];
    AboveRest(le, s, k, x);
    InsertedSorted(le, s, k, x);
    InsertedElements(s, k, x);
  }

  lemma AboveRest<T(!new)>(le: (T, T) -> bool, s: seq<T>, k: nat, x: T)
    requires TotalPreorder(le) && SortedBy(le, s) && k <= |s| && (k < |s| ==> !le(s[k], x))
    ensures forall j :: k <= j < |s| ==> le(x, s[j])
  {
    forall j | k <= j < |s| ensures le(x, s[j]) {
      assert le(x, s[k]);
      assert k < j ==> le(s[k], s[j]);
    }
  }

  lemma InsertedSorted<T(!new)>(le: (T, T) -> bool, s: seq<T>, k: nat, x: T)
    requires SortedBy(le, s) && k <= |s|
    requires (forall i :: 0 <= i < k ==> le(s[i], x)) && (forall j :: k <= j < |s| ==> le(x, s[j]))
    ensures SortedBy(le, s[..k] + [x] + s[k..])
  {
    var r := s[..k] + [x] + s[k..];
    forall i, j | 0 <= i < j < |r| ensures le(r[i], r[j]) {
      assert r[i] == if i < k then s[i] else if i == k then x else s[i - 1];
      assert r[j] == if j < k then s[j] else if j == k then x else s[j - 1];
    }
  }

  lemma InsertedElements<T>(s: seq<T>, k: nat, x: T)
    requires k <= |s|
    ensures multiset(s[..k] + [x] + s[k..]) == multiset(s) + multiset{x}
  {
    assert s == s[..k] + s[k..];
  }

  lemma PathLeIsTotal()
    ensures TotalPreorder(PathLe)
  {
    forall a, b ensures PathLe(a, b) || PathLe(b, a) { PathLeTotal(a, b); }
    forall a, b, c | PathLe(a, b) && PathLe(b, c) ensures PathLe(a, c) { PathLeTransitive(a, b, c); }
  }

  lemma StringLeIsTotal()
    ensures TotalPreorder(StringLe)
  {
    forall a, b ensures StringLe(a, b) || StringLe(b, a) { StringLeTotal(a, b); }
    forall a, b, c | StringLe(a, b) && StringLe(b, c) ensures StringLe(a, c) { StringLeTransitive(a, b, c); }
  }
}
