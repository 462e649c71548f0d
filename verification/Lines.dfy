/** The bounded line scanner of the telemetry reader. */
module Lines {
  import opened Orders

  const NEWLINE: byte := 10

  type Line = seq<byte>

  datatype Scan = Scan(completeBytes: U64, skippedOversized: U64, partialTail: bool)

  // ---- meaning ------------------------------------------------------------------------

  /** The newline-terminated lines, without their newlines. */
  function CompleteLines(s: seq<byte>): seq<Line> {
    if s == [] then []
    else
      var before := s[..|s| - 1];
      CompleteLines(before) + if s[|s| - 1] == NEWLINE then [Tail(before)] else []
  }

  /** What follows the last newline. */
  function Tail(s: seq<byte>): Line {
    if s == [] || s[|s| - 1] == NEWLINE then [] else Tail(s[..|s| - 1]) + [s[|s| - 1]]
  }

  function Terminated(lines: seq<Line>): seq<byte> {
    if lines == [] then [] else Terminated(lines[..|lines| - 1]) + lines[|lines| - 1] + [NEWLINE]
  }

  /** Lines and tail are a cut of the content at its newlines. */
  lemma {:induction false} LinesPartition(s: seq<byte>)
    ensures Terminated(CompleteLines(s)) + Tail(s) == s
    ensures NEWLINE !in Tail(s) && forall i :: 0 <= i < |CompleteLines(s)| ==> NEWLINE !in CompleteLines(s)[i]
  {
    if s != [] {
      var before, last := s[..|s| - 1], s[|s| - 1];
      LinesPartition(before);
      assert s == before + [last];
      if last == NEWLINE {
        assert (CompleteLines(before) + [Tail(before)])[..|CompleteLines(before)|] == CompleteLines(before);
      } else {
        assert CompleteLines(s) == CompleteLines(before);
      }
    }
  }

  ghost predicate NoNewlines(lines: seq<Line>) {
    forall i :: 0 <= i < |lines| ==> NEWLINE !in lines[i]
  }

  /** There is no other cut: lines and a tail without newlines that make up the content
      are its complete lines and its tail. */
  lemma {:induction false} LinesAreUnique(s: seq<byte>, lines: seq<Line>, tail: Line)
    requires Terminated(lines) + tail == s && NoNewlines(lines) && NEWLINE !in tail
    ensures lines == CompleteLines(s) && tail == Tail(s)
    decreases |s|
  {
    if s == [] {
      assert lines == [];
    } else if tail == [] {
      assert lines != [];
      var first, last := lines[..|lines| - 1], lines[|lines| - 1];
      assert s == Terminated(first) + last + [NEWLINE];
      assert s[..|s| - 1] == Terminated(first) + last && s[|s| - 1] == NEWLINE;
      LinesAreUnique(s[..|s| - 1], first, last);
      assert lines == first + [last];
    } else {
      var rest, last := tail[..|tail| - 1], tail[|tail| - 1];
      assert tail == rest + [last];
      assert s[..|s| - 1] == Terminated(lines) + rest && s[|s| - 1] == last;
      assert last in tail;
      LinesAreUnique(s[..|s| - 1], lines, rest);
    }
  }

  function Fitting(lines: seq<Line>, cap: nat): seq<Line> {
    if lines == [] then []
    else Fitting(lines[..|lines| - 1], cap) + if |lines[|lines| - 1]| <= cap then [lines[|lines| - 1]] else []
  }

  function Oversized(lines: seq<Line>, cap: nat): nat {
    if lines == [] then 0
    else Oversized(lines[..|lines| - 1], cap) + if |lines[|lines| - 1]| <= cap then 0 else 1
  }

  /** A line that fits counts with its newline, an oversized one as a single byte. */
  function CountedBytes(lines: seq<Line>, cap: nat): nat {
    if lines == [] then 0
    else CountedBytes(lines[..|lines| - 1], cap) + if |lines[|lines| - 1]| <= cap then |lines[|lines| - 1]| + 1 else 1
  }

  function Clamped(n: nat): U64 {
    if n > U64_MAX then U64_MAX else n
  }

  /** What is counted is what the fitting lines take up, and one byte for every oversized
      one. */
  lemma {:induction false} CountsFittingBytes(lines: seq<Line>, cap: nat)
    ensures CountedBytes(lines, cap) == |Terminated(Fitting(lines, cap))| + Oversized(lines, cap)
  {
    if lines != [] {
      var before, last := lines[..|lines| - 1], lines[|lines| - 1];
      CountsFittingBytes(before, cap);
      var fitting := Fitting(lines, cap);
      if |last| <= cap {
        assert fitting == Fitting(before, cap) + [last] && fitting[..|fitting| - 1] == Fitting(before, cap);
      } else {
        assert fitting == Fitting(before, cap);
      }
    }
  }

  /** That never exceeds what the complete lines take up, and is exactly that
      if and only if no line is oversized. */
  lemma {:induction false} CountsCompleteBytes(lines: seq<Line>, cap: nat)
    ensures CountedBytes(lines, cap) <= |Terminated(lines)|
    ensures CountedBytes(lines, cap) == |Terminated(lines)| <==> Oversized(lines, cap) == 0
    ensures Oversized(lines, cap) == 0 <==> Fitting(lines, cap) == lines
    ensures |Fitting(lines, cap)| + Oversized(lines, cap) == |lines|
  {
    if lines != [] {
      var before, last := lines[..|lines| - 1], lines[|lines| - 1];
      CountsCompleteBytes(before, cap);
      assert lines == before + [last];
      assert Fitting(lines, cap) == lines ==> |Fitting(lines, cap)| == |lines|;
    }
  }

  lemma {:induction false} FittingPrefix(a: seq<Line>, b: seq<Line>, cap: nat)
    ensures Fitting(a + b, cap) == Fitting(a, cap) + Fitting(b, cap)
  {
    if b == [] {
      assert a + b == a;
    } else {
      FittingPrefix(a, b[..|b| - 1], cap);
      assert (a + b)[..|a + b| - 1] == a + b[..|b| - 1];
    }
  }

  lemma {:induction false} LinesOfPrefix(a: seq<byte>, b: seq<byte>)
    ensures CompleteLines(a) <= CompleteLines(a + b)
  {
    if b == [] {
      assert a + b == a;
    } else {
      LinesOfPrefix(a, b[..|b| - 1]);
      assert (a + b)[..|a + b| - 1] == a + b[..|b| - 1];
    }
  }

  // ---- scanning ------------------------------------------------------------------------

  function Joined(chunks: seq<seq<byte>>): seq<byte> {
    if chunks == [] then [] else Joined(chunks[..|chunks| - 1]) + chunks[|chunks| - 1]
  }

  lemma JoinedOneMore(chunks: seq<seq<byte>>, k: nat)
    requires k < |chunks|
    ensures Joined(chunks[..k + 1]) == Joined(chunks[..k]) + chunks[k]
  {
    assert chunks[..k + 1][..k] == chunks[..k];
  }

  lemma JoinedRest(chunks: seq<seq<byte>>, k: nat) returns (rest: seq<byte>)
    requires k <= |chunks|
    ensures Joined(chunks) == Joined(chunks[..k]) + rest
  {
    JoinedPrefix(chunks, k);
    rest := Joined(chunks)[|Joined(chunks[..k])|..];
  }

  lemma {:induction false} JoinedPrefix(chunks: seq<seq<byte>>, k: nat)
    requires k <= |chunks|
    ensures Joined(chunks[..k]) <= Joined(chunks)
  {
    if k < |chunks| {
      JoinedPrefix(chunks[..|chunks| - 1], k);
      assert chunks[..|chunks| - 1][..k] == chunks[..k];
    } else {
      assert chunks[..k] == chunks;
    }
  }

  /** Whether the visit of a line succeeds, given the lines visited before it. */
  type Visitor = (seq<Line>, Line) -> bool

  ghost predicate AllAccepted(lines: seq<Line>, accepts: Visitor) {
    forall i :: 0 <= i < |lines| ==> accepts(lines[..i], lines[i])
  }

  lemma OneMoreVisit(visited: seq<Line>, line: Line, accepts: Visitor)
    requires AllAccepted(visited, accepts)
    ensures AllAccepted(visited + [line], accepts) <==> accepts(visited, line)
  {
    var more := visited + [line];
    assert more[..|visited|] == visited;
    assert forall i :: 0 <= i < |visited| ==> more[..i] == visited[..i];
  }

  function Cap(maxLineBytes: nat): nat {
    if maxLineBytes == 0 then 0 else maxLineBytes - 1
  }

  /** A line is short enough if it fits with its newline; the empty line always is. */
  predicate ShortEnough(line: Line, maxLineBytes: nat) {
    |line| + 1 <= maxLineBytes || line == []
  }

  /** What is visited: in order, exactly the lines that fit with their newline in the
      maximum, and empty ones. All others are counted as oversized. */
  lemma VisitsWhatFits(lines: seq<Line>, maxLineBytes: nat) returns (at: seq<nat>)
    ensures Selects(Fitting(lines, Cap(maxLineBytes)), lines, line => ShortEnough(line, maxLineBytes), at)
    ensures Oversized(lines, Cap(maxLineBytes)) == |lines| - |at|
  {
    var cap := Cap(maxLineBytes);
    var fitting: seq<Line> -> seq<Line> := some => Fitting(some, cap);
    var keep: Line -> bool := line => ShortEnough(line, maxLineBytes);
    forall before, line
      ensures fitting(before + [line]) == if keep(line) then fitting(before) + [line] else fitting(before)
    {
      OneMoreLine(before, line, cap);
    }
    at := GrowingSelects(fitting, keep, lines);
    CountsCompleteBytes(lines, cap);
  }

  /** What a full scan of `content` reports. */
  function Report(content: seq<byte>, cap: nat): Scan {
    var lines := CompleteLines(content);
    Scan(Clamped(CountedBytes(lines, cap)), Clamped(Oversized(lines, cap)), Tail(content) != [])
  }

  /** For a file whose length fits, the byte count of a full scan is the length of the
      file if and only if no line is oversized and no bytes follow the last newline. */
  lemma CountsWholeFile(content: seq<byte>, cap: nat)
    requires |content| <= U64_MAX
    ensures Report(content, cap).completeBytes <= |content| - |Tail(content)|
    ensures Report(content, cap).completeBytes == |content| <==>
            Oversized(CompleteLines(content), cap) == 0 && Tail(content) == []
  {
    LinesPartition(content);
    CountsCompleteBytes(CompleteLines(content), cap);
  }

  /** One oversized line is enough: of a two-byte file a single byte is counted. */
  lemma OversizedLineIsMiscounted()
    ensures Report([65, NEWLINE], 0) == Scan(1, 1, false)
  {
    var line: seq<byte> := [65];
    OneMoreByte([], 65);
    OneMoreByte(line, NEWLINE);
    assert [] + [65] == line && line + [NEWLINE] == [65, NEWLINE];
    OneMoreLine([], line, 0);
    assert [] + [line] == [line];
  }

  /** The visits that a failing visit leaves: those up to and including it. */
  ghost predicate Interrupted(visited: seq<Line>, all: seq<Line>, accepts: Visitor) {
    && visited != [] && visited <= all
    && AllAccepted(visited[..|visited| - 1], accepts) && !accepts(visited[..|visited| - 1], visited[|visited| - 1])
  }

  /** The scanner's variables, and the lines it has visited. */
  datatype Scanner = Scanner(line: Line, oversized: bool, scan: Scan, visited: seq<Line>)

  /** A scan that has read `seen` and not been interrupted. The buffer holds the tail
      while that fits, and then nothing. */
  ghost predicate Tracks(s: Scanner, seen: seq<byte>, cap: nat, accepts: Visitor) {
    && s.oversized == (|Tail(seen)| > cap) && s.line == (if s.oversized then [] else Tail(seen))
    && s.visited == Fitting(CompleteLines(seen), cap) && AllAccepted(s.visited, accepts)
    && s.scan == Report(seen, cap).(partialTail := false)
  }

  lemma OneMoreByte(seen: seq<byte>, b: byte)
    ensures CompleteLines(seen + [b]) == if b == NEWLINE then CompleteLines(seen) + [Tail(seen)] else CompleteLines(seen)
    ensures Tail(seen + [b]) == if b == NEWLINE then [] else Tail(seen) + [b]
  {
    assert (seen + [b])[..|seen|] == seen;
  }

  lemma OneMoreLine(lines: seq<Line>, line: Line, cap: nat)
    ensures Fitting(lines + [line], cap) == Fitting(lines, cap) + if |line| <= cap then [line] else []
    ensures Oversized(lines + [line], cap) == Oversized(lines, cap) + if |line| <= cap then 0 else 1
    ensures CountedBytes(lines + [line], cap) == CountedBytes(lines, cap) + if |line| <= cap then |line| + 1 else 1
  {
    assert (lines + [line])[..|lines|] == lines;
  }

  /** Reading on does not change which visits took place before the interruption. */
  lemma StaysInterrupted(
    visited: seq<Line>, seen: seq<byte>, rest: seq<byte>, content: seq<byte>, cap: nat, accepts: Visitor)
    requires content == seen + rest && Interrupted(visited, Fitting(CompleteLines(seen), cap), accepts)
    ensures Interrupted(visited, Fitting(CompleteLines(content), cap), accepts)
  {
    LinesOfPrefix(seen, rest);
    var a, b := CompleteLines(seen), CompleteLines(content);
    assert a + b[|a|..] == b;
    FittingPrefix(a, b[|a|..], cap);
  }

  /** The scan of a newline; `halted` when the visit of the line it completes fails. */
  method EndLine(s: Scanner, cap: nat, accepts: Visitor, ghost seen: seq<byte>)
    returns (s': Scanner, halted: bool)
    requires Tracks(s, seen, cap, accepts)
    ensures !halted ==> Tracks(s', seen + [NEWLINE], cap, accepts)
    ensures halted ==> Interrupted(s'.visited, Fitting(CompleteLines(seen + [NEWLINE]), cap), accepts)
    ensures s'.line == []
  {
    LineEnded(seen, cap);
    var scan := s.scan.(completeBytes := SaturatingAdd(s.scan.completeBytes, Clamped(|s.line| + 1)));
    if s.oversized {
      scan := scan.(skippedOversized := SaturatingAdd(scan.skippedOversized, 1));
      return Scanner([], false, scan, s.visited), false;
    }
    LineVisited(s.visited, s.line, accepts);
    s', halted := Scanner([], false, scan, s.visited + [s.line]), !accepts(s.visited, s.line);
  }

  lemma ClampedSum(a: nat, b: nat)
    ensures SaturatingAdd(Clamped(a), Clamped(b)) == Clamped(a + b)
  {
  }

  /** What a newline changes. */
  lemma LineEnded(seen: seq<byte>, cap: nat)
    ensures var more, line := seen + [NEWLINE], Tail(seen);
            var before, after := Report(seen, cap), Report(more, cap);
            && Tail(more) == []
            && Fitting(CompleteLines(more), cap) ==
               Fitting(CompleteLines(seen), cap) + (if |line| <= cap then [line] else [])
            && after.completeBytes == SaturatingAdd(before.completeBytes, Clamped(if |line| <= cap then |line| + 1 else 1))
            && after.skippedOversized ==
               (if |line| <= cap then before.skippedOversized else SaturatingAdd(before.skippedOversized, 1))
  {
    var lines, line := CompleteLines(seen), Tail(seen);
    OneMoreByte(seen, NEWLINE);
    OneMoreLine(lines, line, cap);
    ClampedSum(CountedBytes(lines, cap), if |line| <= cap then |line| + 1 else 1);
    ClampedSum(Oversized(lines, cap), 1);
  }

  /** One more visit, which succeeds or interrupts the scan. */
  lemma LineVisited(visited: seq<Line>, line: Line, accepts: Visitor)
    requires AllAccepted(visited, accepts)
    ensures accepts(visited, line) ==> AllAccepted(visited + [line], accepts)
    ensures !accepts(visited, line) ==> Interrupted(visited + [line], visited + [line], accepts)
  {
    OneMoreVisit(visited, line, accepts);
    assert (visited + [line])[..|visited|] == visited;
  }

  /** The scan of one byte. */
  method ScanByte(s: Scanner, b: byte, cap: nat, accepts: Visitor, ghost seen: seq<byte>)
    returns (s': Scanner, halted: bool)
    requires Tracks(s, seen, cap, accepts)
    ensures !halted ==> Tracks(s', seen + [b], cap, accepts)
    ensures halted ==> Interrupted(s'.visited, Fitting(CompleteLines(seen + [b]), cap), accepts)
    ensures |s'.line| <= cap
  {
    if b == NEWLINE {
      s', halted := EndLine(s, cap, accepts, seen);
      return;
    }
    OneMoreByte(seen, b);
    s', halted := s, false;
    if !s.oversized {
      s' := if |s.line| < cap then s.(line := s.line + [b]) else s.(line := [], oversized := true);
    }
  }

  /** The scan of one read. */
  method ScanChunk(s: Scanner, chunk: seq<byte>, cap: nat, accepts: Visitor, ghost seen: seq<byte>)
    returns (s': Scanner, halted: bool, ghost peak: nat)
    requires Tracks(s, seen, cap, accepts)
    ensures !halted ==> Tracks(s', seen + chunk, cap, accepts)
    ensures halted ==> Interrupted(s'.visited, Fitting(CompleteLines(seen + chunk), cap), accepts)
    ensures peak <= cap
  {
    s', peak, halted := s, 0, false;
    ghost var whole, read, rest := seen + chunk, seen, chunk;
    for j := 0 to |chunk|
      invariant read + rest == whole && rest == chunk[j..]
      invariant !halted && peak <= cap
      invariant Tracks(s', read, cap, accepts)
    {
      s', halted := ScanByte(s', chunk[j], cap, accepts, read);
      FirstOfRest(chunk, j);
      FirstMoved(read, rest, whole);
      read, rest := read + [chunk[j]], rest[1..];
      peak := if |s'.line| > peak then |s'.line| else peak;
      if halted {
        StaysInterrupted(s'.visited, read, rest, whole, cap, accepts);
        return;
      }
    }
    NothingLeft(read, rest);
  }

  lemma FirstOfRest(s: seq<byte>, j: nat)
    requires j < |s|
    ensures s[j..] != [] && s[j..][0] == s[j] && s[j..][1..] == s[j + 1..]
  {
  }

  lemma FirstMoved(read: seq<byte>, rest: seq<byte>, whole: seq<byte>)
    requires read + rest == whole && rest != []
    ensures (read + [rest[0]]) + rest[1..] == whole
  {
  }

  lemma NothingLeft(read: seq<byte>, rest: seq<byte>)
    requires rest == []
    ensures read + rest == read
  {
  }

  /** For every content and every chunking of the reads, visits exactly the complete
      lines that fit, in order, until a visit fails, and reports the rest. Whether a
      visit fails may depend on all earlier ones. A missing file reads as empty. The buffer never holds more than the cap. */
  method ForEachCompleteLine(file: Option<seq<seq<byte>>>, maxLineBytes: nat, accepts: Visitor)
    returns (visited: seq<Line>, r: Option<Scan>, ghost peak: nat)
    ensures var content := if file.Some? then Joined(file.value) else [];
            var all := Fitting(CompleteLines(content), Cap(maxLineBytes));
            && (r.Some? ==> visited == all && AllAccepted(all, accepts) && r.value == Report(content, Cap(maxLineBytes)))
            && (r.None? ==> Interrupted(visited, all, accepts))
    ensures peak <= Cap(maxLineBytes)
  {
    peak := 0;
    if file.None? {
      return [], Some(Scan(0, 0, false)), 0;
    }
    var chunks, cap := file.value, Cap(maxLineBytes);
    var s := Scanner([], false, Scan(0, 0, false), []);
    for k := 0 to |chunks|
      invariant Tracks(s, Joined(chunks[..k]), cap, accepts) && peak <= cap
    {
      JoinedOneMore(chunks, k);
      var halted;
      ghost var reached;
      s, halted, reached := ScanChunk(s, chunks[k], cap, accepts, Joined(chunks[..k]));
      peak := if reached > peak then reached else peak;
      if halted {
        ghost var rest := JoinedRest(chunks, k + 1);
        StaysInterrupted(s.visited, Joined(chunks[..k + 1]), rest, Joined(chunks), cap, accepts);
        return s.visited, None, peak;
      }
    }
    assert chunks[..|chunks|] == chunks;
    visited, r := s.visited, Some(s.scan.(partialTail := s.oversized || s.line != []));
  }
}
