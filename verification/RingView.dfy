/** The ring as its header and 1023 slots, and the logic of appending, reading and
    recovering, away from bytes. A slot is `None` where its bytes do not decode. */
module RingView {
  import opened Orders
  import opened RingCodec

  const MAX_RESPONSE := 512
  const I64_MIN: I64 := -0x8000_0000_0000_0000
  const I64_MAX: I64 := 0x7FFF_FFFF_FFFF_FFFF

  datatype ReadError = Unavailable | BadHeader | BadRecord(index: nat) | TornNewest | OutOfOrder

  datatype Read = Read(samples: seq<Sample>, error: Option<ReadError>)

  datatype ViewData = View(header: Header, slots: seq<Option<Sample>>)

  type View = v: ViewData | |v.slots| == CAPACITY && ValidHeader(v.header)
    witness View(Header(0, 0, 0), seq(CAPACITY, i => None))

  /** The header after one more record. */
  function Advanced(h: Header): (r: Header)
    requires ValidHeader(h)
    ensures ValidHeader(r)
  {
    Header((h.next + 1) % CAPACITY,
           if h.count + 1 > CAPACITY then CAPACITY else h.count + 1,
           SaturatingAdd(h.sequence, 1))
  }

  /** The record is written, the header is not. */
  function TornView(v: View, s: Sample): View {
    v.(slots := v.slots[v.header.next := Some(s)])
  }

  function AppendedView(v: View, s: Sample): View {
    TornView(v, s).(header := Advanced(v.header))
  }

  // ---- contents --------------------------------------------------------------------

  function Start(h: Header): nat {
    if h.count == CAPACITY then h.next else 0
  }

  /** Slot of the `k`th oldest record. */
  function SlotOf(h: Header, k: nat): (i: nat)
    ensures i < CAPACITY
  {
    (Start(h) + k) % CAPACITY
  }

  /** A ring that has not wrapped writes next where its records end. */
  predicate Coherent(h: Header) {
    h.count < CAPACITY ==> h.next == h.count
  }

  /** The ring holds exactly `xs`, oldest first. */
  ghost predicate Holds(v: View, xs: seq<Sample>) {
    && Coherent(v.header) && |xs| == v.header.count
    && forall k :: 0 <= k < |xs| ==> v.slots[SlotOf(v.header, k)] == Some(xs[k])
  }

  function LastN<T>(xs: seq<T>, n: nat): seq<T> {
    if |xs| <= n then xs else xs[|xs| - n..]
  }

  lemma LastOne<T>(xs: seq<T>)
    ensures xs != [] ==> LastN(xs, 1) == [xs[|xs| - 1]]
    ensures xs == [] ==> LastN(xs, 1) == []
  {
  }

  /** After an append the `k`th oldest record is the one that was `k`th, or, where
      the oldest was dropped, `k + 1`st; the new record comes last. */
  lemma SlotAfterAppend(h: Header, k: nat)
    requires ValidHeader(h) && Coherent(h) && k < Advanced(h).count
    ensures Coherent(Advanced(h))
    ensures var moved := if h.count == CAPACITY then k + 1 else k;
            if moved < h.count then SlotOf(Advanced(h), k) == SlotOf(h, moved) != h.next
            else SlotOf(Advanced(h), k) == h.next
  {
    if h.count == CAPACITY {
      AfterNext(h.next, k);
    } else if h.count + 1 == CAPACITY {
      AfterNext(CAPACITY - 1, k);
    }
  }

  /** Counting from the slot after `next`. */
  lemma AfterNext(next: nat, k: nat)
    requires next < CAPACITY && k < CAPACITY
    ensures ((next + 1) % CAPACITY + k) % CAPACITY == (next + (k + 1)) % CAPACITY
    ensures (next + (k + 1)) % CAPACITY == next <==> k == CAPACITY - 1
  {
    var sum := next + (k + 1);
    assert sum % CAPACITY == if sum < CAPACITY then sum else sum - CAPACITY;
    assert (next + 1) % CAPACITY == if next + 1 < CAPACITY then next + 1 else 0;
  }

  /** An append adds its sample at the end and drops the oldest of a full ring. */
  lemma AppendExtends(v: View, xs: seq<Sample>, s: Sample)
    requires Holds(v, xs)
    ensures Holds(AppendedView(v, s), LastN(xs + [s], CAPACITY))
  {
    var ys, w := LastN(xs + [s], CAPACITY), AppendedView(v, s);
    forall k: nat | k < |ys| ensures w.slots[SlotOf(w.header, k)] == Some(ys[k]) {
      SlotAfterAppend(v.header, k);
      var moved := if |xs| == CAPACITY then k + 1 else k;
      assert ys[k] == (xs + [s])[moved];
      assert moved < |xs| ==> v.slots[SlotOf(v.header, moved)] == Some(xs[moved]);
    }
    assert Coherent(w.header);
  }

  /** The ring after appending `xs` in order to `v`. */
  function AppendedAll(v: View, xs: seq<Sample>): View {
    if xs == [] then v else AppendedView(AppendedAll(v, xs[..|xs| - 1]), xs[|xs| - 1])
  }

  lemma {:induction false} AppendedAllHolds(v: View, xs: seq<Sample>)
    requires Holds(v, [])
    ensures Holds(AppendedAll(v, xs), LastN(xs, CAPACITY))
  {
    if xs != [] {
      var before, s := xs[..|xs| - 1], xs[|xs| - 1];
      assert xs == before + [s];
      AppendedAllHolds(v, before);
      AppendExtends(AppendedAll(v, before), LastN(before, CAPACITY), s);
      LastNOfLastN(before, s);
    }
  }

  /** The header counts the appends: where the next one goes, how many are held, and,
      saturating, how many there were. */
  lemma {:induction false} HeaderCountsAppends(v: View, xs: seq<Sample>)
    requires v.header == Header(0, 0, 0)
    ensures AppendedAll(v, xs).header ==
            Header(|xs| % CAPACITY, if |xs| < CAPACITY then |xs| else CAPACITY, if |xs| < U64_MAX then |xs| else U64_MAX)
  {
    if xs != [] {
      HeaderCountsAppends(v, xs[..|xs| - 1]);
      NextSlot(|xs| - 1);
    }
  }

  lemma NextSlot(n: nat)
    ensures (n % CAPACITY + 1) % CAPACITY == (n + 1) % CAPACITY
  {
  }

  lemma LastNOfLastN(before: seq<Sample>, s: Sample)
    ensures LastN(LastN(before, CAPACITY) + [s], CAPACITY) == LastN(before + [s], CAPACITY)
  {
  }

  // ---- reading -----------------------------------------------------------------------

  ghost predicate NonDecreasing(xs: seq<Sample>) {
    forall i :: 0 <= i < |xs| - 1 ==> xs[i].time <= xs[i + 1].time
  }

  function SaturatingSub(a: I64, b: I64): I64 {
    if a - b < I64_MIN then I64_MIN else if a - b > I64_MAX then I64_MAX else a - b
  }

  /** The samples not older than `oldest`, in order. */
  function Since(xs: seq<Sample>, oldest: I64): seq<Sample> {
    if xs == [] then []
    else
      var rest := Since(xs[..|xs| - 1], oldest);
      if xs[|xs| - 1].time >= oldest then rest + [xs[|xs| - 1]] else rest
  }

  /** What a read answers of `xs`: the samples within `window` of the newest one, at
      most the last 512 of them. */
  function Windowed(xs: seq<Sample>, window: I64): seq<Sample> {
    var newest := if xs == [] then I64_MIN else xs[|xs| - 1].time;
    LastN(Since(xs, SaturatingSub(newest, window)), MAX_RESPONSE)
  }

  /** The decodable ones of the first `n` records, oldest first. */
  function Decodable(v: View, n: nat): seq<Sample> {
    if n == 0 then []
    else
      var r := v.slots[SlotOf(v.header, n - 1)];
      Decodable(v, n - 1) + if r.Some? then [r.value] else []
  }

  /** The last undecodable one of the first `n` records. */
  function LastBad(v: View, n: nat): Option<ReadError> {
    if n == 0 then None
    else if v.slots[SlotOf(v.header, n - 1)].None? then Some(BadRecord(SlotOf(v.header, n - 1)))
    else LastBad(v, n - 1)
  }

  /** A full ring whose first record is newer than its second was torn. */
  predicate TornFirst(full: bool, xs: seq<Sample>) {
    full && |xs| >= 2 && xs[0].time > xs[1].time
  }

  ghost function OrderError(full: bool, xs: seq<Sample>): Option<ReadError> {
    if TornFirst(full, xs) then Some(TornNewest)
    else if !NonDecreasing(xs) then Some(OutOfOrder)
    else None
  }

  lemma OrderErrorIff(full: bool, xs: seq<Sample>)
    ensures OrderError(full, xs).None? <==> NonDecreasing(xs)
    ensures NonDecreasing(xs) ==> !TornFirst(full, xs)
  {
    assert TornFirst(full, xs) ==> xs[0].time > xs[0 + 1].time;
  }

  /** What a window read answers. An error means that the ring is then reset. */
  ghost function ReadView(v: View, window: I64): Read {
    var n := v.header.count;
    Checked(Decodable(v, n), LastBad(v, n), n == CAPACITY, window)
  }

  /** The answer after the order of the decoded samples has been checked. */
  ghost function Checked(xs: seq<Sample>, bad: Option<ReadError>, full: bool, window: I64): Read {
    var kept := if TornFirst(full, xs) then xs[1..] else xs;
    Read(Windowed(kept, window), if bad.Some? then bad else OrderError(full, xs))
  }

  method ReadRecords(v: View, window: I64) returns (read: Read)
    ensures read == ReadView(v, window)
  {
    var h := v.header;
    var samples, corrupt: Option<ReadError> := [], None;
    for logical := 0 to h.count
      invariant samples == Decodable(v, logical)
      invariant corrupt == LastBad(v, logical)
    {
      var index := SlotOf(h, logical);
      if v.slots[index].Some? {
        samples := samples + [v.slots[index].value];
      } else {
        corrupt := Some(BadRecord(index));
      }
    }
    read := CheckOrder(samples, corrupt, h.count == CAPACITY, window);
  }

  method CheckOrder(xs: seq<Sample>, bad: Option<ReadError>, full: bool, window: I64) returns (read: Read)
    ensures read == Checked(xs, bad, full, window)
  {
    var samples, corrupt := xs, bad;
    if full && |samples| >= 2 && samples[0].time > samples[1].time {
      samples := samples[1..];
      if corrupt.None? {
        corrupt := Some(TornNewest);
      }
    } else {
      var ordered := IsNonDecreasing(samples);
      if !ordered && corrupt.None? {
        corrupt := Some(OutOfOrder);
      }
    }
    read := Read(Windowed(samples, window), corrupt);
  }

  method IsNonDecreasing(xs: seq<Sample>) returns (r: bool)
    ensures r <==> NonDecreasing(xs)
  {
    var i := 0;
    while i + 1 < |xs|
      invariant forall j :: 0 <= j < i && j < |xs| - 1 ==> xs[j].time <= xs[j + 1].time
    {
      if xs[i].time > xs[i + 1].time {
        return false;
      }
      i := i + 1;
    }
    r := true;
  }

  /** The newest committed record alone. */
  function LatestView(v: View): Read {
    var index := (v.header.next + CAPACITY - 1) % CAPACITY;
    if v.header.count == 0 then Read([], None)
    else if v.slots[index].None? then Read([], Some(BadRecord(index)))
    else Read([v.slots[index].value], None)
  }

  lemma {:induction false} HoldsDecodes(v: View, xs: seq<Sample>, n: nat)
    requires Holds(v, xs) && n <= |xs|
    ensures Decodable(v, n) == xs[..n] && LastBad(v, n) == None
  {
    if n > 0 {
      HoldsDecodes(v, xs, n - 1);
      assert xs[..n] == xs[..n - 1] + [xs[n - 1]];
    }
  }

  lemma {:induction false} NoBadDecodes(v: View, n: nat, k: nat)
    requires LastBad(v, n) == None && k < n
    ensures |Decodable(v, n)| == n
    ensures v.slots[SlotOf(v.header, k)] == Some(Decodable(v, n)[k])
  {
    if n > 1 {
      NoBadDecodes(v, n - 1, if k < n - 1 then k else 0);
    }
  }

  /** What a ring that holds `xs` answers: the order of the times decides. */
  lemma ReadOfHeld(v: View, xs: seq<Sample>, window: I64)
    requires Holds(v, xs)
    ensures var full := |xs| == CAPACITY;
            var kept := if TornFirst(full, xs) then xs[1..] else xs;
            ReadView(v, window) == Read(Windowed(kept, window), OrderError(full, xs))
  {
    HoldsDecodes(v, xs, |xs|);
    assert xs[..|xs|] == xs;
  }

  lemma LatestOfHeld(v: View, xs: seq<Sample>)
    requires Holds(v, xs)
    ensures LatestView(v) == Read(LastN(xs, 1), None)
  {
    LastOne(xs);
    if xs != [] {
      assert SlotOf(v.header, |xs| - 1) == (v.header.next + CAPACITY - 1) % CAPACITY;
    }
  }

  /** A read of a coherent ring that reports no error found exactly what it holds. */
  lemma CleanReadHolds(v: View, window: I64)
    requires Coherent(v.header) && ReadView(v, window).error.None?
    ensures var xs := Decodable(v, v.header.count);
            Holds(v, xs) && NonDecreasing(xs) && ReadView(v, window).samples == Windowed(xs, window)
  {
    var n := v.header.count;
    if n > 0 { NoBadDecodes(v, n, 0); }
    forall k: nat | k < n ensures v.slots[SlotOf(v.header, k)] == Some(Decodable(v, n)[k]) {
      NoBadDecodes(v, n, k);
    }
  }

  lemma {:induction false} SinceEndsLikeWhole(xs: seq<Sample>, oldest: I64)
    requires NonDecreasing(xs)
    ensures var ys := Since(xs, oldest);
            ys != [] ==> xs != [] && ys[|ys| - 1] == xs[|xs| - 1] && xs[|xs| - 1].time >= oldest
  {
    if xs != [] {
      var before := xs[..|xs| - 1];
      assert NonDecreasing(before) by {
        forall i | 0 <= i < |before| - 1 ensures before[i].time <= before[i + 1].time {
          assert xs[i].time <= xs[i + 1].time;
        }
      }
      SinceEndsLikeWhole(before, oldest);
      if before != [] {
        assert xs[|xs| - 2].time <= xs[|xs| - 2 + 1].time;
      }
    }
  }

  /** Whatever the window, the last sample of a non-empty answer about ordered
      samples is the newest one; a window that is not negative has an answer. */
  lemma WindowEndsWithNewest(xs: seq<Sample>, window: I64)
    requires NonDecreasing(xs)
    ensures var ys := Windowed(xs, window);
            && (ys != [] ==> xs != [] && ys[|ys| - 1] == xs[|xs| - 1])
            && (xs != [] && window >= 0 ==> ys != [])
  {
    if xs != [] {
      SinceEndsLikeWhole(xs, SaturatingSub(xs[|xs| - 1].time, window));
    }
  }

  // ---- what a window is ------------------------------------------------------------------

  /** The sample lies at most `window` before the newest one; a time at the upper end of
      its range always counts, since the comparison saturates there. */
  predicate InWindow(s: Sample, newest: I64, window: I64) {
    s.time >= newest - window || s.time == 0x7FFF_FFFF_FFFF_FFFF
  }

  /** `k` is the first of the last 512 samples that lies in the window. */
  ghost predicate IsWindowStart(xs: seq<Sample>, window: I64, k: nat)
    requires xs != []
  {
    var newest := xs[|xs| - 1].time;
    && |xs| - 512 <= k <= |xs| && (k < |xs| ==> InWindow(xs[k], newest, window))
    && forall j :: 0 <= j < k && |xs| - 512 <= j ==> !InWindow(xs[j], newest, window)
  }

  lemma ThresholdIs(s: Sample, newest: I64, window: I64)
    ensures s.time >= SaturatingSub(newest, window) <==> InWindow(s, newest, window)
  {
  }

  lemma {:induction false} SinceIsSuffix(xs: seq<Sample>, oldest: I64) returns (m: nat)
    requires NonDecreasing(xs)
    ensures m <= |xs| && Since(xs, oldest) == xs[m..]
    ensures forall j :: 0 <= j < |xs| ==> (xs[j].time >= oldest <==> m <= j)
  {
    if xs == [] {
      m := 0;
    } else {
      var before, last := xs[..|xs| - 1], xs[|xs| - 1];
      OrderedPrefix(xs);
      assert before != [] ==> before[|before| - 1].time <= last.time;
      m := SinceIsSuffix(before, oldest);
      SuffixExtended(before, last, xs, m);
      if last.time < oldest {
        m := |xs|;
      }
    }
  }

  lemma OrderedPrefix(xs: seq<Sample>)
    requires NonDecreasing(xs) && xs != []
    ensures NonDecreasing(xs[..|xs| - 1])
    ensures |xs| > 1 ==> xs[|xs| - 2].time <= xs[|xs| - 1].time
  {
    var before := xs[..|xs| - 1];
    assert |xs| > 1 ==> xs[|xs| - 2].time <= xs[|xs| - 2 + 1].time;
    forall i | 0 <= i < |before| - 1 ensures before[i].time <= before[i + 1].time {
      assert xs[i].time <= xs[i + 1].time;
    }
  }

  lemma SuffixExtended(before: seq<Sample>, last: Sample, xs: seq<Sample>, m: nat)
    requires xs != [] && xs[..|xs| - 1] == before && xs[|xs| - 1] == last && m <= |before|
    ensures before[m..] + [last] == xs[m..]
  {
  }

  /** Of ordered samples a window read answers, as they are, those from the first of the
      last 512 on that lies in the window. */
  lemma WindowIsSuffix(xs: seq<Sample>, window: I64) returns (k: nat)
    requires NonDecreasing(xs) && xs != []
    ensures IsWindowStart(xs, window, k) && Windowed(xs, window) == xs[k..]
  {
    var newest := xs[|xs| - 1].time;
    var m := SinceIsSuffix(xs, SaturatingSub(newest, window));
    forall j | 0 <= j < |xs| ensures InWindow(xs[j], newest, window) <==> m <= j {
      ThresholdIs(xs[j], newest, window);
    }
    k := if |xs| - m <= 512 then m else |xs| - 512;
    assert LastN(xs[m..], 512) == xs[k..];
  }

  /** Of any samples, in order or not, it answers the last 512 of exactly those that lie
      in the window. */
  lemma WindowSelects(xs: seq<Sample>, window: I64) returns (all: seq<Sample>, at: seq<nat>)
    requires xs != []
    ensures Selects(all, xs, s => InWindow(s, xs[|xs| - 1].time, window), at)
    ensures Windowed(xs, window) == if |all| <= 512 then all else all[|all| - 512..]
  {
    var newest := xs[|xs| - 1].time;
    var oldest := SaturatingSub(newest, window);
    var since: seq<Sample> -> seq<Sample> := some => Since(some, oldest);
    var keep: Sample -> bool := s => InWindow(s, newest, window);
    forall before, s ensures since(before + [s]) == if keep(s) then since(before) + [s] else since(before) {
      assert (before + [s])[..|before|] == before;
      ThresholdIs(s, newest, window);
    }
    all := Since(xs, oldest);
    at := GrowingSelects(since, keep, xs);
  }

  /** Refinement over all runs: after any appends, a window read answers from exactly the
      last 1023 samples, with an error if and only if their times are out of order, and
      a latest read answers the last sample. */
  lemma ViewsReadBack(v: View, xs: seq<Sample>, window: I64) returns (k: nat)
    requires Holds(v, []) && xs != []
    ensures var kept, w := xs[if |xs| > 1023 then |xs| - 1023 else 0..], AppendedAll(v, xs);
            && (NonDecreasing(kept) ==> IsWindowStart(kept, window, k) && ReadView(w, window) == Read(kept[k..], None))
            && (!NonDecreasing(kept) ==> ReadView(w, window).error.Some?)
            && LatestView(w) == Read([xs[|xs| - 1]], None)
  {
    AppendedAllHolds(v, xs);
    LastOnes(xs);
    k := HeldReadsBack(AppendedAll(v, xs), LastN(xs, CAPACITY), window);
  }

  lemma LastOnes(xs: seq<Sample>)
    requires xs != []
    ensures LastN(xs, CAPACITY) == xs[if |xs| > 1023 then |xs| - 1023 else 0..]
    ensures var kept := LastN(xs, CAPACITY); kept != [] && kept[|kept| - 1] == xs[|xs| - 1]
  {
  }

  lemma HeldReadsBack(w: View, kept: seq<Sample>, window: I64) returns (k: nat)
    requires Holds(w, kept) && kept != []
    ensures NonDecreasing(kept) ==> IsWindowStart(kept, window, k) && ReadView(w, window) == Read(kept[k..], None)
    ensures !NonDecreasing(kept) ==> ReadView(w, window).error.Some?
    ensures LatestView(w) == Read([kept[|kept| - 1]], None)
  {
    k := 0;
    ReadOfHeld(w, kept, window);
    LatestOfHeld(w, kept);
    LastOne(kept);
    OrderErrorIff(|kept| == CAPACITY, kept);
    if NonDecreasing(kept) {
      k := WindowIsSuffix(kept, window);
    }
  }

  // ---- damaged records -----------------------------------------------------------------------

  /** The ring with its `k`th oldest record unreadable. */
  ghost function Damaged(v: View, k: nat): View {
    v.(slots := v.slots[SlotOf(v.header, k) := None])
  }

  /** The ring holds `xs` except for the `k`th, which is unreadable. */
  ghost predicate HoldsWithout(v: View, xs: seq<Sample>, k: nat) {
    |xs| == v.header.count && forall j :: 0 <= j < |xs| ==> v.slots[SlotOf(v.header, j)] == if j == k then None else Some(xs[j])
  }

  lemma DamagedHolds(v: View, xs: seq<Sample>, k: nat)
    requires Holds(v, xs) && k < |xs|
    ensures HoldsWithout(Damaged(v, k), xs, k)
  {
    var d := Damaged(v, k);
    forall j: nat | j < |xs| ensures d.slots[SlotOf(d.header, j)] == if j == k then None else Some(xs[j]) {
      SlotsDiffer(v.header, k, j);
      assert v.slots[SlotOf(v.header, j)] == Some(xs[j]);
    }
  }

  /** The first `n` samples without the `k`th. */
  function WithoutOne(xs: seq<Sample>, k: nat, n: nat): seq<Sample>
    requires n <= |xs|
  {
    if n == 0 then [] else WithoutOne(xs, k, n - 1) + if n - 1 == k then [] else [xs[n - 1]]
  }

  lemma {:induction false} DecodesWithout(v: View, xs: seq<Sample>, k: nat, n: nat)
    requires HoldsWithout(v, xs, k) && n <= |xs|
    ensures Decodable(v, n) == WithoutOne(xs, k, n)
  {
    if n > 0 {
      DecodesWithout(v, xs, k, n - 1);
    }
  }

  lemma {:induction false} WithoutOneIs(xs: seq<Sample>, k: nat, n: nat)
    requires k < |xs| && n <= |xs|
    ensures WithoutOne(xs, k, n) == if n <= k then xs[..n] else xs[..k] + xs[k + 1..n]
  {
    if n > 0 {
      WithoutOneIs(xs, k, n - 1);
      SliceExtended(xs, 0, n - 1);
      if n - 1 > k {
        SliceExtended(xs, k + 1, n - 1);
      }
    }
  }

  lemma SliceExtended(xs: seq<Sample>, from: nat, n: nat)
    requires from <= n < |xs|
    ensures xs[from..n + 1] == xs[from..n] + [xs[n]]
  {
  }

  lemma {:induction false} OneBad(v: View, xs: seq<Sample>, k: nat, n: nat)
    requires HoldsWithout(v, xs, k) && k < |xs| && n <= |xs|
    ensures LastBad(v, n) == if n <= k then None else Some(BadRecord(SlotOf(v.header, k)))
  {
    if n > 0 {
      OneBad(v, xs, k, n - 1);
    }
  }

  lemma SlotsDiffer(h: Header, j: nat, k: nat)
    requires ValidHeader(h) && j < CAPACITY && k < CAPACITY
    ensures SlotOf(h, j) == SlotOf(h, k) <==> j == k
  {
    var a, b := Start(h) + j, Start(h) + k;
    assert a % CAPACITY == if a < CAPACITY then a else a - CAPACITY;
    assert b % CAPACITY == if b < CAPACITY then b else b - CAPACITY;
  }

  /** A read of an ordered ring with one unreadable record names that record and answers
      from all the others. */
  lemma DamageIsReported(v: View, xs: seq<Sample>, k: nat, window: I64)
    requires Holds(v, xs) && NonDecreasing(xs) && k < |xs|
    ensures ReadView(Damaged(v, k), window) ==
            Read(Windowed(xs[..k] + xs[k + 1..], window), Some(BadRecord(SlotOf(v.header, k))))
  {
    DamagedHolds(v, xs, k);
    DecodesWithout(Damaged(v, k), xs, k, |xs|);
    WithoutOneIs(xs, k, |xs|);
    OneBad(Damaged(v, k), xs, k, |xs|);
    assert xs[k + 1..|xs|] == xs[k + 1..];
    OrderedWithout(xs, k);
    OrderErrorIff(|xs| == CAPACITY, xs[..k] + xs[k + 1..]);
  }

  lemma OrderedWithout(xs: seq<Sample>, k: nat)
    requires NonDecreasing(xs) && k < |xs|
    ensures NonDecreasing(xs[..k] + xs[k + 1..])
  {
    var ys := xs[..k] + xs[k + 1..];
    forall i | 0 <= i < |ys| - 1 ensures ys[i].time <= ys[i + 1].time {
      if i + 1 < k {
        assert xs[i].time <= xs[i + 1].time;
      } else if i + 1 == k {
        assert xs[i].time <= xs[i + 1].time && xs[i + 1].time <= xs[i + 1 + 1].time;
      } else {
        assert xs[i + 1].time <= xs[i + 1 + 1].time;
      }
    }
  }

  // ---- torn appends ----------------------------------------------------------------------

  /** A torn append to a ring that is not full is invisible; on a full ring it takes
      the place of the oldest record. */
  lemma TornHolds(v: View, xs: seq<Sample>, s: Sample)
    requires Holds(v, xs)
    ensures Holds(TornView(v, s), if |xs| < CAPACITY then xs else [s] + xs[1..])
  {
    var torn, ys := TornView(v, s), if |xs| < CAPACITY then xs else [s] + xs[1..];
    forall k | 0 <= k < |ys| ensures torn.slots[SlotOf(torn.header, k)] == Some(ys[k]) {
      NextSlotIsOldest(v.header, k);
      assert v.slots[SlotOf(v.header, k)] == Some(xs[k]);
    }
  }

  /** Of the slots in use, only that of the oldest record of a full ring is next. */
  lemma NextSlotIsOldest(h: Header, k: nat)
    requires ValidHeader(h) && Coherent(h) && k < h.count
    ensures SlotOf(h, k) == h.next <==> h.count == CAPACITY && k == 0
  {
  }

  /** Reading after a torn append, whatever the times. A ring that is not full reads as
      before. A full ring notices the tear if and only if the torn sample is newer than
      the second oldest record; it then answers what it held minus its oldest record,
      and otherwise it reads as if the torn sample were its oldest record. */
  lemma TornReads(v: View, xs: seq<Sample>, s: Sample, window: I64)
    requires Holds(v, xs)
    ensures |xs| < CAPACITY ==> ReadView(TornView(v, s), window) == ReadView(v, window)
    ensures |xs| == CAPACITY ==>
              ReadView(TornView(v, s), window) ==
              if s.time > xs[1].time then Read(Windowed(xs[1..], window), Some(TornNewest))
              else Read(Windowed([s] + xs[1..], window), if NonDecreasing(xs[1..]) then None else Some(OutOfOrder))
  {
    TornHolds(v, xs, s);
    if |xs| < CAPACITY {
      ReadOfHeld(v, xs, window);
      ReadOfHeld(TornView(v, s), xs, window);
    } else {
      TornOrder(xs, s, [s] + xs[1..]);
      ReadOfHeld(TornView(v, s), [s] + xs[1..], window);
    }
  }

  lemma TornOrder(xs: seq<Sample>, s: Sample, ys: seq<Sample>)
    requires |xs| == CAPACITY && ys == [s] + xs[1..]
    ensures ys[1..] == xs[1..]
    ensures OrderError(true, ys) ==
            if s.time > xs[1].time then Some(TornNewest)
            else if NonDecreasing(xs[1..]) then None
            else Some(OutOfOrder)
  {
    TailOrder(ys);
  }

  lemma TailOrder(ys: seq<Sample>)
    requires |ys| >= 2
    ensures NonDecreasing(ys) <==> ys[0].time <= ys[1].time && NonDecreasing(ys[1..])
  {
    if NonDecreasing(ys) {
      assert ys[0].time <= ys[0 + 1].time;
      forall i | 0 <= i < |ys[1..]| - 1 ensures ys[1..][i].time <= ys[1..][i + 1].time {
        assert ys[i + 1].time <= ys[i + 1 + 1].time;
      }
    } else {
      var i :| 0 <= i < |ys| - 1 && ys[i].time > ys[i + 1].time;
      if i > 0 {
        assert ys[1..][i - 1].time > ys[1..][i - 1 + 1].time;
      }
    }
  }

  /** Strictly increasing times always let the tear be noticed. */
  lemma StrictTimesDetectTears(v: View, xs: seq<Sample>, s: Sample, window: I64)
    requires Holds(v, xs) && |xs| == CAPACITY && s.time >= xs[CAPACITY - 1].time
    requires forall k :: 0 <= k < |xs| - 1 ==> xs[k].time < xs[k + 1].time
    ensures ReadView(TornView(v, s), window) == Read(Windowed(xs[1..], window), Some(TornNewest))
  {
    LastIsNewest(xs, 2);
    TornReads(v, xs, s, window);
  }

  lemma {:induction false} LastIsNewest(xs: seq<Sample>, i: nat)
    requires NonDecreasing(xs) && i < |xs|
    ensures xs[i].time <= xs[|xs| - 1].time
    decreases |xs| - i
  {
    if i < |xs| - 1 {
      assert xs[i].time <= xs[i + 1].time;
      LastIsNewest(xs, i + 1);
    }
  }

  /** The latest committed sample is still read after a torn append. */
  lemma TornLatest(v: View, xs: seq<Sample>, s: Sample)
    requires Holds(v, xs)
    ensures LatestView(TornView(v, s)) == Read(LastN(xs, 1), None)
  {
    TornHolds(v, xs, s);
    if |xs| < CAPACITY {
      LatestOfHeld(TornView(v, s), xs);
    } else {
      OverwrittenLatest(TornView(v, s), xs, s);
    }
  }

  /** Overwriting the oldest of several samples does not change the newest. */
  lemma OverwrittenLatest(v: View, xs: seq<Sample>, s: Sample)
    requires |xs| >= 2 && Holds(v, [s] + xs[1..])
    ensures LatestView(v) == Read(LastN(xs, 1), None)
  {
    var ys := [s] + xs[1..];
    LatestOfHeld(v, ys);
    LastOne(ys);
    LastOne(xs);
  }
}
