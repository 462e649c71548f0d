/** Which ring files the cache is transparent for. Cache transparency is proved for
    files with a coherent header; here it is shown that no other header will do. */
module RingCoherence {
  import opened Orders
  import opened RingCodec
  import opened RingView
  import opened Ring
  import opened RingStore

  // ---- files with given contents --------------------------------------------------------

  /** A file with this header and the first `n` of these records. */
  lemma {:induction false} LaidOut(v: View, n: nat) returns (file: File)
    requires n <= CAPACITY && forall i :: 0 <= i < n ==> v.slots[i].Some?
    ensures ReadHeader(file) == Some(v.header)
    ensures forall i :: 0 <= i < n ==> RecordAt(file, i) == v.slots[i]
  {
    if n == 0 {
      file := EncodeHeader(v.header) + Zeros(RING_BYTES - HEADER_BYTES);
      assert file[..HEADER_BYTES] == EncodeHeader(v.header);
      HeaderRoundTrip(file, v.header);
    } else {
      var before := LaidOut(v, n - 1);
      file := WithRecord(before, n - 1, v.slots[n - 1].value);
    }
  }

  lemma WithRecord(before: File, slot: nat, s: Sample) returns (file: File)
    requires ReadHeader(before).Some? && slot < CAPACITY
    ensures ReadHeader(file) == ReadHeader(before)
    ensures forall i :: 0 <= i < CAPACITY ==> RecordAt(file, i) == if i == slot then Some(s) else RecordAt(before, i)
  {
    file := WriteAt(before, SlotOffset(slot), EncodeRecord(s));
    WriteElsewhere(before, SlotOffset(slot), EncodeRecord(s), 0, HEADER_BYTES);
    assert file[..HEADER_BYTES] == before[..HEADER_BYTES];
    forall i | 0 <= i < CAPACITY ensures RecordAt(file, i) == if i == slot then Some(s) else RecordAt(before, i) {
      WrittenRecord(before, slot, s, i);
    }
  }

  /** Every ring whose slots all hold records is that of some file. */
  lemma FileOfView(v: View) returns (file: File)
    requires forall i :: 0 <= i < CAPACITY ==> v.slots[i].Some?
    ensures Viewed(file) == Some(v)
  {
    file := LaidOut(v, CAPACITY);
    ViewedIs(file, v);
  }

  // ---- an exposing read -------------------------------------------------------------------

  /** The slot a latest read looks at. */
  function NewestSlot(h: Header): nat {
    (h.next + CAPACITY - 1) % CAPACITY
  }

  /** A ring that has not wrapped, with all records of one time, whose last record in
      slot order is not the one in front of the next slot. */
  ghost predicate Exposing(v: View) {
    && 0 < v.header.count < CAPACITY
    && (forall i :: 0 <= i < CAPACITY ==> v.slots[i].Some?)
    && (forall i :: 0 <= i < CAPACITY ==> v.slots[i].value.time == v.slots[0].value.time)
    && v.slots[v.header.count - 1] != v.slots[NewestSlot(v.header)]
  }

  lemma {:induction false} AllDecode(v: View, n: nat)
    requires forall i :: 0 <= i < CAPACITY ==> v.slots[i].Some?
    ensures LastBad(v, n) == None
  {
    if n > 0 {
      AllDecode(v, n - 1);
    }
  }

  /** A window read of such a ring reports no error and ends with its last record. */
  lemma WindowEndsElsewhere(v: View)
    requires Exposing(v)
    ensures var read := ReadView(v, 0);
            read.error.None? && read.samples != [] && Some(read.samples[|read.samples| - 1]) == v.slots[v.header.count - 1]
  {
    var n := v.header.count;
    var xs := Decodable(v, n);
    AllDecode(v, n);
    NoBadDecodes(v, n, n - 1);
    forall k: nat | k < n ensures Some(xs[k]) == v.slots[k] {
      NoBadDecodes(v, n, k);
    }
    assert NonDecreasing(xs) by {
      forall i | 0 <= i < |xs| - 1 ensures xs[i].time <= xs[i + 1].time {
        assert Some(xs[i]) == v.slots[i] && Some(xs[i + 1]) == v.slots[i + 1];
      }
    }
    OrderErrorIff(false, xs);
    WindowEndsWithNewest(xs, 0);
  }

  lemma ViewReadsDiffer(v: View) returns (a: Sample, b: Sample)
    requires Exposing(v)
    ensures EndsWith(ReadView(v, 0), a) && LatestView(v) == Read([b], None) && a != b
  {
    WindowEndsElsewhere(v);
    a, b := v.slots[v.header.count - 1].value, v.slots[NewestSlot(v.header)].value;
  }

  lemma FileReads(file: File, v: View)
    requires Viewed(file) == Some(v)
    ensures ReadView(v, 0).error.None? ==> ReadRing(file, 0) == (ReadView(v, 0), file)
    ensures LatestView(v).error.None? ==> ReadLatestRing(file) == (LatestView(v), file)
  {
  }

  predicate EndsWith(read: Read, s: Sample) {
    read.error.None? && read.samples != [] && read.samples[|read.samples| - 1] == s
  }

  /** A window read and then a latest read: the cache answers the last record of the
      window, the file the one in front of the next slot. */
  lemma ReadsDiffer(st: Store, id: Id, v: View)
    requires id in st.files && Viewed(st.files[id]) == Some(v) && Exposing(v)
    ensures Cached(Cached(st, ReadWindow(id, 0)).0, ReadLatest(id)).1 !=
            Uncached(Uncached(st.files, ReadWindow(id, 0)).0, ReadLatest(id)).1
  {
    var a, b := ViewReadsDiffer(v);
    FileReads(st.files[id], v);
    StoreReadsDiffer(st, id, st.files[id], ReadView(v, 0), a, b);
  }

  lemma StoreReadsDiffer(st: Store, id: Id, file: File, read: Read, a: Sample, b: Sample)
    requires id in st.files && st.files[id] == file
    requires ReadRing(file, 0) == (read, file) && EndsWith(read, a)
    requires ReadLatestRing(file) == (Read([b], None), file) && a != b
    ensures Cached(Cached(st, ReadWindow(id, 0)).0, ReadLatest(id)).1 !=
            Uncached(Uncached(st.files, ReadWindow(id, 0)).0, ReadLatest(id)).1
  {
    assert st.files[id := file] == st.files;
    assert Cached(st, ReadWindow(id, 0)).0 == Store(st.files, st.latest[id := a]);
    assert Uncached(st.files, ReadWindow(id, 0)).0 == st.files;
  }

  // ---- all headers ----------------------------------------------------------------------------

  /** The replies to `ops`, starting from one file and an empty cache, are those without
      a cache. */
  ghost predicate SameReplies(id: Id, file: File, ops: seq<Op>) {
    CachedRun(Store(map[id := file], map[]), ops).1 == UncachedRun(map[id := file], ops).1
  }

  lemma RunStep(st: Store, ops: seq<Op>, op: Op)
    ensures var (before, replies) := CachedRun(st, ops);
            CachedRun(st, ops + [op]) == (Cached(before, op).0, replies + [Cached(before, op).1])
    ensures var (before, replies) := UncachedRun(st.files, ops);
            UncachedRun(st.files, ops + [op]) == (Uncached(before, op).0, replies + [Uncached(before, op).1])
  {
    assert (ops + [op])[..|ops|] == ops;
  }

  /** If the files agree after `before` and the two reads then differ, so do the runs. */
  lemma RunsDiffer(id: Id, file: File, before: seq<Op>, v: View)
    requires var st := CachedRun(Store(map[id := file], map[]), before).0;
             && st.files == UncachedRun(map[id := file], before).0
             && id in st.files && Viewed(st.files[id]) == Some(v) && Exposing(v)
    ensures !SameReplies(id, file, before + [ReadWindow(id, 0)] + [ReadLatest(id)])
  {
    var start := Store(map[id := file], map[]);
    ReadsDiffer(CachedRun(start, before).0, id, v);
    LastRepliesDiffer(start, before, ReadWindow(id, 0), ReadLatest(id));
  }

  /** Runs whose last replies differ have different replies. */
  lemma LastRepliesDiffer(start: Store, before: seq<Op>, first: Op, last: Op)
    requires Cached(Cached(CachedRun(start, before).0, first).0, last).1 !=
             Uncached(Uncached(UncachedRun(start.files, before).0, first).0, last).1
    ensures CachedRun(start, before + [first] + [last]).1 != UncachedRun(start.files, before + [first] + [last]).1
  {
    RunStep(start, before, first);
    RunStep(start, before + [first], last);
    Differ(CachedRun(start, before + [first]).1, UncachedRun(start.files, before + [first]).1,
           Cached(CachedRun(start, before + [first]).0, last).1, Uncached(UncachedRun(start.files, before + [first]).0, last).1);
  }

  lemma Differ<T>(a: seq<T>, b: seq<T>, x: T, y: T)
    requires x != y
    ensures a + [x] != b + [y]
  {
    var s, t := a + [x], b + [y];
    assert s[|s| - 1] == x && t[|t| - 1] == y;
  }

  const NO_METRICS := Metrics(None, None, None, None, None)
  const PLAIN := Sample(0, NO_METRICS)
  const OTHER := Sample(0, NO_METRICS.(cpuUsageUsec := Some(0)))

  /** A full set of records: `OTHER` at `slot`, `PLAIN` everywhere else. */
  lemma Records(h: Header, slot: nat) returns (v: View)
    requires ValidHeader(h)
    ensures v.header == h
    ensures forall i :: 0 <= i < CAPACITY ==> v.slots[i] == Some(if i == slot then OTHER else PLAIN)
  {
    v := View(h, seq(CAPACITY, i => Some(if i == slot then OTHER else PLAIN)));
  }

  lemma ExposingRecords(h: Header) returns (v: View)
    requires ValidHeader(h) && !Coherent(h) && h.count > 0
    ensures v.header == h && Exposing(v)
  {
    v := Records(h, h.count - 1);
    assert NewestSlot(h) != h.count - 1;
  }

  lemma NonEmptyIsExposed(h: Header, id: Id) returns (file: File, ops: seq<Op>)
    requires ValidHeader(h) && !Coherent(h) && h.count > 0
    ensures ReadHeader(file) == Some(h) && !SameReplies(id, file, ops)
  {
    var v := ExposingRecords(h);
    file := FileOfView(v);
    ops := [] + [ReadWindow(id, 0)] + [ReadLatest(id)];
    FirstReadsDiffer(id, file, v);
  }

  lemma FirstReadsDiffer(id: Id, file: File, v: View)
    requires Viewed(file) == Some(v) && Exposing(v)
    ensures !SameReplies(id, file, [] + [ReadWindow(id, 0)] + [ReadLatest(id)])
  {
    RunsDiffer(id, file, [], v);
  }

  /** An append to an empty ring whose next slot is not the first. */
  lemma ExposingAppend(h: Header) returns (file: File, v: View)
    requires ValidHeader(h) && !Coherent(h) && h.count == 0
    ensures ReadHeader(file) == Some(h) && Viewed(Appended(Some(file), OTHER)) == Some(v) && Exposing(v)
  {
    var before := UnexposedRecords(h);
    file := FileOfView(before);
    v := AppendedView(before, OTHER);
    AppendedIsAppendedView(Some(file), OTHER);
  }

  lemma UnexposedRecords(h: Header) returns (v: View)
    requires ValidHeader(h) && !Coherent(h) && h.count == 0
    ensures v.header == h && (forall i :: 0 <= i < CAPACITY ==> v.slots[i].Some?) && Exposing(AppendedView(v, OTHER))
  {
    v := Records(h, CAPACITY);
    EmptyAppended(v, OTHER);
  }

  lemma EmptyIsExposed(h: Header, id: Id) returns (file: File, ops: seq<Op>)
    requires ValidHeader(h) && !Coherent(h) && h.count == 0
    ensures ReadHeader(file) == Some(h) && !SameReplies(id, file, ops)
  {
    var v;
    file, v := ExposingAppend(h);
    ops := [Append(id, OTHER)] + [ReadWindow(id, 0)] + [ReadLatest(id)];
    LaterReadsDiffer(id, file, OTHER, v);
  }

  lemma LaterReadsDiffer(id: Id, file: File, s: Sample, v: View)
    requires Viewed(Appended(Some(file), s)) == Some(v) && Exposing(v)
    ensures !SameReplies(id, file, [Append(id, s)] + [ReadWindow(id, 0)] + [ReadLatest(id)])
  {
    OneAppend(id, file, s);
    RunsDiffer(id, file, [Append(id, s)], v);
  }

  lemma OneAppend(id: Id, file: File, s: Sample)
    ensures var after := map[id := Appended(Some(file), s)];
            && CachedRun(Store(map[id := file], map[]), [Append(id, s)]).0 == Store(after, map[id := s])
            && UncachedRun(map[id := file], [Append(id, s)]).0 == after
  {
    RunStep(Store(map[id := file], map[]), [], Append(id, s));
    assert [] + [Append(id, s)] == [Append(id, s)];
  }

  /** Every header that is not coherent is that of a file for which the cache shows. */
  lemma IncoherentIsExposed(h: Header, id: Id) returns (file: File, ops: seq<Op>)
    requires ValidHeader(h) && !Coherent(h)
    ensures ReadHeader(file) == Some(h) && !SameReplies(id, file, ops)
  {
    if h.count > 0 {
      file, ops := NonEmptyIsExposed(h, id);
    } else {
      file, ops := EmptyIsExposed(h, id);
    }
  }

  lemma EmptyAppended(v: View, y: Sample)
    requires v.header.count == 0 && v.header.next != 0
    requires forall i :: 0 <= i < CAPACITY ==> v.slots[i].Some? && v.slots[i] == v.slots[0] != Some(y)
    requires v.slots[0].value.time == y.time
    ensures Exposing(AppendedView(v, y))
  {
    var w := AppendedView(v, y);
    assert w.header.count == 1 && NewestSlot(w.header) == v.header.next;
    assert w.slots[v.header.next] == Some(y) && w.slots[0] == v.slots[0];
    forall i | 0 <= i < CAPACITY ensures w.slots[i].Some? && w.slots[i].value.time == y.time {
      assert w.slots[i] == if i == v.header.next then Some(y) else v.slots[i];
    }
  }

  /** The exact condition: every file with the header `h` gets, in every run, the replies
      it would get without a cache if and only if `h` is coherent. */
  lemma TransparentExactlyWhenCoherent(h: Header, id: Id)
    requires ValidHeader(h)
    ensures Coherent(h) <==>
            forall file: File, ops: seq<Op> :: ReadHeader(file) == Some(h) ==> SameReplies(id, file, ops)
  {
    if Coherent(h) {
      forall file: File, ops: seq<Op> | ReadHeader(file) == Some(h) ensures SameReplies(id, file, ops) {
        RunsAreCacheTransparent(map[id := file], ops);
      }
    } else {
      var file, ops := IncoherentIsExposed(h, id);
      assert !SameReplies(id, file, ops);
    }
  }
}
