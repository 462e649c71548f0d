/** The ring file, byte by byte: every operation on the bytes does to the file's
    header and slots what the ring logic says. */
module Ring {
  import opened Orders
  import opened RingCodec
  import opened RingView

  type File = seq<byte>

  function SlotOffset(i: nat): nat {
    HEADER_BYTES + i * RECORD_BYTES
  }

  function RecordAt(file: File, i: nat): Option<Sample>
    requires |file| == RING_BYTES && i < CAPACITY
  {
    DecodeRecord(file[SlotOffset(i)..SlotOffset(i) + RECORD_BYTES])
  }

  /** The header and slots of a file with an intact header. */
  function Viewed(file: File): Option<View> {
    var h := ReadHeader(file);
    if h.None? then None
    else Some(View(h.value, seq(CAPACITY, i requires 0 <= i < CAPACITY => RecordAt(file, i))))
  }

  function EmptyRing(): (file: File)
    ensures |file| == RING_BYTES
  {
    EncodeHeader(Header(0, 0, 0)) + Zeros(RING_BYTES - HEADER_BYTES)
  }

  lemma EmptyRingIsEmpty()
    ensures ReadHeader(EmptyRing()) == Some(Header(0, 0, 0))
    ensures Viewed(EmptyRing()).Some? && Holds(Viewed(EmptyRing()).value, [])
  {
    assert EmptyRing()[..HEADER_BYTES] == EncodeHeader(Header(0, 0, 0));
    HeaderRoundTrip(EmptyRing(), Header(0, 0, 0));
  }

  /** `open_or_recreate`: a missing, short or damaged file is started afresh. */
  function Opened(file: Option<File>): (r: File)
    ensures ReadHeader(r).Some?
  {
    if file.Some? && ReadHeader(file.value).Some? then file.value
    else
      EmptyRingIsEmpty();
      EmptyRing()
  }

  /** The file once the record is written and the header is not. */
  function Torn(file: Option<File>, s: Sample): (r: File)
    ensures |r| == RING_BYTES
  {
    var ring := Opened(file);
    WriteAt(ring, SlotOffset(ReadHeader(ring).value.next), EncodeRecord(s))
  }

  /** The file after a completed append. */
  function Appended(file: Option<File>, s: Sample): (r: File)
    ensures |r| == RING_BYTES
  {
    WriteAt(Torn(file, s), 0, EncodeHeader(Advanced(ReadHeader(Opened(file)).value)))
  }

  method AppendLocked(file: Option<File>, s: Sample) returns (r: File)
    ensures r == Appended(file, s)
  {
    var ring := Opened(file);
    var header := ReadHeader(ring).value;
    var record := BuildRecord(s);
    r := WriteAt(ring, SlotOffset(header.next), record);
    header := Advanced(header);
    r := WriteAt(r, 0, EncodeHeader(header));
  }

  lemma TornKeepsHeader(file: Option<File>, s: Sample)
    ensures ReadHeader(Torn(file, s)) == ReadHeader(Opened(file))
  {
    var ring := Opened(file);
    var next := ReadHeader(ring).value.next;
    WriteElsewhere(ring, SlotOffset(next), EncodeRecord(s), 0, HEADER_BYTES);
    assert Torn(file, s)[..HEADER_BYTES] == ring[..HEADER_BYTES];
  }

  lemma WrittenRecord(ring: File, next: nat, s: Sample, i: nat)
    requires |ring| == RING_BYTES && next < CAPACITY && i < CAPACITY
    ensures RecordAt(WriteAt(ring, SlotOffset(next), EncodeRecord(s)), i) ==
            if i == next then Some(s) else RecordAt(ring, i)
  {
    if i == next {
      RecordRoundTrip(s);
    } else {
      WriteElsewhere(ring, SlotOffset(next), EncodeRecord(s), SlotOffset(i), SlotOffset(i) + RECORD_BYTES);
    }
  }

  lemma HeaderWriteKeepsRecords(ring: File, h: Header, i: nat)
    requires |ring| == RING_BYTES && i < CAPACITY
    ensures RecordAt(WriteAt(ring, 0, EncodeHeader(h)), i) == RecordAt(ring, i)
  {
    WriteElsewhere(ring, 0, EncodeHeader(h), SlotOffset(i), SlotOffset(i) + RECORD_BYTES);
  }

  lemma ViewedIs(file: File, v: View)
    requires ReadHeader(file) == Some(v.header)
    requires forall i :: 0 <= i < CAPACITY ==> RecordAt(file, i) == v.slots[i]
    ensures Viewed(file) == Some(v)
  {
    assert Viewed(file).value.slots == v.slots;
  }

  /** The record write changes the next slot, and nothing else. */
  lemma TornIsTornView(file: Option<File>, s: Sample)
    ensures Viewed(Torn(file, s)) == Some(TornView(Viewed(Opened(file)).value, s))
  {
    TornKeepsHeader(file, s);
    WrittenIsTornView(Opened(file), Viewed(Opened(file)).value, Torn(file, s), s);
  }

  lemma WrittenIsTornView(ring: File, v: View, torn: File, s: Sample)
    requires Viewed(ring) == Some(v) && ReadHeader(torn) == ReadHeader(ring)
    requires torn == WriteAt(ring, SlotOffset(v.header.next), EncodeRecord(s))
    ensures Viewed(torn) == Some(TornView(v, s))
  {
    forall i | 0 <= i < CAPACITY ensures RecordAt(torn, i) == TornView(v, s).slots[i] {
      WrittenRecord(ring, v.header.next, s, i);
    }
    ViewedIs(torn, TornView(v, s));
  }

  lemma HeaderWritten(torn: File, v: View, h: Header, ring: File)
    requires Viewed(torn) == Some(v) && ValidHeader(h) && ring == WriteAt(torn, 0, EncodeHeader(h))
    ensures Viewed(ring) == Some(View(h, v.slots))
  {
    assert ring[..HEADER_BYTES] == EncodeHeader(h);
    HeaderRoundTrip(ring, h);
    forall i | 0 <= i < CAPACITY ensures RecordAt(ring, i) == v.slots[i] {
      HeaderWriteKeepsRecords(torn, h, i);
    }
    ViewedIs(ring, View(h, v.slots));
  }

  /** Both writes together are an append to the ring. */
  lemma AppendedIsAppendedView(file: Option<File>, s: Sample)
    ensures Viewed(Appended(file, s)) == Some(AppendedView(Viewed(Opened(file)).value, s))
  {
    var v := Viewed(Opened(file)).value;
    TornIsTornView(file, s);
    HeaderWritten(Torn(file, s), TornView(v, s), Advanced(v.header), Appended(file, s));
  }

  /** What a window read answers and the file it leaves: a damaged ring is reset. */
  ghost function ReadRing(file: File, window: I64): (Read, File) {
    var v := Viewed(file);
    if v.None? then (Read([], Some(BadHeader)), EmptyRing())
    else
      var read := ReadView(v.value, window);
      (read, if read.error.Some? then EmptyRing() else file)
  }

  method ReadLocked(file: File, window: I64) returns (read: Read, left: File)
    ensures (read, left) == ReadRing(file, window)
  {
    var v := Viewed(file);
    if v.None? {
      return Read([], Some(BadHeader)), EmptyRing();
    }
    read := ReadRecords(v.value, window);
    left := if read.error.Some? then EmptyRing() else file;
  }

  /** What a latest read answers and the file it leaves. */
  function ReadLatestRing(file: File): (Read, File) {
    var v := Viewed(file);
    if v.None? then (Read([], Some(BadHeader)), EmptyRing())
    else
      var read := LatestView(v.value);
      (read, if read.error.Some? then EmptyRing() else file)
  }

  // ---- runs ----------------------------------------------------------------------------

  /** The file after appending `xs` in order to a sandbox that has none. */
  function AppendAll(xs: seq<Sample>): Option<File> {
    if xs == [] then None else Some(Appended(AppendAll(xs[..|xs| - 1]), xs[|xs| - 1]))
  }

  ghost predicate FileHolds(file: File, xs: seq<Sample>) {
    Viewed(file).Some? && Holds(Viewed(file).value, xs)
  }

  lemma {:induction false} AppendAllIsAppendedAll(xs: seq<Sample>)
    ensures Viewed(Opened(AppendAll(xs))) == Some(AppendedAll(Viewed(Opened(None)).value, xs))
  {
    if xs != [] {
      var before, s := xs[..|xs| - 1], xs[|xs| - 1];
      AppendAllIsAppendedAll(before);
      AppendedIsAppendedView(AppendAll(before), s);
    }
  }

  /** Ring refinement over all runs: after any appends to a fresh ring, a window read
      answers, of exactly the last 1023 samples, those from the first of the last 512 on
      that lies in the window. It reports an error, and
      resets the ring, if and only if their times are out of order. A latest read
      answers the last sample appended. */
  lemma RunsReadBack(xs: seq<Sample>, window: I64) returns (k: nat)
    requires xs != []
    ensures var kept, file := xs[if |xs| > 1023 then |xs| - 1023 else 0..], AppendAll(xs).value;
            && (NonDecreasing(kept) ==>
                  IsWindowStart(kept, window, k) && ReadRing(file, window) == (Read(kept[k..], None), file))
            && (!NonDecreasing(kept) ==> ReadRing(file, window).0.error.Some? && ReadRing(file, window).1 == EmptyRing())
            && ReadLatestRing(file) == (Read([xs[|xs| - 1]], None), file)
  {
    var file := AppendAll(xs).value;
    AppendAllIsAppendedAll(xs);
    AppendedIsAppendedView(AppendAll(xs[..|xs| - 1]), xs[|xs| - 1]);
    EmptyRingIsEmpty();
    k := ViewsReadBack(Viewed(Opened(None)).value, xs, window);
  }

  /** A torn append followed by a completed one leaves the file of the completed one
      alone, for any file to begin with, and for a missing one. */
  lemma TornThenAppended(file: Option<File>, torn: Sample, s: Sample)
    ensures Appended(Some(Torn(file, torn)), s) == Appended(file, s)
  {
    var ring := Opened(file);
    TornKeepsHeader(file, torn);
    WriteOver(ring, SlotOffset(ReadHeader(ring).value.next), EncodeRecord(torn), EncodeRecord(s));
  }

  /** Of two torn appends in a row only the second is left. */
  lemma TornThenTorn(file: Option<File>, first: Sample, second: Sample)
    ensures Torn(Some(Torn(file, first)), second) == Torn(file, second)
  {
    var ring := Opened(file);
    TornKeepsHeader(file, first);
    WriteOver(ring, SlotOffset(ReadHeader(ring).value.next), EncodeRecord(first), EncodeRecord(second));
  }

  /** An append that completes, or one that stops between its two writes. */
  datatype Event = Completed(sample: Sample) | Stopped(sample: Sample)

  function Folded<F>(step: (F, Event) -> F, start: F, events: seq<Event>): F {
    if events == [] then start else step(Folded(step, start, events[..|events| - 1]), events[|events| - 1])
  }

  function OnlyCompleted(events: seq<Event>): seq<Event> {
    if events == [] then []
    else
      var last := events[|events| - 1];
      OnlyCompleted(events[..|events| - 1]) + if last.Completed? then [last] else []
  }

  predicate EndsTorn(events: seq<Event>) {
    events != [] && events[|events| - 1].Stopped?
  }

  /** Where any event wipes out a stopped one before it, only a stopped one at the very
      end is left. */
  lemma {:induction false} FoldedOverStopped<F(!new)>(step: (F, Event) -> F, start: F, events: seq<Event>)
    requires forall x, s, e :: step(step(x, Stopped(s)), e) == step(x, e)
    ensures var clean := Folded(step, start, OnlyCompleted(events));
            Folded(step, start, events) == if EndsTorn(events) then step(clean, events[|events| - 1]) else clean
  {
    if events != [] {
      var before, last := events[..|events| - 1], events[|events| - 1];
      FoldedOverStopped(step, start, before);
      assert OnlyCompleted(before) + [] == OnlyCompleted(before);
      assert (OnlyCompleted(before) + [last])[..|OnlyCompleted(before)|] == OnlyCompleted(before);
      if EndsTorn(before) {
        assert before[|before| - 1] == Stopped(before[|before| - 1].sample);
      }
    }
  }

  function Stepped(file: Option<File>, e: Event): Option<File> {
    Some(if e.Completed? then Appended(file, e.sample) else Torn(file, e.sample))
  }

  /** The file after `events`. */
  function Evolved(file: Option<File>, events: seq<Event>): Option<File> {
    Folded(Stepped, file, events)
  }

  /** An append, completed or not, wipes out a torn one before it. */
  lemma StepOverTorn(file: Option<File>, torn: Sample, e: Event)
    ensures Stepped(Stepped(file, Stopped(torn)), e) == Stepped(file, e)
  {
    TornThenAppended(file, torn, e.sample);
    TornThenTorn(file, torn, e.sample);
  }

  /** Torn appends over all runs: after any completed and torn appends, to any file or a
      missing one, the file is that of the completed ones alone, with at most the last
      append on top, if that was torn. */
  lemma TornRuns(file: Option<File>, events: seq<Event>)
    ensures var clean := Evolved(file, OnlyCompleted(events));
            Evolved(file, events) == if EndsTorn(events) then Stepped(clean, events[|events| - 1]) else clean
  {
    forall x, s, e ensures Stepped(Stepped(x, Stopped(s)), e) == Stepped(x, e) {
      StepOverTorn(x, s, e);
    }
    FoldedOverStopped(Stepped, file, events);
  }

  function Samples(events: seq<Event>): seq<Sample> {
    seq(|events|, i requires 0 <= i < |events| => events[i].sample)
  }

  lemma {:induction false} OnlyCompletedAre(events: seq<Event>)
    ensures forall i :: 0 <= i < |OnlyCompleted(events)| ==> OnlyCompleted(events)[i].Completed?
  {
    if events != [] {
      OnlyCompletedAre(events[..|events| - 1]);
    }
  }

  /** A fold over completed events is whatever function of their samples grows like it. */
  lemma {:induction false} FoldedIs<F(!new)>(step: (F, Event) -> F, f: seq<Sample> -> F, events: seq<Event>)
    requires forall before, s :: f(before + [s]) == step(f(before), Completed(s))
    requires forall i :: 0 <= i < |events| ==> events[i].Completed?
    ensures Folded(step, f([]), events) == f(Samples(events))
  {
    if events != [] {
      var before, last := events[..|events| - 1], events[|events| - 1];
      FoldedIs(step, f, before);
      assert Samples(events) == Samples(before) + [last.sample];
    } else {
      assert Samples(events) == [];
    }
  }

  lemma CompletedIsAppendAll(events: seq<Event>)
    requires forall i :: 0 <= i < |events| ==> events[i].Completed?
    ensures Evolved(None, events) == AppendAll(Samples(events))
  {
    forall before, s ensures AppendAll(before + [s]) == Stepped(AppendAll(before), Completed(s)) {
      AppendOneMore(before, s, before + [s]);
    }
    FoldedIs(Stepped, AppendAll, events);
  }

  lemma AppendOneMore(before: seq<Sample>, s: Sample, xs: seq<Sample>)
    requires xs == before + [s]
    ensures AppendAll(xs) == Stepped(AppendAll(before), Completed(s))
  {
    assert xs[..|xs| - 1] == before;
  }

  /** Whatever appends were torn on the way, a latest read answers the last completed one. */
  lemma TornRunsReadLatest(events: seq<Event>)
    requires OnlyCompleted(events) != []
    ensures var done, file := OnlyCompleted(events), Evolved(None, events).value;
            ReadLatestRing(file) == (Read([done[|done| - 1].sample], None), file)
  {
    var xs := Samples(OnlyCompleted(events));
    RunOfAppends(events);
    if EndsTorn(events) {
      LatestOfTorn(xs, events[|events| - 1].sample);
    } else {
      LatestOfRun(xs);
    }
    LastSample(OnlyCompleted(events));
  }

  lemma LastSample(events: seq<Event>)
    requires events != []
    ensures Samples(events) != [] && Samples(events)[|Samples(events)| - 1] == events[|events| - 1].sample
  {
  }

  lemma LatestOfRun(xs: seq<Sample>)
    requires xs != []
    ensures AppendAll(xs).Some?
    ensures ReadLatestRing(AppendAll(xs).value) == (Read([xs[|xs| - 1]], None), AppendAll(xs).value)
  {
    var _ := RunsReadBack(xs, 0);
  }

  /** The file of a sandbox that had none, as one of appends alone. */
  lemma RunOfAppends(events: seq<Event>)
    ensures var appended := AppendAll(Samples(OnlyCompleted(events)));
            Evolved(None, events) ==
            if EndsTorn(events) then Some(Torn(appended, events[|events| - 1].sample)) else appended
  {
    TornRuns(None, events);
    OnlyCompletedAre(events);
    CompletedIsAppendAll(OnlyCompleted(events));
  }

  lemma LatestOfTorn(xs: seq<Sample>, torn: Sample)
    requires xs != []
    ensures var file := Torn(AppendAll(xs), torn);
            ReadLatestRing(file) == (Read([xs[|xs| - 1]], None), file)
  {
    AppendAllHolds(xs);
    TornFileLatest(AppendAll(xs).value, LastN(xs, CAPACITY), torn);
    NewestOfLast(xs);
  }

  lemma NewestOfLast(xs: seq<Sample>)
    requires xs != []
    ensures LastN(LastN(xs, CAPACITY), 1) == [xs[|xs| - 1]]
  {
    LastOne(LastN(xs, CAPACITY));
  }

  lemma TornFileLatest(file: File, xs: seq<Sample>, s: Sample)
    requires FileHolds(file, xs)
    ensures ReadLatestRing(Torn(Some(file), s)) == (Read(LastN(xs, 1), None), Torn(Some(file), s))
  {
    TornIsTornView(Some(file), s);
    TornLatest(Viewed(file).value, xs, s);
  }

  /** A torn append to a file that holds `xs`, in bytes: see `RingView.TornReads`. */
  lemma TornFileReads(file: File, xs: seq<Sample>, s: Sample, window: I64)
    requires FileHolds(file, xs)
    ensures |xs| < CAPACITY ==>
              var before := ReadRing(file, window).0;
              ReadRing(Torn(Some(file), s), window) ==
              (before, if before.error.Some? then EmptyRing() else Torn(Some(file), s))
    ensures |xs| == CAPACITY ==>
              ReadRing(Torn(Some(file), s), window) ==
              if s.time > xs[1].time then (Read(Windowed(xs[1..], window), Some(TornNewest)), EmptyRing())
              else if NonDecreasing(xs[1..]) then (Read(Windowed([s] + xs[1..], window), None), Torn(Some(file), s))
              else (Read(Windowed([s] + xs[1..], window), Some(OutOfOrder)), EmptyRing())
    ensures ReadLatestRing(Torn(Some(file), s)) == (Read(LastN(xs, 1), None), Torn(Some(file), s))
  {
    TornIsTornView(Some(file), s);
    TornReads(Viewed(file).value, xs, s, window);
    TornFileLatest(file, xs, s);
  }

  /** A tear that goes unnoticed: 1023 equal samples, then a torn one that is no newer.
      The read reports no error and answers the uncommitted sample in the place of the
      oldest record. */
  lemma EqualTimesHideTear(xs: seq<Sample>, s: Sample, window: I64)
    requires |xs| == CAPACITY && (forall i :: 0 <= i < |xs| ==> xs[i] == xs[0]) && s.time <= xs[0].time
    ensures var torn := Torn(AppendAll(xs), s);
            ReadRing(torn, window) == (Read(Windowed([s] + xs[1..], window), None), torn)
  {
    AppendAllHolds(xs);
    HeldEqualTimesHideTear(AppendAll(xs).value, xs, s, window);
  }

  lemma HeldEqualTimesHideTear(file: File, xs: seq<Sample>, s: Sample, window: I64)
    requires FileHolds(file, xs)
    requires |xs| == CAPACITY && (forall i :: 0 <= i < |xs| ==> xs[i] == xs[0]) && s.time <= xs[0].time
    ensures ReadRing(Torn(Some(file), s), window) == (Read(Windowed([s] + xs[1..], window), None), Torn(Some(file), s))
  {
    TornFileReads(file, xs, s, window);
    EqualTimesInOrder(xs[1..]);
  }

  lemma EqualTimesInOrder(xs: seq<Sample>)
    requires forall i :: 0 <= i < |xs| ==> xs[i] == xs[0]
    ensures NonDecreasing(xs)
  {
  }

  /** Appending to a missing file leaves a file that holds the last 1023 samples. */
  lemma AppendAllHolds(xs: seq<Sample>)
    requires xs != []
    ensures FileHolds(AppendAll(xs).value, LastN(xs, CAPACITY))
  {
    EmptyRingIsEmpty();
    AppendAllIsAppendedAll(xs);
    AppendedIsAppendedView(AppendAll(xs[..|xs| - 1]), xs[|xs| - 1]);
    AppendedAllHolds(Viewed(Opened(None)).value, xs);
  }

  /** Changing any one byte of a record in use, in an ordered ring: the next window read
      names that record, answers from all the others, and resets the ring. */
  lemma DamagedByteIsReported(file: File, xs: seq<Sample>, k: nat, i: nat, b: byte, window: I64)
    requires FileHolds(file, xs) && NonDecreasing(xs) && k < |xs| && i < RECORD_BYTES
    requires var at := SlotOffset(SlotOf(Viewed(file).value.header, k)) + i;
             b != file[at]
    ensures var slot := SlotOf(Viewed(file).value.header, k);
            ReadRing(file[SlotOffset(slot) + i := b], window) ==
            (Read(Windowed(xs[..k] + xs[k + 1..], window), Some(BadRecord(slot))), EmptyRing())
  {
    var v := Viewed(file).value;
    DamagedByteIsDamage(file, v, SlotOf(v.header, k), i, b);
    DamageIsReported(v, xs, k, window);
  }

  lemma DamagedByteIsDamage(file: File, v: View, slot: nat, i: nat, b: byte)
    requires Viewed(file) == Some(v) && slot < CAPACITY && v.slots[slot].Some? && i < RECORD_BYTES
    requires b != file[SlotOffset(slot) + i]
    ensures Viewed(file[SlotOffset(slot) + i := b]) == Some(v.(slots := v.slots[slot := None]))
  {
    var at, start := SlotOffset(slot) + i, SlotOffset(slot);
    var changed := file[at := b];
    assert changed[..HEADER_BYTES] == file[..HEADER_BYTES];
    forall j | 0 <= j < CAPACITY ensures RecordAt(changed, j) == v.slots[slot := None][j] {
      var from := SlotOffset(j);
      if j == slot {
        assert changed[start..start + RECORD_BYTES] == file[start..start + RECORD_BYTES][i := b];
        OneByteChangeIsRefused(file[start..start + RECORD_BYTES], i, b);
      } else {
        assert changed[from..from + RECORD_BYTES] == file[from..from + RECORD_BYTES];
      }
    }
    ViewedIs(changed, v.(slots := v.slots[slot := None]));
  }
}
