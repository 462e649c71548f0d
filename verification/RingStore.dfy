/** The store of all rings with its cache of latest samples. */
module RingStore {
  import opened Orders
  import opened RingCodec
  import opened RingView
  import opened Ring

  type Id = string

  type Files = map<Id, File>

  datatype Store = Store(files: Files, latest: map<Id, Sample>)

  datatype Op =
    | Append(id: Id, sample: Sample)
    | AppendIf(id: Id, sample: Sample, eligible: bool)
    | ReadWindow(id: Id, window: I64)
    | ReadLatest(id: Id)
    | Remove(id: Id)

  datatype Reply = Done | WasAppended(appended: bool) | Answer(read: Read)

  function FileOf(files: Files, id: Id): Option<File> {
    if id in files then Some(files[id]) else None
  }

  // ---- without a cache --------------------------------------------------------------

  ghost function WindowOf(files: Files, id: Id, window: I64): (Read, Files) {
    if id !in files then (Read([], Some(Unavailable)), files)
    else
      var (read, left) := ReadRing(files[id], window);
      (read, files[id := left])
  }

  function LatestOf(files: Files, id: Id): (Read, Files) {
    if id !in files then (Read([], Some(Unavailable)), files)
    else
      var (read, left) := ReadLatestRing(files[id]);
      (read, files[id := left])
  }

  /** Every operation as it would be if each read went to the file. */
  ghost function Uncached(files: Files, op: Op): (Files, Reply) {
    match op
    case Append(id, s) => (files[id := Appended(FileOf(files, id), s)], Done)
    case AppendIf(id, s, eligible) =>
      (if eligible then files[id := Appended(FileOf(files, id), s)] else files, WasAppended(eligible))
    case ReadWindow(id, window) =>
      var (read, left) := WindowOf(files, id, window);
      (left, Answer(read))
    case ReadLatest(id) =>
      var (read, left) := LatestOf(files, id);
      (left, Answer(read))
    case Remove(id) => (files - {id}, Done)
  }

  // ---- with the cache ---------------------------------------------------------------

  /** What a read from the file does to the cache. */
  function Remembered(latest: map<Id, Sample>, id: Id, read: Read): map<Id, Sample> {
    if read.error.Some? then latest - {id}
    else if read.samples == [] then latest
    else latest[id := read.samples[|read.samples| - 1]]
  }

  ghost function Cached(st: Store, op: Op): (Store, Reply) {
    match op
    case Append(id, s) =>
      (Store(st.files[id := Appended(FileOf(st.files, id), s)], st.latest[id := s]), Done)
    case AppendIf(id, s, eligible) =>
      if eligible then
        (Store(st.files[id := Appended(FileOf(st.files, id), s)], st.latest[id := s]), WasAppended(true))
      else (st, WasAppended(false))
    case ReadWindow(id, window) =>
      var (read, files) := WindowOf(st.files, id, window);
      (Store(files, Remembered(st.latest, id, read)), Answer(read))
    case ReadLatest(id) =>
      if id in st.latest then (st, Answer(Read([st.latest[id]], None)))
      else
        var (read, files) := LatestOf(st.files, id);
        (Store(files, Remembered(st.latest, id, read)), Answer(read))
    case Remove(id) => (Store(st.files - {id}, st.latest - {id}), Done)
  }

  /** A file no operation of this store could have left in another shape: if its
      header is intact it is coherent. Damage of any other kind is allowed. */
  predicate Sound(file: File) {
    ReadHeader(file).Some? ==> Coherent(ReadHeader(file).value)
  }

  ghost predicate AllSound(files: Files) {
    forall id :: id in files ==> Sound(files[id])
  }

  predicate LatestIs(file: File, s: Sample) {
    ReadLatestRing(file) == (Read([s], None), file)
  }

  /** Every cached sample is the one a latest read of its file answers. */
  ghost predicate CacheAgrees(st: Store) {
    forall id :: id in st.latest ==> id in st.files && LatestIs(st.files[id], st.latest[id])
  }

  lemma AppendedIsSound(file: Option<File>, s: Sample)
    requires file.Some? ==> Sound(file.value)
    ensures Sound(Appended(file, s))
    ensures LatestIs(Appended(file, s), s)
  {
    EmptyRingIsEmpty();
    AppendedIsAppendedView(file, s);
    AppendedLatest(Viewed(Opened(file)).value, s);
  }

  lemma AppendedLatest(v: View, s: Sample)
    ensures LatestView(AppendedView(v, s)) == Read([s], None)
    ensures Coherent(v.header) ==> Coherent(AppendedView(v, s).header)
  {
    var h := Advanced(v.header);
    assert (h.next + CAPACITY - 1) % CAPACITY == v.header.next;
  }

  /** A window read that reports no error and answers samples ends with the one a
      latest read answers, and leaves the file alone. */
  lemma WindowAgreesWithLatest(file: File, window: I64)
    requires Sound(file)
    ensures var (read, left) := ReadRing(file, window);
            && Sound(left)
            && (read.error.None? && read.samples != [] ==>
                  left == file && LatestIs(file, read.samples[|read.samples| - 1]))
            && (read.error.None? ==> left == file)
  {
    EmptyRingIsEmpty();
    var v := Viewed(file);
    if v.Some? && ReadView(v.value, window).error.None? {
      CleanReadHolds(v.value, window);
      var xs := Decodable(v.value, v.value.header.count);
      WindowEndsWithNewest(xs, window);
      LatestOfHeld(v.value, xs);
      assert xs != [] ==> LastN(xs, 1) == [xs[|xs| - 1]];
    }
  }

  lemma LatestLeavesSound(file: File)
    requires Sound(file)
    ensures var (read, left) := ReadLatestRing(file);
            && Sound(left) && (read.error.None? ==> left == file)
            && (read.error.None? && read.samples != [] ==> LatestIs(left, read.samples[|read.samples| - 1]))
  {
    EmptyRingIsEmpty();
    if Viewed(file).Some? {
      LatestIsOneSample(Viewed(file).value);
    }
  }

  lemma LatestIsOneSample(v: View)
    ensures var read := LatestView(v);
            read.samples != [] ==> read == Read([read.samples[|read.samples| - 1]], None)
  {
  }

  lemma PutAgrees(st: Store, id: Id, file: File, s: Sample)
    requires AllSound(st.files) && CacheAgrees(st) && Sound(file) && LatestIs(file, s)
    ensures AllSound(st.files[id := file]) && CacheAgrees(Store(st.files[id := file], st.latest[id := s]))
  {
  }

  lemma ReadAgrees(st: Store, id: Id, read: Read, left: File)
    requires AllSound(st.files) && CacheAgrees(st) && id in st.files && Sound(left)
    requires read.error.None? ==> left == st.files[id]
    requires read.error.None? && read.samples != [] ==> LatestIs(left, read.samples[|read.samples| - 1])
    ensures AllSound(st.files[id := left]) && CacheAgrees(Store(st.files[id := left], Remembered(st.latest, id, read)))
  {
  }

  lemma LatestReadIsUncached(st: Store, id: Id)
    requires AllSound(st.files) && CacheAgrees(st)
    ensures var (after, reply) := Cached(st, ReadLatest(id));
            (after.files, reply) == Uncached(st.files, ReadLatest(id)) && AllSound(after.files) && CacheAgrees(after)
  {
    if id in st.latest {
      CachedReadIsUncached(st, id);
    } else if id in st.files {
      LatestLeavesSound(st.files[id]);
      var (read, left) := ReadLatestRing(st.files[id]);
      ReadAgrees(st, id, read, left);
    }
  }

  lemma CachedReadIsUncached(st: Store, id: Id)
    requires CacheAgrees(st) && id in st.latest
    ensures LatestOf(st.files, id) == (Read([st.latest[id]], None), st.files)
  {
    assert LatestIs(st.files[id], st.latest[id]);
    assert st.files[id := st.files[id]] == st.files;
  }

  lemma WindowReadIsUncached(st: Store, id: Id, window: I64)
    requires AllSound(st.files) && CacheAgrees(st)
    ensures var (after, reply) := Cached(st, ReadWindow(id, window));
            && (after.files, reply) == Uncached(st.files, ReadWindow(id, window))
            && AllSound(after.files) && CacheAgrees(after)
  {
    if id in st.files {
      WindowAgreesWithLatest(st.files[id], window);
      var (read, left) := ReadRing(st.files[id], window);
      ReadAgrees(st, id, read, left);
    }
  }

  /** One operation: the cache changes neither the files nor the reply. */
  lemma CacheIsTransparent(st: Store, op: Op)
    requires AllSound(st.files) && CacheAgrees(st)
    ensures var (after, reply) := Cached(st, op);
            (after.files, reply) == Uncached(st.files, op) && AllSound(after.files) && CacheAgrees(after)
  {
    match op {
      case Append(id, s) =>
        AppendedIsSound(FileOf(st.files, id), s);
        PutAgrees(st, id, Appended(FileOf(st.files, id), s), s);
      case AppendIf(id, s, _) =>
        AppendedIsSound(FileOf(st.files, id), s);
        PutAgrees(st, id, Appended(FileOf(st.files, id), s), s);
      case ReadWindow(id, window) => WindowReadIsUncached(st, id, window);
      case ReadLatest(id) => LatestReadIsUncached(st, id);
      case Remove(id) =>
    }
  }

  ghost function UncachedRun(files: Files, ops: seq<Op>): (Files, seq<Reply>) {
    if ops == [] then (files, [])
    else
      var (before, replies) := UncachedRun(files, ops[..|ops| - 1]);
      var (after, reply) := Uncached(before, ops[|ops| - 1]);
      (after, replies + [reply])
  }

  ghost function CachedRun(st: Store, ops: seq<Op>): (Store, seq<Reply>) {
    if ops == [] then (st, [])
    else
      var (before, replies) := CachedRun(st, ops[..|ops| - 1]);
      var (after, reply) := Cached(before, ops[|ops| - 1]);
      (after, replies + [reply])
  }

  /** Cache transparency over all runs: from a start with an empty cache, every
      sequence of operations gets the replies, and leaves the files, that it would
      without a cache. */
  lemma {:induction false} RunsAreCacheTransparent(files: Files, ops: seq<Op>)
    requires AllSound(files)
    ensures var (after, replies) := CachedRun(Store(files, map[]), ops);
            (after.files, replies) == UncachedRun(files, ops) && AllSound(after.files) && CacheAgrees(after)
  {
    if ops != [] {
      RunsAreCacheTransparent(files, ops[..|ops| - 1]);
      CacheIsTransparent(CachedRun(Store(files, map[]), ops[..|ops| - 1]).0, ops[|ops| - 1]);
    }
  }

  // ---- the object -------------------------------------------------------------------

  class ResourceRingStore {
    var files: Files
    var latest: map<Id, Sample>

    ghost function State(): Store
      reads this
    {
      Store(files, latest)
    }

    ghost predicate Valid()
      reads this
    {
      AllSound(files) && CacheAgrees(State())
    }

    constructor (files: Files)
      requires AllSound(files)
      ensures Valid() && this.files == files && latest == map[]
    {
      this.files := files;
      this.latest := map[];
    }

    method AppendSample(id: Id, sample: Sample)
      requires Valid()
      modifies this
      ensures Valid() && State() == Cached(old(State()), Append(id, sample)).0
      ensures files == Uncached(old(files), Append(id, sample)).0
    {
      CacheIsTransparent(State(), Append(id, sample));
      var written := AppendLocked(FileOf(files, id), sample);
      files := files[id := written];
      latest := latest[id := sample];
    }

    method AppendSampleIf(id: Id, sample: Sample, eligible: bool) returns (appended: bool)
      requires Valid()
      modifies this
      ensures Valid() && appended == eligible
      ensures State() == Cached(old(State()), AppendIf(id, sample, eligible)).0
      ensures files == Uncached(old(files), AppendIf(id, sample, eligible)).0
    {
      CacheIsTransparent(State(), AppendIf(id, sample, eligible));
      if !eligible {
        return false;
      }
      var written := AppendLocked(FileOf(files, id), sample);
      files := files[id := written];
      latest := latest[id := sample];
      appended := true;
    }

    method ReadSamples(id: Id, window: I64) returns (read: Read)
      requires Valid()
      modifies this
      ensures Valid() && State() == Cached(old(State()), ReadWindow(id, window)).0
      ensures (files, Answer(read)) == Uncached(old(files), ReadWindow(id, window))
      ensures id !in old(files) ==> read == Read([], Some(Unavailable)) && files == old(files)
    {
      CacheIsTransparent(State(), ReadWindow(id, window));
      if id !in files {
        read := Read([], Some(Unavailable));
      } else {
        var left;
        read, left := ReadLocked(files[id], window);
        files := files[id := left];
      }
      latest := Remembered(latest, id, read);
    }

    /** The answer and the files are those of an empty cache. */
    method ReadLatestSample(id: Id) returns (read: Read)
      requires Valid()
      modifies this
      ensures Valid() && State() == Cached(old(State()), ReadLatest(id)).0
      ensures (files, Answer(read)) == Uncached(old(files), ReadLatest(id))
      ensures id !in old(files) ==> read == Read([], Some(Unavailable)) && files == old(files)
    {
      CacheIsTransparent(State(), ReadLatest(id));
      if id in latest {
        return Read([latest[id]], None);
      }
      var (answer, left) := LatestOf(files, id);
      read, files := answer, left;
      latest := Remembered(latest, id, read);
    }

    method RemoveRing(id: Id)
      requires Valid()
      modifies this
      ensures Valid() && State() == Cached(old(State()), Remove(id)).0
      ensures id !in files && id !in latest
    {
      CacheIsTransparent(State(), Remove(id));
      files := files - {id};
      latest := latest - {id};
    }
  }
}
