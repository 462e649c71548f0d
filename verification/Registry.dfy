/** The persistent sandbox registry: an in-memory map, an atomically replaced
    snapshot file, and reconciliation with recovered containers. */
module Registry {
  import opened Orders

  type Id = string

  datatype SandboxState = Creating | Ready | Stopping | Stopped | Failed

  /** Endpoints, shared base and profile are carried as uninterpreted text. */
  datatype Record = Record(
    id: Id, workspaceRoot: string, state: SandboxState, activityRevision: U64, daemon: Option<string>,
    daemonHttp: Option<string>, sharedBase: Option<string>, profile: Option<string>)

  type Records = map<Id, Record>

  datatype ManagerError =
    | DuplicateSandbox(id: Id)
    | MissingSandbox(id: Id)
    | InvalidStateTransition(id: Id, from: SandboxState, to: SandboxState)
    | RevisionExhausted(id: Id)
    | PersistFailed

  /** Every record is filed under its own id. */
  ghost predicate Keyed(m: Records) {
    forall id :: id in m ==> m[id].id == id
  }

  // ---- mutations ----------------------------------------------------------------------

  datatype Mutation =
    | Create(id: Id, workspaceRoot: string, sharedBase: Option<string>, profile: Option<string>)
    | Insert(record: Record)
    | Update(record: Record)
    | Remove(id: Id)
    | TransitionState(id: Id, from: SandboxState, to: SandboxState)
    | SetState(id: Id, to: SandboxState)
    | UpdateEndpoints(id: Id, daemon: Option<string>, daemonHttp: Option<string>)
    | AdvanceActivityRevision(id: Id)

  function Target(op: Mutation): Id {
    match op
    case Insert(record) => record.id
    case Update(record) => record.id
    case _ => op.id
  }

  /** The map and the answer a mutation leads to, or the error that leaves the map as
      it is. */
  function Mutated(m: Records, op: Mutation): Result<(Records, Record), ManagerError> {
    var id := Target(op);
    if op.Create? || op.Insert? then
      if id in m then Err(DuplicateSandbox(id))
      else
        var record := if op.Insert? then op.record
                      else Record(id, op.workspaceRoot, Creating, 0, None, None, op.sharedBase, op.profile);
        Ok((m[id := record], record))
    else if id !in m then Err(MissingSandbox(id))
    else
      var record := m[id];
      match op
      case Update(updated) => Ok((m[id := updated], updated))
      case Remove(_) => Ok((m - {id}, record))
      case TransitionState(_, from, to) =>
        if record.state != from then Err(InvalidStateTransition(id, record.state, to))
        else Ok((m[id := record.(state := to)], record.(state := to)))
      case SetState(_, to) => Ok((m[id := record.(state := to)], record.(state := to)))
      case UpdateEndpoints(_, daemon, http) =>
        var updated := record.(daemon := daemon, daemonHttp := http);
        Ok((m[id := updated], updated))
      case AdvanceActivityRevision(_) =>
        if record.activityRevision == U64_MAX then Err(RevisionExhausted(id))
        else
          var updated := record.(activityRevision := record.activityRevision + 1);
          Ok((m[id := updated], updated))
  }

  /** A mutation keeps records under their own ids and touches no other record. */
  lemma MutationKeepsKeys(m: Records, op: Mutation)
    requires Keyed(m) && Mutated(m, op).Ok?
    ensures var m' := Mutated(m, op).value.0;
            && Keyed(m') && m' - {Target(op)} == m - {Target(op)}
            && (Target(op) in m' <==> !op.Remove?)
            && Mutated(m, op).value.1 == (if op.Remove? then m[Target(op)] else m'[Target(op)])
  {
  }

  /** Why a mutation is refused: a taken id, a missing one, a state other than the
      expected one, or a revision that cannot grow. */
  predicate RefusedWith(m: Records, op: Mutation, e: ManagerError) {
    match e
    case DuplicateSandbox(id) => id == Target(op) && id in m && (op.Create? || op.Insert?)
    case MissingSandbox(id) => id == Target(op) && id !in m && !op.Create? && !op.Insert?
    case InvalidStateTransition(id, from, to) =>
      id in m && m[id].state == from && op.TransitionState? && op.id == id && op.to == to && op.from != from
    case RevisionExhausted(id) => id in m && op == AdvanceActivityRevision(id) && m[id].activityRevision == U64_MAX
    case PersistFailed => false
  }

  lemma RefusedExactly(m: Records, op: Mutation, e: ManagerError)
    ensures Mutated(m, op) == Err(e) <==> RefusedWith(m, op, e)
  {
  }

  lemma RefusedOnlyIf(m: Records, op: Mutation)
    ensures forall e :: Mutated(m, op) == Err(e) <==> RefusedWith(m, op, e)
  {
    forall e ensures Mutated(m, op) == Err(e) <==> RefusedWith(m, op, e) {
      RefusedExactly(m, op, e);
    }
  }

  /** What a mutation of an existing record may change of it: the state only by a state
      mutation and only to the state asked for, from the expected one; the revision only
      by one; the endpoints only when they are updated; and the rest only by `update`. */
  lemma MutationEffect(m: Records, op: Mutation)
    requires Target(op) in m && Mutated(m, op).Ok? && !op.Remove? && !op.Update?
    ensures var before, after := m[Target(op)], Mutated(m, op).value.1;
            && after.state == (if op.TransitionState? || op.SetState? then op.to else before.state)
            && (op.TransitionState? ==> before.state == op.from)
            && after.activityRevision == before.activityRevision + (if op.AdvanceActivityRevision? then 1 else 0)
            && (!op.UpdateEndpoints? ==> after.daemon == before.daemon && after.daemonHttp == before.daemonHttp)
            && (op.UpdateEndpoints? ==> after.daemon == op.daemon && after.daemonHttp == op.daemonHttp)
            && after.id == before.id && after.workspaceRoot == before.workspaceRoot
            && after.sharedBase == before.sharedBase && after.profile == before.profile
  {
  }

  /** `after` is what `op` answers: for a creation a record in state `Creating` at revision
      0, without endpoints, with what was asked for; for an insertion or update the given
      record; for a removal the removed one; otherwise the old one with only its state,
      endpoints or revision changed. */
  predicate Answers(m: Records, op: Mutation, after: Record) {
    if op.Create? then
      && after.id == op.id && after.workspaceRoot == op.workspaceRoot && after.state == Creating
      && after.activityRevision == 0 && after.daemon == None && after.daemonHttp == None
      && after.sharedBase == op.sharedBase && after.profile == op.profile
    else if op.Insert? || op.Update? then after == op.record
    else
      && op.id in m
      && var before := m[op.id];
         && after.id == before.id && after.workspaceRoot == before.workspaceRoot
         && after.sharedBase == before.sharedBase && after.profile == before.profile
         && after.state == (if op.TransitionState? || op.SetState? then op.to else before.state)
         && after.daemon == (if op.UpdateEndpoints? then op.daemon else before.daemon)
         && after.daemonHttp == (if op.UpdateEndpoints? then op.daemonHttp else before.daemonHttp)
         && after.activityRevision == before.activityRevision + if op.AdvanceActivityRevision? then 1 else 0
  }

  /** Which answer a mutation gives, and what it files. */
  lemma AnsweredExactly(m: Records, op: Mutation, after: Record)
    requires Mutated(m, op).Ok?
    ensures Mutated(m, op).value.1 == after <==> Answers(m, op, after)
  {
  }

  lemma AnswerIsFiled(m: Records, op: Mutation)
    requires Mutated(m, op).Ok?
    ensures var (m', after) := Mutated(m, op).value;
            && Answers(m, op, after)
            && m' == if op.Remove? then m - {Target(op)} else m[Target(op) := after]
  {
    AnsweredExactly(m, op, Mutated(m, op).value.1);
  }

  // ---- snapshots ------------------------------------------------------------------------

  predicate IdLe(a: Record, b: Record) {
    StringLe(a.id, b.id)
  }

  lemma IdLeIsTotal()
    ensures TotalPreorder(IdLe)
  {
    forall a, b ensures IdLe(a, b) || IdLe(b, a) { StringLeTotal(a.id, b.id); }
    forall a, b, c | IdLe(a, b) && IdLe(b, c) ensures IdLe(a, c) { StringLeTransitive(a.id, b.id, c.id); }
  }

  /** `s` lists the records of `m`, each once, by ascending id. */
  ghost predicate IsSnapshot(s: seq<Record>, m: Records) {
    && SortedBy(IdLe, s) && |s| == |m|
    && (forall i :: 0 <= i < |s| ==> s[i].id in m && m[s[i].id] == s[i])
    && (forall id :: id in m ==> m[id] in s)
  }

  /** `collect` into a map: of records with one id, the last wins. */
  function Collected(s: seq<Record>): (m: Records)
    ensures Keyed(m)
  {
    if s == [] then map[] else Collected(s[..|s| - 1])[s[|s| - 1].id := s[|s| - 1]]
  }

  lemma {:induction false} CollectedAt(s: seq<Record>, m: Records)
    requires forall i :: 0 <= i < |s| ==> s[i].id in m && m[s[i].id] == s[i]
    ensures forall id :: id in Collected(s) <==> id in m && m[id].id == id && m[id] in s
    ensures forall id :: id in Collected(s) ==> Collected(s)[id] == m[id]
  {
    if s != [] {
      var before, last := s[..|s| - 1], s[|s| - 1];
      CollectedAt(before, m);
      assert s == before + [last];
    }
  }

  /** Loading a snapshot rebuilds exactly the map it was taken of. */
  lemma SnapshotRoundTrip(s: seq<Record>, m: Records)
    requires Keyed(m) && IsSnapshot(s, m)
    ensures Collected(s) == m
  {
    CollectedAt(s, m);
  }

  /** `s` lists the records of `m` under the ids of `done`. */
  ghost predicate Lists(s: seq<Record>, m: Records, done: set<Id>) {
    && |s| == |done|
    && (forall i :: 0 <= i < |s| ==> s[i].id in m && m[s[i].id] == s[i])
    && (forall id :: id in m && id in done ==> m[id] in s)
  }

  method ListValues(m: Records) returns (values: seq<Record>)
    requires Keyed(m)
    ensures Lists(values, m, m.Keys)
  {
    values := [];
    var keys, done := m.Keys, {};
    while keys != {}
      invariant keys !! done && keys + done == m.Keys
      invariant Lists(values, m, done)
      decreases keys
    {
      var id :| id in keys;
      ListedOneMore(values, m, done, id);
      values := values + [m[id]];
      keys, done := keys - {id}, done + {id};
    }
    assert done == m.Keys;
  }

  lemma ListedOneMore(values: seq<Record>, m: Records, done: set<Id>, id: Id)
    requires Keyed(m) && Lists(values, m, done) && id in m && id !in done
    ensures Lists(values + [m[id]], m, done + {id})
  {
    var more := values + [m[id]];
    assert more[|values|] == m[id] && m[id] in more;
    assert forall i :: 0 <= i < |values| ==> more[i] == values[i];
    forall other | other in m && other in done + {id} ensures m[other] in more {
      assert other != id ==> m[other] in values;
    }
  }

  /** The records in id order. */
  method TakeSnapshot(m: Records) returns (s: seq<Record>)
    requires Keyed(m)
    ensures IsSnapshot(s, m)
  {
    var values := ListValues(m);
    IdLeIsTotal();
    s := Sort(IdLe, values);
    SortedListIsSnapshot(values, s, m);
  }

  lemma SortedListIsSnapshot(values: seq<Record>, s: seq<Record>, m: Records)
    requires Lists(values, m, m.Keys) && SortedBy(IdLe, s) && multiset(s) == multiset(values)
    ensures IsSnapshot(s, m)
  {
    SortedKeepsMembers(values, s);
    assert |s| == |multiset(s)| == |multiset(values)| == |values|;
    forall i | 0 <= i < |s| ensures s[i].id in m && m[s[i].id] == s[i] {
      assert s[i] in s;
    }
    forall id | id in m ensures m[id] in s {
      assert m[id] in values;
    }
  }

  lemma SortedKeepsMembers(a: seq<Record>, b: seq<Record>)
    requires multiset(a) == multiset(b)
    ensures forall x :: x in a <==> x in b
  {
    forall x ensures x in a <==> x in b {
      assert x in a <==> x in multiset(a);
      assert x in b <==> x in multiset(b);
    }
  }

  // ---- the snapshot file ------------------------------------------------------------------

  type Bytes = seq<byte>

  /** The registry file and the staged file next to it. */
  datatype Disk = Disk(target: Option<Bytes>, staged: Option<Bytes>)

  datatype Codec = Codec(encode: seq<Record> -> Bytes, decode: Bytes -> Option<seq<Record>>)

  /** What is assumed of the serializer. */
  ghost predicate RoundTrips(c: Codec) {
    forall s :: c.decode(c.encode(s)) == Some(s)
  }

  /** The disk when `write_snapshot` stops, by an error or a crash, after `done` of its
      effects: the staged file is created, filled byte by byte, then renamed. */
  function WrittenUpTo(disk: Disk, bytes: Bytes, done: nat): Disk {
    if done == 0 then disk
    else if done <= |bytes| + 1 then disk.(staged := Some(bytes[..done - 1]))
    else Disk(Some(bytes), None)
  }

  predicate Completes(bytes: Bytes, done: nat) {
    done > |bytes| + 1
  }

  /** What a new process loads: nothing yet, the records, or a file it cannot parse. */
  function Loaded(c: Codec, disk: Disk): Option<Records> {
    if disk.target.None? then Some(map[])
    else
      var s := c.decode(disk.target.value);
      if s.None? then None else Some(Collected(s.value))
  }

  /** Crash atomicity: wherever the write stops, a new process loads the old records
      or the new ones, and the new ones exactly when the write completed. */
  lemma StopsAtOldOrNew(c: Codec, disk: Disk, s: seq<Record>, m: Records, done: nat)
    requires RoundTrips(c) && Keyed(m) && IsSnapshot(s, m)
    ensures Loaded(c, WrittenUpTo(disk, c.encode(s), done)) ==
            if Completes(c.encode(s), done) then Some(m) else Loaded(c, disk)
  {
    SnapshotRoundTrip(s, m);
  }

  // ---- reconciliation ----------------------------------------------------------------------

  function Ids(recovered: seq<Record>): set<Id> {
    set i | 0 <= i < |recovered| :: recovered[i].id
  }

  /** The runtime wins: recovered records replace or join the map, and what was not
      recovered has failed. */
  function Reconciled(m: Records, recovered: seq<Record>): Records {
    map id | id in m.Keys + Ids(recovered) ::
      if id in Ids(recovered) then LastWith(recovered, id) else m[id].(state := Failed)
  }

  /** The last recovered record with this id. */
  function LastWith(recovered: seq<Record>, id: Id): (r: Record)
    requires id in Ids(recovered)
    ensures r in recovered && r.id == id
  {
    var last := recovered[|recovered| - 1];
    if last.id == id then last
    else
      assert forall i :: 0 <= i < |recovered| && recovered[i].id == id ==> i < |recovered| - 1;
      assert id in Ids(recovered[..|recovered| - 1]) by {
        var i :| 0 <= i < |recovered| && recovered[i].id == id;
        assert recovered[..|recovered| - 1][i].id == id;
      }
      LastWith(recovered[..|recovered| - 1], id)
  }

  ghost predicate IsLastWith(recovered: seq<Record>, id: Id, i: int) {
    0 <= i < |recovered| && recovered[i].id == id && forall j :: i < j < |recovered| ==> recovered[j].id != id
  }

  lemma {:induction false} LastWithIsLast(recovered: seq<Record>, id: Id) returns (i: nat)
    requires id in Ids(recovered)
    ensures IsLastWith(recovered, id, i) && LastWith(recovered, id) == recovered[i]
  {
    var before, last := recovered[..|recovered| - 1], recovered[|recovered| - 1];
    if last.id == id {
      i := |recovered| - 1;
    } else {
      IdsAppend(before, last, recovered);
      i := LastWithIsLast(before, id);
    }
  }

  /** What reconciliation leaves of each sandbox: the last recovered record with its id,
      or else its old record, of which only the state is changed, to `Failed`. */
  lemma ReconciledExactly(m: Records, recovered: seq<Record>, id: Id)
    ensures id in Reconciled(m, recovered) <==> id in m || exists i :: 0 <= i < |recovered| && recovered[i].id == id
    ensures forall i :: IsLastWith(recovered, id, i) ==> Reconciled(m, recovered)[id] == recovered[i]
    ensures id in m && (forall i :: 0 <= i < |recovered| ==> recovered[i].id != id) ==>
              var before, after := m[id], Reconciled(m, recovered)[id];
              && after.state == Failed && after.id == before.id && after.workspaceRoot == before.workspaceRoot
              && after.activityRevision == before.activityRevision && after.daemon == before.daemon
              && after.daemonHttp == before.daemonHttp && after.sharedBase == before.sharedBase
              && after.profile == before.profile
  {
    if id in Ids(recovered) {
      var i := LastWithIsLast(recovered, id);
    }
  }

  /** Loading a file in which ids repeat keeps the last record of each. */
  lemma {:induction false} CollectedIsLast(s: seq<Record>, id: Id)
    ensures id in Collected(s) <==> id in Ids(s)
    ensures id in Ids(s) ==> Collected(s)[id] == LastWith(s, id)
  {
    if s != [] {
      CollectedIsLast(s[..|s| - 1], id);
      IdsAppend(s[..|s| - 1], s[|s| - 1], s);
    }
  }

  /** Everything but `ids` marked as failed. */
  function FailedExcept(m: Records, ids: set<Id>): Records {
    map id | id in m :: if id in ids then m[id] else m[id].(state := Failed)
  }

  /** The ids outside `ids` that were not failed before. */
  function NotYetFailed(m: Records, ids: set<Id>): set<Id> {
    set id | id in m && id !in ids && m[id].state != Failed
  }

  /** `now` is `before` with the failures outside `ids` marked, except under `keys`. */
  ghost predicate PartlyFailed(now: Records, before: Records, ids: set<Id>, keys: set<Id>) {
    && now.Keys == before.Keys
    && forall id :: id in now ==> now[id] == if id in keys then before[id] else FailedExcept(before, ids)[id]
  }

  lemma FailOneMore(now: Records, before: Records, ids: set<Id>, keys: set<Id>, id: Id)
    requires PartlyFailed(now, before, ids, keys) && Keyed(before) && id in keys && id in before
    ensures now[id] == before[id] && now[id].id == id
    ensures PartlyFailed(if id !in ids && now[id].state != Failed then now[id := now[id].(state := Failed)] else now,
                         before, ids, keys - {id})
  {
  }

  /** `orphaned` lists what was not failed before, except under `keys`. */
  ghost predicate PartlyListed(orphaned: seq<Id>, before: Records, ids: set<Id>, keys: set<Id>) {
    multiset(orphaned) == multiset(NotYetFailed(before, ids) - keys)
  }

  lemma ListOneMore(orphaned: seq<Id>, before: Records, ids: set<Id>, keys: set<Id>, id: Id)
    requires PartlyListed(orphaned, before, ids, keys) && id in keys && id in before
    ensures PartlyListed(if id !in ids && before[id].state != Failed then orphaned + [id] else orphaned,
                         before, ids, keys - {id})
  {
    var all := NotYetFailed(before, ids);
    if id in all {
      assert all - (keys - {id}) == (all - keys) + {id};
    } else {
      assert all - (keys - {id}) == all - keys;
    }
  }

  /** Marks what is not among `ids` as failed and lists what was not failed before. */
  method FailAll(before: Records, ids: set<Id>) returns (now: Records, orphaned: seq<Id>)
    requires Keyed(before)
    ensures now == FailedExcept(before, ids)
    ensures multiset(orphaned) == multiset(NotYetFailed(before, ids))
  {
    now, orphaned := before, [];
    var keys := before.Keys;
    assert NotYetFailed(before, ids) - keys == {};
    while keys != {}
      invariant keys <= before.Keys && PartlyFailed(now, before, ids, keys) && PartlyListed(orphaned, before, ids, keys)
      decreases keys
    {
      var id :| id in keys;
      FailOneMore(now, before, ids, keys, id);
      ListOneMore(orphaned, before, ids, keys, id);
      if now[id].id !in ids && now[id].state != Failed {
        now := now[id := now[id].(state := Failed)];
        orphaned := orphaned + [id];
      }
      keys := keys - {id};
    }
    assert NotYetFailed(before, ids) - {} == NotYetFailed(before, ids);
  }

  /** The records put over `m` one after the other. */
  function Overlaid(m: Records, records: seq<Record>): Records {
    if records == [] then m else Overlaid(m, records[..|records| - 1])[records[|records| - 1].id := records[|records| - 1]]
  }

  lemma {:induction false} OverlaidAt(m: Records, records: seq<Record>)
    ensures Overlaid(m, records).Keys == m.Keys + Ids(records)
    ensures forall id :: id in Overlaid(m, records) ==>
              Overlaid(m, records)[id] == if id in Ids(records) then LastWith(records, id) else m[id]
  {
    if records != [] {
      var before, last := records[..|records| - 1], records[|records| - 1];
      OverlaidAt(m, before);
      IdsAppend(before, last, records);
    }
  }

  lemma IdsAppend(before: seq<Record>, last: Record, records: seq<Record>)
    requires records == before + [last]
    ensures Ids(records) == Ids(before) + {last.id}
  {
    assert forall i :: 0 <= i < |before| ==> records[i] == before[i];
    assert records[|before|] == last;
    assert forall i :: 0 <= i < |before| ==> before[i].id in Ids(records);
  }

  /** The two passes over the map, first the failures, then the recovered records,
      give the reconciled map. */
  lemma PassesReconcile(m: Records, recovered: seq<Record>)
    ensures Overlaid(FailedExcept(m, Ids(recovered)), recovered) == Reconciled(m, recovered)
  {
    OverlaidAt(FailedExcept(m, Ids(recovered)), recovered);
  }

  /** Reconciling again with the same containers reports nothing and changes nothing. */
  lemma ReconcileTwice(m: Records, recovered: seq<Record>)
    ensures var once := Reconciled(m, recovered);
            Reconciled(once, recovered) == once && NotYetFailed(once, Ids(recovered)) == {}
  {
  }

  lemma OrphansAre(orphaned: seq<Id>, m: Records, recovered: seq<Record>)
    requires multiset(orphaned) == multiset(NotYetFailed(m, Ids(recovered)))
    ensures forall id :: id in orphaned <==>
              id in m && m[id].state != Failed && forall i :: 0 <= i < |recovered| ==> recovered[i].id != id
  {
    forall id ensures id in orphaned <==> id in NotYetFailed(m, Ids(recovered)) {
      assert id in orphaned <==> id in multiset(orphaned);
    }
  }

  lemma ReconcileKeepsKeys(m: Records, recovered: seq<Record>)
    requires Keyed(m)
    ensures Keyed(Reconciled(m, recovered)) && Keyed(FailedExcept(m, Ids(recovered)))
  {
  }

  // ---- the store ------------------------------------------------------------------------------

  class SandboxStore {
    const codec: Codec
    var records: Records
    var disk: Disk

    ghost predicate Valid()
      reads this
    {
      RoundTrips(codec) && Keyed(records)
    }

    /** Starts from what the snapshot file holds. */
    constructor Load(codec: Codec, disk: Disk)
      requires RoundTrips(codec) && Loaded(codec, disk).Some?
      ensures Valid() && this.codec == codec && this.disk == disk && Some(records) == Loaded(codec, disk)
    {
      this.codec := codec;
      this.disk := disk;
      this.records := if disk.target.None? then map[] else Collected(codec.decode(disk.target.value).value);
    }

    /** Rewrites the snapshot; `done` is how many effects take place. */
    method Persist(done: nat) returns (ok: bool)
      requires Valid()
      modifies this`disk
      ensures Valid() && Loaded(codec, disk) == (if ok then Some(records) else Loaded(codec, old(disk)))
      ensures exists s :: IsSnapshot(s, records) && disk == WrittenUpTo(old(disk), codec.encode(s), done)
                       && (ok <==> Completes(codec.encode(s), done))
    {
      var s := TakeSnapshot(records);
      StopsAtOldOrNew(codec, disk, s, records, done);
      var bytes := codec.encode(s);
      disk := WrittenUpTo(disk, bytes, done);
      ok := Completes(bytes, done);
    }

    /** Any mutation. A refused one changes nothing. Otherwise the map changes, and a
        new process loads exactly that map if the answer is `Ok`, and what it would
        have loaded before if the snapshot could not be written. */
    method Mutate(op: Mutation, done: nat) returns (r: Result<Record, ManagerError>)
      requires Valid()
      modifies this
      ensures Valid()
      ensures Mutated(old(records), op).Err? ==>
                r == Err(Mutated(old(records), op).error) && records == old(records) && disk == old(disk)
      ensures forall e :: e != PersistFailed ==> (r == Err(e) <==> RefusedWith(old(records), op, e))
      ensures Mutated(old(records), op).Ok? ==> records == Mutated(old(records), op).value.0
      ensures r.Ok? ==> Mutated(old(records), op).Ok? && r.value == Mutated(old(records), op).value.1
      ensures r.Ok? ==> Answers(old(records), op, r.value)
      ensures r.Ok? ==>
                if op.Remove? then records == old(records) - {Target(op)} else records == old(records)[Target(op) := r.value]
      ensures r.Ok? ==> Loaded(codec, disk) == Some(records)
      ensures r.Err? ==> Loaded(codec, disk) == Loaded(codec, old(disk))
      ensures Called(codec, Process(old(records), old(disk)), Mutating(op, done), Process(records, disk), r.Ok?)
    {
      var outcome := Mutated(records, op);
      RefusedOnlyIf(records, op);
      if outcome.Err? {
        return Err(outcome.error);
      }
      MutationKeepsKeys(records, op);
      AnswerIsFiled(records, op);
      records := outcome.value.0;
      var ok := Persist(done);
      r := if ok then Ok(outcome.value.1) else Err(PersistFailed);
    }

    method Reconcile(recovered: seq<Record>, done: nat) returns (r: Result<seq<Id>, ManagerError>)
      requires Valid()
      modifies this
      ensures Valid() && records == Reconciled(old(records), recovered)
      ensures r.Ok? ==> SortedBy(StringLe, r.value)
      ensures r.Ok? ==> multiset(r.value) == multiset(NotYetFailed(old(records), Ids(recovered)))
      ensures r.Ok? ==> forall id :: id in r.value <==>
                id in old(records) && old(records)[id].state != Failed && forall i :: 0 <= i < |recovered| ==> recovered[i].id != id
      ensures Loaded(codec, disk) == if r.Ok? then Some(records) else Loaded(codec, old(disk))
      ensures r.Err? ==> r.error == PersistFailed
      ensures Called(codec, Process(old(records), old(disk)), Reconciling(recovered, done), Process(records, disk), r.Ok?)
    {
      ReconcileKeepsKeys(records, recovered);
      PassesReconcile(records, recovered);
      var orphaned := FailUnrecovered(Ids(recovered));
      InsertRecovered(recovered);
      StringLeIsTotal();
      orphaned := Sort(StringLe, orphaned);
      OrphansAre(orphaned, old(records), recovered);
      var ok := Persist(done);
      r := if ok then Ok(orphaned) else Err(PersistFailed);
    }

    method FailUnrecovered(ids: set<Id>) returns (orphaned: seq<Id>)
      requires Valid()
      modifies this`records
      ensures Valid() && records == FailedExcept(old(records), ids)
      ensures multiset(orphaned) == multiset(NotYetFailed(old(records), ids))
    {
      var failed;
      failed, orphaned := FailAll(records, ids);
      records := failed;
    }

    method InsertRecovered(recovered: seq<Record>)
      requires Valid()
      modifies this`records
      ensures Valid() && records == Overlaid(old(records), recovered)
    {
      for k := 0 to |recovered|
        invariant Keyed(records) && records == Overlaid(old(records), recovered[..k])
      {
        records := records[recovered[k].id := recovered[k]];
        assert recovered[..k + 1][..k] == recovered[..k];
      }
      assert recovered[..|recovered|] == recovered;
    }
  }

  /** Opens the registry, or refuses a snapshot that cannot be parsed. */
  method Open(codec: Codec, disk: Disk) returns (r: Option<SandboxStore>)
    requires RoundTrips(codec)
    ensures r.Some? <==> Loaded(codec, disk).Some?
    ensures r.Some? ==> fresh(r.value) && r.value.Valid() && r.value.disk == disk && r.value.codec == codec
    ensures r.Some? ==> Some(r.value.records) == Loaded(codec, disk)
  {
    if disk.target.Some? && codec.decode(disk.target.value).None? {
      return None;
    }
    var store := new SandboxStore.Load(codec, disk);
    r := Some(store);
  }

  // ---- runs -----------------------------------------------------------------------------------

  /** A call with how many effects of its snapshot write take place. */
  datatype Call = Mutating(op: Mutation, done: nat) | Reconciling(recovered: seq<Record>, done: nat)

  datatype Process = Process(records: Records, disk: Disk)

  function Outcome(m: Records, call: Call): Option<Records> {
    match call
    case Reconciling(recovered, _) => Some(Reconciled(m, recovered))
    case Mutating(op, _) => if Mutated(m, op).Ok? then Some(Mutated(m, op).value.0) else None
  }

  ghost predicate Called(c: Codec, p: Process, call: Call, p': Process, ok: bool) {
    var next := Outcome(p.records, call);
    if next.None? then p' == p && !ok
    else exists s :: && IsSnapshot(s, next.value)
                     && p' == Process(next.value, WrittenUpTo(p.disk, c.encode(s), call.done))
                     && (ok <==> Completes(c.encode(s), call.done))
  }

  /** A process that has just loaded its registry, and then runs calls, any of whose
      writes may stop anywhere. */
  ghost predicate IsRun(c: Codec, states: seq<Process>, calls: seq<Call>, oks: seq<bool>) {
    && |states| == |calls| + 1 && |oks| == |calls| && RoundTrips(c)
    && Loaded(c, states[0].disk) == Some(states[0].records)
    && forall i :: 0 <= i < |calls| ==> Called(c, states[i], calls[i], states[i + 1], oks[i])
  }

  lemma CallIsDurable(c: Codec, p: Process, call: Call, p': Process, ok: bool)
    requires RoundTrips(c) && Keyed(p.records) && Called(c, p, call, p', ok)
    ensures Keyed(p'.records)
    ensures Loaded(c, p'.disk) == if ok then Some(p'.records) else Loaded(c, p.disk)
  {
    var next := Outcome(p.records, call);
    if next.Some? {
      CallKeepsKeys(p.records, call);
      var s :| && IsSnapshot(s, next.value)
               && p' == Process(next.value, WrittenUpTo(p.disk, c.encode(s), call.done))
               && (ok <==> Completes(c.encode(s), call.done));
      StopsAtOldOrNew(c, p.disk, s, next.value, call.done);
    }
  }

  /** The mutation asks for what the registry holds already. */
  predicate ChangesNothing(m: Records, op: Mutation) {
    && Target(op) in m
    && var record := m[Target(op)];
       match op
       case Update(updated) => updated == record
       case TransitionState(_, from, to) => record.state == from == to
       case SetState(_, to) => record.state == to
       case UpdateEndpoints(_, daemon, http) => record.daemon == daemon && record.daemonHttp == http
       case _ => false
  }

  lemma ChangesNothingExactly(m: Records, op: Mutation)
    requires Mutated(m, op).Ok?
    ensures Mutated(m, op).value.0 == m <==> ChangesNothing(m, op)
  {
    var id, next := Target(op), Mutated(m, op).value.0;
    assert next == m && id in m ==> id in next && next[id] == m[id];
  }

  /** An error does not mean that the mutation did not happen. After one, memory is as it
      was if and only if the mutation was refused or asked for what was there already;
      the snapshot always is. */
  lemma ErrorKeepsMemoryExactly(c: Codec, p: Process, op: Mutation, done: nat, p': Process)
    requires RoundTrips(c) && Keyed(p.records) && Called(c, p, Mutating(op, done), p', false)
    ensures Loaded(c, p'.disk) == Loaded(c, p.disk)
    ensures p'.records == p.records <==> (exists e :: RefusedWith(p.records, op, e)) || ChangesNothing(p.records, op)
  {
    CallIsDurable(c, p, Mutating(op, done), p', false);
    forall e ensures Mutated(p.records, op) == Err(e) <==> RefusedWith(p.records, op, e) {
      RefusedExactly(p.records, op, e);
    }
    if Mutated(p.records, op).Ok? {
      ChangesNothingExactly(p.records, op);
    } else {
      assert RefusedWith(p.records, op, Mutated(p.records, op).error);
    }
  }

  /** For instance a creation in an empty registry whose write does not even begin: it
      answers an error, the sandbox is there, and a restart loses it. */
  lemma UnwrittenCreationIsAnsweredWithError(c: Codec, id: Id, root: string, p': Process, ok: bool)
    requires RoundTrips(c)
    requires Called(c, Process(map[], Disk(None, None)), Mutating(Create(id, root, None, None), 0), p', ok)
    ensures !ok && id in p'.records && Loaded(c, p'.disk) == Some(map[])
  {
  }

  /** Durability over all runs: records stay under their own ids, and whenever the
      process stops, a new one loads the records as they were after some call, and no
      call that succeeded came later. */
  lemma {:induction false} RestartLosesNothingAcknowledged(
    c: Codec, states: seq<Process>, calls: seq<Call>, oks: seq<bool>, n: nat) returns (k: nat)
    requires IsRun(c, states, calls, oks) && n < |states|
    ensures Keyed(states[n].records)
    ensures k <= n && Loaded(c, states[n].disk) == Some(states[k].records)
    ensures forall j :: k <= j < n ==> !oks[j]
  {
    if n == 0 {
      k := 0;
    } else {
      k := RestartLosesNothingAcknowledged(c, states, calls, oks, n - 1);
      CallIsDurable(c, states[n - 1], calls[n - 1], states[n], oks[n - 1]);
      if oks[n - 1] {
        k := n;
      }
    }
  }

  /** The call advances the activity revision of `id`, whether or not it reaches the disk. */
  predicate AdvancesRevision(m: Records, call: Call, id: Id) {
    call.Mutating? && call.op == AdvanceActivityRevision(id) && Mutated(m, call.op).Ok?
  }

  /** The call may put another record under `id`. */
  predicate Replaces(call: Call, id: Id) {
    match call
    case Reconciling(recovered, _) => id in Ids(recovered)
    case Mutating(op, _) => Target(op) == id && (op.Update? || op.Remove?)
  }

  function Advances(states: seq<Process>, calls: seq<Call>, id: Id, i: nat, n: nat): nat
    requires i <= n <= |calls| < |states|
    decreases n
  {
    if n == i then 0
    else Advances(states, calls, id, i, n - 1) + if AdvancesRevision(states[n - 1].records, calls[n - 1], id) then 1 else 0
  }

  /** The parts of a record that only a replacement changes. */
  predicate SameSandbox(a: Record, b: Record) {
    a.id == b.id && a.workspaceRoot == b.workspaceRoot && a.sharedBase == b.sharedBase && a.profile == b.profile
  }

  lemma CallKeepsRevision(m: Records, call: Call, id: Id)
    requires Keyed(m) && id in m && !Replaces(call, id) && Outcome(m, call).Some?
    ensures var next := Outcome(m, call).value;
            && id in next && SameSandbox(next[id], m[id])
            && next[id].activityRevision == m[id].activityRevision + if AdvancesRevision(m, call, id) then 1 else 0
  {
    if call.Mutating? {
      if Target(call.op) == id {
        MutationEffect(m, call.op);
      } else {
        MutationKeepsKeys(m, call.op);
        assert id in m - {Target(call.op)};
      }
    }
  }

  /** Over all runs: as long as no call replaces the record, a sandbox keeps its place and
      its revision counts the calls that advanced it, whatever else changes and wherever
      snapshot writes stop. In particular it never goes back. */
  lemma {:induction false} RevisionCountsAdvances(
    c: Codec, states: seq<Process>, calls: seq<Call>, oks: seq<bool>, id: Id, i: nat, n: nat)
    requires IsRun(c, states, calls, oks) && i <= n < |states| && id in states[i].records
    requires forall k :: i <= k < n ==> !Replaces(calls[k], id)
    ensures id in states[n].records && SameSandbox(states[n].records[id], states[i].records[id])
    ensures states[n].records[id].activityRevision ==
            states[i].records[id].activityRevision + Advances(states, calls, id, i, n)
    decreases n
  {
    if i < n {
      RevisionCountsAdvances(c, states, calls, oks, id, i, n - 1);
      KeysMatchThroughout(c, states, calls, oks, n - 1);
      CalledKeepsRevision(c, states[n - 1], calls[n - 1], states[n], oks[n - 1], id);
    }
  }

  /** Over all runs, from its creation on: a sandbox carries what it was created with, and
      its revision is the number of calls that advanced it. */
  lemma CreatedSandboxCountsAdvances(
    c: Codec, states: seq<Process>, calls: seq<Call>, oks: seq<bool>, op: Mutation, i: nat, n: nat)
    requires IsRun(c, states, calls, oks) && i < n < |states| && calls[i].Mutating? && calls[i].op == op && op.Create?
    requires op.id !in states[i].records && forall k :: i < k < n ==> !Replaces(calls[k], op.id)
    ensures op.id in states[n].records
    ensures var record := states[n].records[op.id];
            && record.workspaceRoot == op.workspaceRoot && record.sharedBase == op.sharedBase && record.profile == op.profile
            && record.activityRevision == Advances(states, calls, op.id, i + 1, n)
  {
    Created(c, states[i], calls[i], states[i + 1], oks[i], op);
    RevisionCountsAdvances(c, states, calls, oks, op.id, i + 1, n);
  }

  lemma Created(c: Codec, p: Process, call: Call, p': Process, ok: bool, op: Mutation)
    requires Called(c, p, call, p', ok) && call.Mutating? && call.op == op && op.Create? && op.id !in p.records
    ensures op.id in p'.records && Answers(p.records, op, p'.records[op.id])
  {
    AnsweredExactly(p.records, op, Mutated(p.records, op).value.1);
  }

  lemma KeysMatchThroughout(c: Codec, states: seq<Process>, calls: seq<Call>, oks: seq<bool>, n: nat)
    requires IsRun(c, states, calls, oks) && n < |states|
    ensures Keyed(states[n].records)
  {
    var _ := RestartLosesNothingAcknowledged(c, states, calls, oks, n);
  }

  lemma CalledKeepsRevision(c: Codec, p: Process, call: Call, p': Process, ok: bool, id: Id)
    requires Keyed(p.records) && id in p.records && !Replaces(call, id) && Called(c, p, call, p', ok)
    ensures id in p'.records && SameSandbox(p'.records[id], p.records[id])
    ensures p'.records[id].activityRevision ==
            p.records[id].activityRevision + if AdvancesRevision(p.records, call, id) then 1 else 0
  {
    if Outcome(p.records, call).Some? {
      CallKeepsRevision(p.records, call, id);
    }
  }

  lemma CallKeepsKeys(m: Records, call: Call)
    requires Keyed(m) && Outcome(m, call).Some?
    ensures Keyed(Outcome(m, call).value)
  {
    match call {
      case Reconciling(recovered, _) => ReconcileKeepsKeys(m, recovered);
      case Mutating(op, _) => MutationKeepsKeys(m, op);
    }
  }
}
