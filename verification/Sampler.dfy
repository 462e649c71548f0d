/** The resource sampler against sandbox removal, as all interleavings of sampler
    threads, removals and state changes around the ring lock. */
module Sampler {
  import opened RingCodec
  import opened RingStore

  type Thread = nat

  /** Who holds the ring lock. An appender has evaluated its eligibility under it. */
  datatype Holder =
    | Free
    | Appending(thread: Thread, id: Id, sample: Sample, eligible: bool)
    | Removing(id: Id)

  datatype State = State(ready: set<Id>, holder: Holder, store: Store, batches: map<Thread, seq<(Id, Sample)>>)

  datatype Step =
    | Enter(id: Id)                                          // a sandbox becomes ready
    | Leave(id: Id)                                          // a sandbox leaves Ready
    | Batch(thread: Thread, samples: seq<(Id, Sample)>)      // ready_ids, then the metrics read
    | BeginAppend(thread: Thread)                            // lock, then eligible()
    | EndAppend(thread: Thread)                              // write and cache if eligible, unlock
    | BeginRemove(id: Id)                                    // lock
    | EndRemove(id: Id)                                      // delete file and cache entry, unlock
    | ReadOnce(op: Op)                                       // a window or latest read under the lock

  ghost predicate Next(s: State, step: Step, s': State) {
    match step
    case Enter(id) => s' == s.(ready := s.ready + {id})
    case Leave(id) => s' == s.(ready := s.ready - {id})
    case Batch(t, samples) =>
      && (forall i :: 0 <= i < |samples| ==> samples[i].0 in s.ready)
      && s' == s.(batches := s.batches[t := samples])
    case BeginAppend(t) =>
      && s.holder.Free? && t in s.batches && s.batches[t] != []
      && var (id, sample) := s.batches[t][0];
         s' == s.(holder := Appending(t, id, sample, id in s.ready), batches := s.batches[t := s.batches[t][1..]])
    case EndAppend(t) =>
      && s.holder.Appending? && s.holder.thread == t
      && s' == s.(holder := Free,
                  store := Cached(s.store, AppendIf(s.holder.id, s.holder.sample, s.holder.eligible)).0)
    case BeginRemove(id) => s.holder.Free? && s' == s.(holder := Removing(id))
    case EndRemove(id) =>
      && s.holder == Removing(id)
      && s' == s.(holder := Free, store := Cached(s.store, Remove(id)).0)
    case ReadOnce(op) =>
      && s.holder.Free? && (op.ReadWindow? || op.ReadLatest?)
      && s' == s.(store := Cached(s.store, op).0)
  }

  ghost predicate IsRun(states: seq<State>, steps: seq<Step>) {
    |states| == |steps| + 1 && forall i :: 0 <= i < |steps| ==> Next(states[i], steps[i], states[i + 1])
  }

  /** Nothing of `id` is stored, and no one holding the lock is about to store any. */
  ghost predicate Gone(s: State, id: Id) {
    && id !in s.store.files && id !in s.store.latest
    && !(s.holder.Appending? && s.holder.id == id && s.holder.eligible)
  }

  /** Only an append makes a ring or a cache entry. */
  lemma NothingAppears(st: Store, op: Op, id: Id)
    requires id !in st.files && id !in st.latest && !op.Append?
    requires op.AppendIf? && op.id == id ==> !op.eligible
    ensures id !in Cached(st, op).0.files && id !in Cached(st, op).0.latest
  {
  }

  lemma GoneStaysGone(s: State, step: Step, s': State, id: Id)
    requires Next(s, step, s') && Gone(s, id) && id !in s.ready
    ensures Gone(s', id)
  {
    match step {
      case EndAppend(_) => NothingAppears(s.store, AppendIf(s.holder.id, s.holder.sample, s.holder.eligible), id);
      case EndRemove(removed) => NothingAppears(s.store, Remove(removed), id);
      case ReadOnce(op) => NothingAppears(s.store, op, id);
      case _ =>
    }
  }

  /** In every run: if the removal of `id` ends with step `k`, and `id` is not ready
      in any state from there on, then no ring file and no cache entry for `id`
      exists in any later state, whatever batches the samplers still carry. */
  lemma {:induction false} RemovedStaysRemoved(states: seq<State>, steps: seq<Step>, id: Id, k: nat, n: nat)
    requires IsRun(states, steps) && k < n < |states|
    requires steps[k] == EndRemove(id)
    requires forall i :: k < i < |states| ==> id !in states[i].ready
    ensures Gone(states[n], id)
  {
    assert Next(states[n - 1], steps[n - 1], states[n]);
    if n > k + 1 {
      RemovedStaysRemoved(states, steps, id, k, n - 1);
      GoneStaysGone(states[n - 1], steps[n - 1], states[n], id);
    } else {
      RemovedIsGone(states[k], states[n], id);
    }
  }

  lemma RemovedIsGone(s: State, s': State, id: Id)
    requires Next(s, EndRemove(id), s')
    ensures Gone(s', id)
  {
  }
}
