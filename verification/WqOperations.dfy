/** The work queue with every public call taken as one step: what each call does to the keys
    in Redis, and what holds over every run of calls (wq/src/lib.rs). Sorted sets are kept in
    one map from (partition, job) to priority, which is sound because no two partitions share
    a key (`WqKeys.PendingInjective`). Job IDs are numbers: only their order matters. */
module WqOperations {
  import opened Prelude
  import opened WqKeys

  datatype JobDesc = JobDesc(params: string, deadline: int, partition: Partition)

  datatype JobResult = JobResult(status: JobStatus, result: Option<string>)

  datatype Store = Store(
    pending: map<(Partition, JobId), Priority>,
    descs: map<JobId, JobDesc>,
    claims: map<JobId, Claim>,
    results: map<JobId, JobResult>,
    resolved: map<JobId, JobStatus>,
    stats: map<JobStatus, nat>,
    partitions: set<string>)

  function Stat(s: Store, st: JobStatus): nat {
    if st in s.stats then s.stats[st] else 0
  }

  datatype Error = JobCancelled | WorkerMismatch | InvalidJobStatus | InvalidPartition | NotOwner | Redis

  /** What the resolve callback does, if there is one. */
  datatype Callback = NoCallback | Processed(remove: bool) | Failed {
    function FinalStatus(status: JobStatus): JobStatus {
      if Failed? then InternalError else status
    }

    predicate Cleans() {
      Failed? || (Processed? && remove)
    }
  }

  // Enqueue -----------------------------------------------------------------------------

  function Enqueue(s: Store, id: JobId, p: Partition, params: string, priority: Priority, deadline: int): Store {
    s.(descs := s.descs[id := JobDesc(params, deadline, p)],
       partitions := if p.Some? then s.partitions + {p.value} else s.partitions,
       pending := s.pending[(p, id) := priority])
  }

  // Claim -------------------------------------------------------------------------------

  /** The order of a sorted set: by score, then by member. */
  predicate Before(pa: Priority, a: JobId, pb: Priority, b: JobId) {
    pa.Score() < pb.Score() || (pa == pb && a < b)
  }

  ghost predicate IsFirst(s: Store, p: Partition, id: JobId) {
    && (p, id) in s.pending
    && forall other :: (p, other) in s.pending && other != id ==>
         Before(s.pending[(p, id)], id, s.pending[(p, other)], other)
  }

  ghost predicate NonePending(s: Store, p: Partition) {
    forall id :: (p, id) !in s.pending
  }

  function PopPending(s: Store, p: Partition, id: JobId): Store {
    s.(pending := s.pending - {(p, id)})
  }

  /** `None` for a job without a description, and for one in the default partition. */
  function DescPartition(s: Store, id: JobId): Partition {
    if id in s.descs then s.descs[id].partition else None
  }

  function Cancel(s: Store, id: JobId): Store {
    s.(pending := s.pending - {(DescPartition(s, id), id)},
       descs := s.descs - {id},
       claims := s.claims - {id})
  }

  datatype ClaimOutcome = Handed(id: JobId, params: string) | Nothing | Broken(id: JobId)

  /** One turn of the claim loop on the first job of the partition. */
  function Take(s: Store, p: Partition, id: JobId, worker: string, now: int): (r: (Store, Option<ClaimOutcome>))
    requires (p, id) in s.pending
  {
    var popped := PopPending(s, p, id);
    if id !in s.descs then (popped, Some(Broken(id)))
    else if now > s.descs[id].deadline then (Cancel(popped, id), None)
    else
      (popped.(claims := popped.claims[id := Claim(id, s.pending[(p, id)], worker, now, p)]),
       Some(Handed(id, s.descs[id].params)))
  }

  /** What `claim_job_in` ends with; `late` are the jobs past their deadline that it cancels on
      the way. */
  ghost predicate Claims(s: Store, p: Partition, worker: string, now: int,
                         s': Store, out: ClaimOutcome, late: set<JobId>)
    decreases |s.pending|
  {
    if NonePending(s, p) then s' == s && out == Nothing && late == {}
    else exists id :: IsFirst(s, p, id) && ClaimsFirst(s, p, id, worker, now, s', out, late)
  }

  ghost predicate ClaimsFirst(s: Store, p: Partition, id: JobId, worker: string, now: int,
                              s': Store, out: ClaimOutcome, late: set<JobId>)
    requires (p, id) in s.pending
    decreases |s.pending|, 0
  {
    var (next, done) := Take(s, p, id, worker, now);
    PendingShrinks(s, p, id, worker, now);
    if done.Some? then s' == next && out == done.value && late == {}
    else id in late && Claims(next, p, worker, now, s', out, late - {id})
  }

  lemma PendingShrinks(s: Store, p: Partition, id: JobId, worker: string, now: int)
    requires (p, id) in s.pending
    ensures |Take(s, p, id, worker, now).0.pending| < |s.pending|
  {
    var next := Take(s, p, id, worker, now).0;
    assert (p, id) !in next.pending && next.pending.Keys <= s.pending.Keys - {(p, id)};
    SubsetCardinality(next.pending.Keys, s.pending.Keys - {(p, id)});
    assert |s.pending.Keys - {(p, id)}| == |s.pending.Keys| - 1;
  }

  // Reclaim, resolve, delete ------------------------------------------------------------

  function Reclaim(s: Store, id: JobId, worker: string, now: int): (Store, Result<(), Error>) {
    if id !in s.claims then (s, Err(JobCancelled))
    else if s.claims[id].workerId != worker then (s, Err(NotOwner))
    else (s.(claims := s.claims[id := s.claims[id].(time := now)]), Ok(()))
  }

  function Resolve(s: Store, id: JobId, worker: string, status: JobStatus, result: Option<string>, cb: Callback)
    : (Store, Result<(), Error>)
  {
    if !status.IsResolved() then (s, Err(InvalidJobStatus))
    else if id !in s.claims then (s, Err(JobCancelled))
    else if s.claims[id].workerId != worker then (s, Err(WorkerMismatch))
    else if id !in s.descs then (s, Err(Redis))
    else
      var final := cb.FinalStatus(status);
      (s.(claims := s.claims - {id},
          results := if cb.Cleans() then s.results - {id} else s.results[id := JobResult(final, result)],
          descs := if cb.Cleans() then s.descs - {id} else s.descs,
          resolved := s.resolved[id := final],
          stats := s.stats[final := Stat(s, final) + 1]), Ok(()))
  }

  function DeleteResult(s: Store, id: JobId): Store {
    s.(results := s.results - {id}, descs := s.descs - {id})
  }

  // The expiry checker ------------------------------------------------------------------

  ghost function ExpiredIds(s: Store, now: int, timeout: nat): set<JobId> {
    set id | id in s.claims && TooOld(s.claims[id], now, timeout)
  }

  /** One pass over a listing of the claims: every expired one goes back to the partition and
      the score it has recorded. */
  ghost function Pass(s: Store, now: int, timeout: nat): Store {
    Reinsert(s, ExpiredIds(s, now, timeout))
  }

  ghost function Reinsert(s: Store, ids: set<JobId>): Store
    requires ids <= s.claims.Keys
  {
    var back := set id | id in ids :: (s.claims[id].partition, id);
    s.(pending := map k: (Partition, JobId) | k in s.pending.Keys + back ::
                    if k in back then s.claims[k.1].priority else s.pending[k],
       claims := s.claims - ids)
  }

  // Runs --------------------------------------------------------------------------------

  datatype Op =
    | DoEnqueue(id: JobId, p: Partition, params: string, priority: Priority, deadline: int)
    | DoClaim(p: Partition, worker: string)
    | DoReclaim(id: JobId, worker: string)
    | DoResolve(id: JobId, worker: string, status: JobStatus, result: Option<string>, cb: Callback)
    | DoCancel(id: JobId)
    | DoDeleteResult(id: JobId)
    | DoPass
    | DoForget(id: JobId)

  /** What happened so far, which Redis does not keep: the jobs enqueued and what was asked for
      each, how those that were resolved ended, those that were cancelled before that, and what the
      last call gave. */
  datatype Run = Run(
    store: Store,
    enqueued: map<JobId, (Partition, Priority)>,
    asked: map<JobId, JobDesc>,
    outcomes: map<JobId, JobStatus>,
    cancelled: set<JobId>,
    last: ClaimOutcome)

  /** Pending in the partition it was enqueued in; `Placed` says that there is no other. */
  predicate IsPending(r: Run, id: JobId) {
    id in r.enqueued && (r.enqueued[id].0, id) in r.store.pending
  }

  predicate Live(r: Run, id: JobId) {
    IsPending(r, id) || id in r.store.claims
  }

  function Start(): Run {
    Run(Store(map[], map[], map[], map[], map[], map[], {}), map[], map[], map[], {}, Nothing)
  }

  ghost predicate DoesClaim(r: Run, p: Partition, worker: string, now: int, r': Run, late: set<JobId>) {
    && Claims(r.store, p, worker, now, r'.store, r'.last, late)
    && r' == r.(store := r'.store, last := r'.last, cancelled := r.cancelled + late)
  }

  /** `op`, made at `now`, takes `r` to `r'`. IDs are made increasing (section 5.7 of RFC
      9562), and results are only deleted for resolved jobs. */
  ghost predicate Step(r: Run, op: Op, now: int, timeout: nat, r': Run) {
    match op
    case DoEnqueue(id, p, params, priority, deadline) =>
      && (forall prior :: prior in r.enqueued ==> prior < id)
      && r' == r.(store := Enqueue(r.store, id, p, params, priority, deadline),
                  enqueued := r.enqueued[id := (p, priority)],
                  asked := r.asked[id := JobDesc(params, deadline, p)], last := Nothing)
    case DoClaim(p, worker) =>
      exists late :: DoesClaim(r, p, worker, now, r', late)
    case DoReclaim(id, worker) =>
      r' == r.(store := Reclaim(r.store, id, worker, now).0, last := Nothing)
    case DoResolve(id, worker, status, result, cb) =>
      var (store, out) := Resolve(r.store, id, worker, status, result, cb);
      r' == r.(store := store, last := Nothing,
               outcomes := if out.Ok? then r.outcomes[id := cb.FinalStatus(status)] else r.outcomes)
    case DoCancel(id) =>
      r' == r.(store := Cancel(r.store, id), last := Nothing,
               cancelled := if Live(r, id) then r.cancelled + {id} else r.cancelled)
    case DoDeleteResult(id) =>
      && id in r.outcomes
      && r' == r.(store := DeleteResult(r.store, id), last := Nothing)
    case DoPass =>
      r' == r.(store := Pass(r.store, now, timeout), last := Nothing)
    case DoForget(id) =>
      r' == r.(store := r.store.(resolved := r.store.resolved - {id}), last := Nothing)
  }

  function Places(r: Run, id: JobId): nat {
    One(IsPending(r, id)) + One(id in r.store.claims) + One(id in r.outcomes) + One(id in r.cancelled)
  }

  /** A job is where it was enqueued, under its priority, whichever key mentions it. */
  ghost predicate Placed(r: Run, id: JobId) {
    && (forall p :: (p, id) in r.store.pending ==>
          id in r.enqueued && r.enqueued[id] == (p, r.store.pending[(p, id)]))
    && (id in r.store.claims ==>
          && r.store.claims[id].jobId == id
          && id in r.enqueued && r.enqueued[id] == (r.store.claims[id].partition, r.store.claims[id].priority))
    && (id in r.asked <==> id in r.enqueued)
    && (id in r.asked ==> r.asked[id].partition == r.enqueued[id].0)
    && (id in r.store.descs ==> id in r.asked && r.store.descs[id] == r.asked[id])
    && (Live(r, id) ==> id in r.store.descs)
    && (id in r.enqueued && r.enqueued[id].0.Some? ==> r.enqueued[id].0.value in r.store.partitions)
  }

  /** An enqueued job is in exactly one place, and no other job is anywhere. */
  predicate Conserved(r: Run, id: JobId) {
    Places(r, id) == One(id in r.enqueued)
  }

  /** What is readable of how a job ended is how it ended. */
  predicate Reported(r: Run, id: JobId) {
    && (id in r.outcomes ==> r.outcomes[id].IsResolved())
    && (id in r.store.results ==> id in r.outcomes && r.outcomes[id] == r.store.results[id].status)
    && (id in r.store.resolved ==> id in r.outcomes && r.outcomes[id] == r.store.resolved[id])
  }

  ghost predicate JobOk(r: Run, id: JobId) {
    Placed(r, id) && Conserved(r, id) && Reported(r, id)
  }

  function EndedAs(r: Run, st: JobStatus): set<JobId> {
    set id | id in r.outcomes && r.outcomes[id] == st
  }

  predicate Tallied(r: Run, st: JobStatus) {
    Stat(r.store, st) == |EndedAs(r, st)|
  }

  ghost predicate Inv(r: Run) {
    && (forall id :: JobOk(r, id))
    && (forall st: JobStatus :: Tallied(r, st))
  }
}
