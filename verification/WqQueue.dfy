/** The work queue as an object over the keys it owns in Redis (wq/src/lib.rs). Each method is
    proved against the step of the same name in `WqOperations`. */
module WqQueue {
  import opened Prelude
  import opened WqKeys
  import opened WqOperations

  datatype QueueStats = QueueStats(failed: nat, succeeded: nat, errored: nat, scheduled: nat, claimed: nat)

  /** A claim begun at `start` has cancelled `late` and is now at `s`: however it goes on from
      there, that is a way for the whole claim to go. */
  ghost predicate OnTheWay(start: Store, p: Partition, worker: string, now: int, s: Store, late: set<JobId>) {
    forall s', out, more: set<JobId> ::
      more !! late && Claims(s, p, worker, now, s', out, more) ==>
        Claims(start, p, worker, now, s', out, late + more)
  }

  lemma SetOut(start: Store, p: Partition, worker: string, now: int)
    ensures OnTheWay(start, p, worker, now, start, {})
  {
    assert forall more: set<JobId> :: {} + more == more;
  }

  lemma PrependLate(s: Store, p: Partition, id: JobId, worker: string, now: int,
                    s': Store, out: ClaimOutcome, more: set<JobId>)
    requires IsFirst(s, p, id) && Take(s, p, id, worker, now).1.None? && id !in more
    requires Claims(Take(s, p, id, worker, now).0, p, worker, now, s', out, more)
    ensures Claims(s, p, worker, now, s', out, more + {id})
  {
    PendingShrinks(s, p, id, worker, now);
    assert more + {id} - {id} == more;
    assert ClaimsFirst(s, p, id, worker, now, s', out, more + {id});
  }

  lemma CancelOneLate(start: Store, p: Partition, worker: string, now: int, s: Store, late: set<JobId>, id: JobId)
    requires OnTheWay(start, p, worker, now, s, late) && id !in late
    requires IsFirst(s, p, id) && Take(s, p, id, worker, now).1.None?
    ensures OnTheWay(start, p, worker, now, Take(s, p, id, worker, now).0, late + {id})
  {
    var next := Take(s, p, id, worker, now).0;
    forall s', out, more: set<JobId> | more !! late + {id} && Claims(next, p, worker, now, s', out, more)
      ensures Claims(start, p, worker, now, s', out, late + {id} + more)
    {
      PrependLate(s, p, id, worker, now, s', out, more);
      Shift(start, p, worker, now, s, late, s', out, more, id);
    }
  }

  lemma Shift(start: Store, p: Partition, worker: string, now: int, s: Store, late: set<JobId>,
              s': Store, out: ClaimOutcome, more: set<JobId>, id: JobId)
    requires OnTheWay(start, p, worker, now, s, late) && more + {id} !! late
    requires Claims(s, p, worker, now, s', out, more + {id})
    ensures Claims(start, p, worker, now, s', out, late + {id} + more)
  {
    assert late + {id} + more == late + (more + {id});
  }

  lemma Arrive(start: Store, p: Partition, worker: string, now: int, s: Store, late: set<JobId>,
               s': Store, out: ClaimOutcome)
    requires OnTheWay(start, p, worker, now, s, late) && Claims(s, p, worker, now, s', out, {})
    ensures Claims(start, p, worker, now, s', out, late)
  {
    assert late + {} == late;
  }

  /** Putting one more expired claim back. */
  lemma ReinsertOne(s: Store, done: set<JobId>, id: JobId)
    requires id in s.claims && done <= s.claims.Keys && id !in done
    ensures var was := Reinsert(s, done); var c := s.claims[id];
      Reinsert(s, done + {id}) == was.(pending := was.pending[(c.partition, id) := c.priority],
                                       claims := was.claims - {id})
  {
    var was, next, c := Reinsert(s, done), Reinsert(s, done + {id}), s.claims[id];
    assert next.pending == was.pending[(c.partition, id) := c.priority];
    assert next.claims == was.claims - {id};
  }

  function InPartition(s: Store, p: Partition): set<JobId> {
    set k | k in s.pending && k.0 == p :: k.1
  }

  class WorkQueue {
    const keys: Keys
    const reclaimTimeout: nat
    var pending: map<(Partition, JobId), Priority>
    var descs: map<JobId, JobDesc>
    var claims: map<JobId, Claim>
    var results: map<JobId, JobResult>
    var resolved: map<JobId, JobStatus>
    var stats: map<JobStatus, nat>
    var partitions: set<string>

    function Contents(): Store
      reads this
    {
      Store(pending, descs, claims, results, resolved, stats, partitions)
    }

    constructor (keys: Keys, reclaimTimeout: nat)
      ensures Contents() == Store(map[], map[], map[], map[], map[], map[], {})
      ensures this.keys == keys && this.reclaimTimeout == reclaimTimeout
    {
      this.keys, this.reclaimTimeout := keys, reclaimTimeout;
      pending, descs, claims, results, resolved, stats, partitions := map[], map[], map[], map[], map[], map[], {};
    }

    /** `id` is the identifier drawn for the job. */
    method EnqueueJobIn(partition: Option<string>, params: string, priority: Priority, deadline: int, id: JobId)
      returns (r: Result<JobId, Error>)
      modifies this
      ensures r == if keys.Normalize(partition).Ok? then Ok(id) else Err(Error.InvalidPartition)
      ensures Contents() == if r.Ok?
                then Enqueue(old(Contents()), id, keys.Normalize(partition).value, params, priority, deadline)
                else old(Contents())
    {
      var normalized := keys.Normalize(partition);
      if normalized.Err? {
        return Err(Error.InvalidPartition);
      }
      var p := normalized.value;
      descs := descs[id := JobDesc(params, deadline, p)];
      if p.Some? {
        partitions := partitions + {p.value};
      }
      pending := pending[(p, id) := priority];
      return Ok(id);
    }

    /** `ZPOPMIN`: takes the first member of a sorted set, if it has one. */
    method PopMin(p: Partition) returns (first: Option<(JobId, Priority)>)
      modifies this`pending
      ensures first.None? ==> NonePending(old(Contents()), p) && pending == old(pending)
      ensures first.Some? ==>
                && IsFirst(old(Contents()), p, first.value.0)
                && first.value.1 == old(pending)[(p, first.value.0)]
                && Contents() == PopPending(old(Contents()), p, first.value.0)
    {
      var todo := InPartition(Contents(), p);
      first := None;
      while todo != {}
        invariant pending == old(pending)
        invariant todo <= InPartition(Contents(), p)
        invariant first.None? ==> todo == InPartition(Contents(), p)
        invariant first.Some? ==>
                    && (p, first.value.0) in pending && first.value.1 == pending[(p, first.value.0)]
                    && forall id :: (p, id) in pending && id !in todo && id != first.value.0 ==>
                         Before(first.value.1, first.value.0, pending[(p, id)], id)
        decreases todo
      {
        var id :| id in todo;
        todo := todo - {id};
        if first.None? || Before(pending[(p, id)], id, first.value.1, first.value.0) {
          first := Some((id, pending[(p, id)]));
        }
      }
      if first.Some? {
        pending := pending - {(p, first.value.0)};
      } else {
        forall id ensures (p, id) !in pending {
          assert (p, id) in pending ==> id in InPartition(Contents(), p);
        }
      }
    }

    method ClaimJobIn(partition: Option<string>, worker: string, now: int)
      returns (r: Result<ClaimOutcome, Error>, ghost late: set<JobId>)
      modifies this
      ensures r.Ok? <==> keys.Normalize(partition).Ok?
      ensures r.Err? ==> r.error == Error.InvalidPartition && Contents() == old(Contents())
      ensures r.Ok? ==>
                Claims(old(Contents()), keys.Normalize(partition).value, worker, now, Contents(), r.value, late)
    {
      late := {};
      var normalized := keys.Normalize(partition);
      if normalized.Err? {
        return Err(Error.InvalidPartition), late;
      }
      var p := normalized.value;
      SetOut(Contents(), p, worker, now);
      while true
        invariant forall id :: id in late ==> (p, id) !in pending
        invariant OnTheWay(old(Contents()), p, worker, now, Contents(), late)
        decreases |pending|
      {
        ghost var before := Contents();
        var first := PopMin(p);
        if first.None? {
          Arrive(old(Contents()), p, worker, now, before, late, before, Nothing);
          return Ok(Nothing), late;
        }
        var (id, priority) := first.value;
        PendingShrinks(before, p, id, worker, now);
        if id in descs && now > descs[id].deadline {
          CancelJob(id);
          CancelOneLate(old(Contents()), p, worker, now, before, late, id);
          late := late + {id};
        } else {
          r := Ok(Broken(id));
          if id in descs {
            claims := claims[id := Claim(id, priority, worker, now, p)];
            r := Ok(Handed(id, descs[id].params));
          }
          ghost var after := Contents();
          assert (after, Some(r.value)) == Take(before, p, id, worker, now);
          assert ClaimsFirst(before, p, id, worker, now, after, r.value, {});
          Arrive(old(Contents()), p, worker, now, before, late, after, r.value);
          return;
        }
      }
    }

    method CancelJob(id: JobId)
      modifies this
      ensures Contents() == Cancel(old(Contents()), id)
    {
      var partition := if id in descs then descs[id].partition else None;
      pending := pending - {(partition, id)};
      descs := descs - {id};
      claims := claims - {id};
    }

    method ReclaimJob(id: JobId, worker: string, now: int) returns (r: Result<(), Error>)
      modifies this
      ensures (Contents(), r) == Reclaim(old(Contents()), id, worker, now)
    {
      if id !in claims {
        return Err(JobCancelled);
      }
      var claim := claims[id];
      if worker != claim.workerId {
        return Err(NotOwner);
      }
      claims := claims[id := claim.(time := now)];
      return Ok(());
    }

    method ResolveJob(worker: string, id: JobId, status: JobStatus, result: Option<string>, callback: Callback)
      returns (r: Result<(), Error>)
      modifies this
      ensures (Contents(), r) == Resolve(old(Contents()), id, worker, status, result, callback)
    {
      if !status.IsResolved() {
        return Err(InvalidJobStatus);
      }
      if id !in claims {
        return Err(JobCancelled);
      }
      if claims[id].workerId != worker {
        return Err(WorkerMismatch);
      }
      if id !in descs {
        return Err(Redis);
      }
      ghost var s := Contents();
      claims := claims - {id};
      var shouldCleanup, finalStatus := false, status;
      match callback {
        case NoCallback =>
        case Processed(remove) => shouldCleanup := remove;
        case Failed => shouldCleanup, finalStatus := true, InternalError;
      }
      assert finalStatus == callback.FinalStatus(status) && shouldCleanup == callback.Cleans();
      RecordOutcome(id, finalStatus, result, shouldCleanup);
      return Ok(());
    }

    /** The result, the short-lived status and the counter, and then the cleanup. */
    method RecordOutcome(id: JobId, finalStatus: JobStatus, result: Option<string>, shouldCleanup: bool)
      modifies this
      ensures var s := old(Contents());
        Contents() == s.(
          results := if shouldCleanup then s.results - {id} else s.results[id := JobResult(finalStatus, result)],
          descs := if shouldCleanup then s.descs - {id} else s.descs,
          resolved := s.resolved[id := finalStatus],
          stats := s.stats[finalStatus := Stat(s, finalStatus) + 1])
    {
      ghost var s := Contents();
      stats := stats[finalStatus := Stat(Contents(), finalStatus) + 1];
      results := results[id := JobResult(finalStatus, result)];
      resolved := resolved[id := finalStatus];
      if shouldCleanup {
        descs := descs - {id};
        results := results - {id};
        assert results == s.results - {id};
      }
    }

    method DeleteJobResult(id: JobId)
      modifies this
      ensures Contents() == DeleteResult(old(Contents()), id)
    {
      results := results - {id};
      descs := descs - {id};
    }

    /** One pass of the expiry checker over a listing of the claims. */
    method ReclaimPass(now: int)
      requires forall id :: id in claims ==> claims[id].jobId == id
      modifies this
      ensures Contents() == Pass(old(Contents()), now, reclaimTimeout)
    {
      var listing := claims;
      var todo := listing.Keys;
      ghost var done: set<JobId> := {};
      assert Reinsert(old(Contents()), {}).pending == old(pending);
      assert Reinsert(old(Contents()), {}).claims == old(claims);
      while todo != {}
        invariant todo <= listing.Keys && todo !! done
        invariant done == ExpiredIds(old(Contents()), now, reclaimTimeout) - todo
        invariant Contents() == Reinsert(old(Contents()), done)
        decreases todo
      {
        var key :| key in todo;
        var claim := listing[key];
        todo := todo - {key};
        if TooOld(claim, now, reclaimTimeout) {
          ReinsertOne(old(Contents()), done, key);
          pending := pending[(claim.partition, claim.jobId) := claim.priority];
          claims := claims - {claim.jobId};
          done := done + {key};
        }
      }
    }

    method GetJobStatus(id: JobId) returns (status: Option<JobStatus>)
      ensures status.Some? <==> id in results || id in claims || id in descs
      ensures id in results ==> status == Some(results[id].status)
      ensures id !in results && id in claims ==> status == Some(Running)
      ensures id !in results && id !in claims && id in descs ==> status == Some(JobStatus.Pending)
    {
      if id in results {
        return Some(results[id].status);
      }
      if id in claims {
        return Some(Running);
      }
      return if id in descs then Some(JobStatus.Pending) else None;
    }

    /** The scheduled jobs are counted one recorded partition at a time; none is missed. */
    method GetStats() returns (r: QueueStats)
      requires forall k :: k in pending && k.0.Some? ==> k.0.value in partitions
      ensures r == QueueStats(Stat(Contents(), Failure), Stat(Contents(), Success), Stat(Contents(), InternalError),
                              |pending|, |claims|)
    {
      var scheduled := |InPartition(Contents(), None)|;
      var todo := partitions;
      ghost var counted := set k | k in pending && k.0 == None;
      CountsPartition(None);
      while todo != {}
        invariant todo <= partitions
        invariant counted == set k | k in pending && (k.0 == None || k.0.value !in todo)
        invariant scheduled == |counted|
        decreases todo
      {
        var p :| p in todo;
        CountsPartition(Some(p));
        ghost var here := set k | k in pending && k.0 == Some(p);
        assert counted !! here;
        todo := todo - {p};
        scheduled := scheduled + |InPartition(Contents(), Some(p))|;
        counted := counted + here;
      }
      assert counted == pending.Keys;
      r := QueueStats(Stat(Contents(), Failure), Stat(Contents(), Success), Stat(Contents(), InternalError),
                      scheduled, |claims|);
    }

    lemma CountsPartition(p: Partition)
      ensures |InPartition(Contents(), p)| == |set k | k in pending && k.0 == p|
    {
      var entries := set k | k in pending && k.0 == p;
      var ids := InPartition(Contents(), p);
      PairsWithFirst(p, ids, entries);
    }
  }

  lemma {:induction false} PairsWithFirst(p: Partition, ids: set<JobId>, entries: set<(Partition, JobId)>)
    requires forall id :: id in ids <==> (p, id) in entries
    requires forall e :: e in entries ==> e.0 == p
    ensures |ids| == |entries|
    decreases |ids|
  {
    if ids == {} {
      assert forall e :: e in entries ==> e == (p, e.1) && e.1 in ids;
    } else {
      var id :| id in ids;
      PairsWithFirst(p, ids - {id}, entries - {(p, id)});
    }
  }
}
