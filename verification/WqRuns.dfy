/** What holds over every run of work queue calls: conservation, at-most-once resolution, the
    statistics, the order jobs are handed out in, and how long a claim lasts. */
module WqRuns {
  import opened Prelude
  import opened WqKeys
  import opened WqOperations

  // Each call keeps the invariant ---------------------------------------------------------

  lemma EnqueueKeeps(r: Run, id: JobId, p: Partition, params: string, priority: Priority, deadline: int,
                     now: int, timeout: nat, r': Run)
    requires Inv(r) && Step(r, DoEnqueue(id, p, params, priority, deadline), now, timeout, r')
    ensures Inv(r')
  {
    forall x ensures JobOk(r', x) { assert JobOk(r, x); }
    SameTally(r, r');
  }

  lemma SameTally(r: Run, r': Run)
    requires forall st :: Tallied(r, st)
    requires r'.outcomes == r.outcomes && r'.store.stats == r.store.stats
    ensures forall st :: Tallied(r', st)
  {
    forall st ensures Tallied(r', st) { assert Tallied(r, st) && EndedAs(r', st) == EndedAs(r, st); }
  }

  lemma CancelKeeps(r: Run, id: JobId, now: int, timeout: nat, r': Run)
    requires Inv(r) && Step(r, DoCancel(id), now, timeout, r')
    ensures Inv(r')
  {
    forall x ensures JobOk(r', x) { assert JobOk(r, x) && JobOk(r, id); }
    SameTally(r, r');
  }

  predicate HandsOver(out: ClaimOutcome, id: JobId) { out.Handed? && out.id == id }

  /** One turn of the claim loop hands the job over or cancels it; it never loses it. */
  lemma TakeKeeps(r: Run, p: Partition, id: JobId, worker: string, now: int) returns (r': Run)
    requires Inv(r) && (p, id) in r.store.pending
    ensures Inv(r') && r'.store == Take(r.store, p, id, worker, now).0
    ensures Take(r.store, p, id, worker, now).1.Some? ==> r' == r.(store := r'.store)
    ensures Take(r.store, p, id, worker, now).1 == None ==>
              r' == r.(store := r'.store, cancelled := r.cancelled + {id})
    ensures var out := Take(r.store, p, id, worker, now).1; out.None? || HandsOver(out.value, id)
  {
    var (next, done) := Take(r.store, p, id, worker, now);
    r' := r.(store := next, cancelled := if done.None? then r.cancelled + {id} else r.cancelled);
    assert JobOk(r, id);
    forall x ensures JobOk(r', x) { assert JobOk(r, x); }
    SameTally(r, r');
  }

  lemma {:induction false} ClaimKeeps(r: Run, p: Partition, worker: string, now: int, r': Run, late: set<JobId>)
    requires Inv(r) && DoesClaim(r, p, worker, now, r', late)
    ensures Inv(r') && !r'.last.Broken?
    decreases |r.store.pending|
  {
    if NonePending(r.store, p) {
      assert r' == r.(last := r'.last);
      SameButLast(r, r');
    } else {
      var id :| IsFirst(r.store, p, id) && ClaimsFirst(r.store, p, id, worker, now, r'.store, r'.last, late);
      ClaimFirstKeeps(r, p, id, worker, now, r', late);
    }
  }

  lemma {:induction false} ClaimFirstKeeps(r: Run, p: Partition, id: JobId, worker: string, now: int,
                                           r': Run, late: set<JobId>)
    requires Inv(r) && (p, id) in r.store.pending
    requires ClaimsFirst(r.store, p, id, worker, now, r'.store, r'.last, late)
    requires r' == r.(store := r'.store, last := r'.last, cancelled := r.cancelled + late)
    ensures Inv(r') && !r'.last.Broken?
    decreases |r.store.pending|, 0
  {
    var next := TakeKeeps(r, p, id, worker, now);
    if Take(r.store, p, id, worker, now).1.Some? {
      assert r'.cancelled == r.cancelled;
      SameButLast(next, r');
    } else {
      PendingShrinks(r.store, p, id, worker, now);
      AfterLate(r, next, p, id, worker, now, r', late);
      ClaimKeeps(next, p, worker, now, r', late - {id});
    }
  }

  lemma AfterLate(r: Run, next: Run, p: Partition, id: JobId, worker: string, now: int, r': Run, late: set<JobId>)
    requires (p, id) in r.store.pending
    requires ClaimsFirst(r.store, p, id, worker, now, r'.store, r'.last, late)
    requires r' == r.(store := r'.store, last := r'.last, cancelled := r.cancelled + late)
    requires Take(r.store, p, id, worker, now) == (next.store, None)
    requires next == r.(store := next.store, cancelled := r.cancelled + {id})
    ensures DoesClaim(next, p, worker, now, r', late - {id})
  {
    assert r.cancelled + late == next.cancelled + (late - {id});
  }

  lemma SameButLast(r: Run, r': Run)
    requires Inv(r) && r' == r.(last := r'.last)
    ensures Inv(r')
  {
    forall x ensures JobOk(r', x) { assert JobOk(r, x); }
    SameTally(r, r');
  }

  lemma ReclaimKeeps(r: Run, id: JobId, worker: string, now: int, timeout: nat, r': Run)
    requires Inv(r) && Step(r, DoReclaim(id, worker), now, timeout, r')
    ensures Inv(r')
  {
    forall x ensures JobOk(r', x) { assert JobOk(r, x); }
    SameTally(r, r');
  }

  lemma ResolveKeeps(r: Run, id: JobId, worker: string, status: JobStatus, result: Option<string>,
                     cb: Callback, now: int, timeout: nat, r': Run)
    requires Inv(r) && Step(r, DoResolve(id, worker, status, result, cb), now, timeout, r')
    ensures Inv(r')
  {
    if Resolve(r.store, id, worker, status, result, cb).1.Ok? {
      forall x ensures JobOk(r', x) { assert JobOk(r, x); }
      assert JobOk(r, id);
      forall st ensures Tallied(r', st) {
        assert Tallied(r, st);
        ResolveTallies(r, id, cb.FinalStatus(status), r', st);
      }
    } else {
      SameButLast(r, r');
    }
  }

  lemma EndedGrows(r: Run, id: JobId, final: JobStatus, r': Run, st: JobStatus)
    requires id !in r.outcomes && r'.outcomes == r.outcomes[id := final]
    ensures EndedAs(r', st) == EndedAs(r, st) + if st == final then {id} else {}
  {
  }

  lemma ResolveTallies(r: Run, id: JobId, final: JobStatus, r': Run, st: JobStatus)
    requires Tallied(r, st)
    requires id !in r.outcomes && r'.outcomes == r.outcomes[id := final]
    requires r'.store.stats == r.store.stats[final := Stat(r.store, final) + 1]
    ensures Tallied(r', st)
  {
    EndedGrows(r, id, final, r', st);
    assert id !in EndedAs(r, st);
  }

  lemma DeleteKeeps(r: Run, id: JobId, now: int, timeout: nat, r': Run)
    requires Inv(r) && Step(r, DoDeleteResult(id), now, timeout, r')
    ensures Inv(r')
  {
    forall x ensures JobOk(r', x) { assert JobOk(r, x); }
    SameTally(r, r');
  }

  /** A pass moves exactly the expired claims back among the pending jobs. */
  lemma PassMoves(r: Run, now: int, timeout: nat, r': Run, id: JobId)
    requires Inv(r) && Step(r, DoPass, now, timeout, r')
    ensures forall p :: (p, id) in r'.store.pending <==>
              || (p, id) in r.store.pending
              || (id in ExpiredIds(r.store, now, timeout) && id in r.enqueued && p == r.enqueued[id].0)
    ensures forall p :: (p, id) in r'.store.pending ==>
              id in r.enqueued && r'.store.pending[(p, id)] == r.enqueued[id].1
    ensures id in r'.store.claims <==> id in r.store.claims && id !in ExpiredIds(r.store, now, timeout)
    ensures id in r'.store.claims ==> r'.store.claims[id] == r.store.claims[id]
  {
    assert JobOk(r, id);
    var ids := ExpiredIds(r.store, now, timeout);
    var back := set x | x in ids :: (r.store.claims[x].partition, x);
    assert forall p :: (p, id) in back <==> id in ids && p == r.store.claims[id].partition;
  }

  lemma PassKeeps(r: Run, now: int, timeout: nat, r': Run)
    requires Inv(r) && Step(r, DoPass, now, timeout, r')
    ensures Inv(r')
  {
    forall id ensures JobOk(r', id) {
      assert JobOk(r, id);
      PassMoves(r, now, timeout, r', id);
    }
    SameTally(r, r');
  }

  lemma StepKeeps(r: Run, op: Op, now: int, timeout: nat, r': Run)
    requires Inv(r) && Step(r, op, now, timeout, r')
    ensures Inv(r')
  {
    match op
    case DoEnqueue(id, p, params, priority, deadline) =>
      EnqueueKeeps(r, id, p, params, priority, deadline, now, timeout, r');
    case DoClaim(p, worker) =>
      var late :| DoesClaim(r, p, worker, now, r', late);
      ClaimKeeps(r, p, worker, now, r', late);
    case DoReclaim(id, worker) => ReclaimKeeps(r, id, worker, now, timeout, r');
    case DoResolve(id, worker, status, result, cb) =>
      ResolveKeeps(r, id, worker, status, result, cb, now, timeout, r');
    case DoCancel(id) => CancelKeeps(r, id, now, timeout, r');
    case DoDeleteResult(id) => DeleteKeeps(r, id, now, timeout, r');
    case DoPass => PassKeeps(r, now, timeout, r');
    case DoForget(id) =>
      forall x ensures JobOk(r', x) { assert JobOk(r, x); }
      SameTally(r, r');
  }

  // Whole runs ----------------------------------------------------------------------------

  datatype Event = Event(op: Op, now: int)

  ghost predicate StepAt(rs: seq<Run>, evs: seq<Event>, timeout: nat, i: nat)
    requires i < |evs| < |rs|
  {
    Step(rs[i], evs[i].op, evs[i].now, timeout, rs[i + 1])
  }

  ghost predicate IsRun(rs: seq<Run>, evs: seq<Event>, timeout: nat) {
    && |rs| == |evs| + 1
    && Inv(rs[0])
    && forall i :: 0 <= i < |evs| ==> StepAt(rs, evs, timeout, i)
  }

  /** An empty queue is a state that runs may start from. */
  lemma StartInv()
    ensures Inv(Start())
  {
    assert forall st :: EndedAs(Start(), st) == {};
  }

  lemma {:induction false} RunKeeps(rs: seq<Run>, evs: seq<Event>, timeout: nat, i: nat)
    requires IsRun(rs, evs, timeout) && i < |rs|
    ensures Inv(rs[i])
  {
    if i > 0 {
      RunKeeps(rs, evs, timeout, i - 1);
      assert StepAt(rs, evs, timeout, i - 1);
      StepKeeps(rs[i - 1], evs[i - 1].op, evs[i - 1].now, timeout, rs[i]);
    }
  }

  /** At any moment every job that was enqueued is in exactly one of: the pending jobs of one
      partition, the claims, the resolved jobs, the cancelled jobs. */
  lemma Conservation(rs: seq<Run>, evs: seq<Event>, timeout: nat, i: nat, id: JobId)
    requires IsRun(rs, evs, timeout) && i < |rs|
    ensures One(exists p :: (p, id) in rs[i].store.pending) + One(id in rs[i].store.claims)
          + One(id in rs[i].outcomes) + One(id in rs[i].cancelled) == One(id in rs[i].enqueued)
    ensures forall p, q :: (p, id) in rs[i].store.pending && (q, id) in rs[i].store.pending ==> p == q
    ensures forall p :: (p, id) in rs[i].store.pending ==>
              rs[i].enqueued[id] == (p, rs[i].store.pending[(p, id)])
  {
    RunKeeps(rs, evs, timeout, i);
    assert JobOk(rs[i], id);
  }

  ghost predicate ResolvesAt(rs: seq<Run>, evs: seq<Event>, i: nat, id: JobId)
    requires i < |evs| < |rs|
  {
    && evs[i].op.DoResolve? && evs[i].op.id == id
    && var op := evs[i].op; Resolve(rs[i].store, id, op.worker, op.status, op.result, op.cb).1.Ok?
  }

  lemma {:induction false} StaysResolved(rs: seq<Run>, evs: seq<Event>, timeout: nat, i: nat, j: nat, id: JobId)
    requires IsRun(rs, evs, timeout) && i <= j < |rs| && id in rs[i].outcomes
    ensures id in rs[j].outcomes && rs[j].outcomes[id] == rs[i].outcomes[id]
  {
    if i < j {
      StaysResolved(rs, evs, timeout, i, j - 1, id);
      RunKeeps(rs, evs, timeout, j - 1);
      assert StepAt(rs, evs, timeout, j - 1) && JobOk(rs[j - 1], id);
    }
  }

  lemma HandedNowIsClaimed(r: Run, op: Op, now: int, timeout: nat, r': Run, id: JobId)
    requires Step(r, op, now, timeout, r') && op.DoClaim? && HandsOver(r'.last, id)
    ensures (op.p, id) in r.store.pending && id in r'.store.claims
  {
    var late :| DoesClaim(r, op.p, op.worker, now, r', late);
    HandedIsClaimed(r.store, op.p, op.worker, now, r'.store, r'.last, late);
  }

  /** However claims expire and move between workers, a job is resolved at most once, and it is
      never handed out afterwards. */
  lemma AtMostOnce(rs: seq<Run>, evs: seq<Event>, timeout: nat, i: nat, j: nat, id: JobId)
    requires IsRun(rs, evs, timeout) && i < j < |evs| && ResolvesAt(rs, evs, i, id)
    ensures !ResolvesAt(rs, evs, j, id)
    ensures id !in rs[j + 1].store.claims && !HandsOver(rs[j + 1].last, id)
  {
    assert StepAt(rs, evs, timeout, i) && StepAt(rs, evs, timeout, j);
    StaysResolved(rs, evs, timeout, i + 1, j, id);
    StaysResolved(rs, evs, timeout, i + 1, j + 1, id);
    RunKeeps(rs, evs, timeout, j);
    RunKeeps(rs, evs, timeout, j + 1);
    assert JobOk(rs[j], id) && JobOk(rs[j + 1], id);
    if HandsOver(rs[j + 1].last, id) { HandedNowIsClaimed(rs[j], evs[j].op, evs[j].now, timeout, rs[j + 1], id); }
  }

  lemma TakeOnlyRemoves(s: Store, p: Partition, first: JobId, worker: string, now: int)
    requires (p, first) in s.pending
    ensures var next := Take(s, p, first, worker, now).0;
      && (forall x :: x in next.descs ==> x in s.descs && next.descs[x] == s.descs[x])
      && (forall x :: (p, x) in next.pending <==> (p, x) in s.pending && x != first)
      && (forall x :: (p, x) in next.pending ==> next.pending[(p, x)] == s.pending[(p, x)])
  {
  }

  /** A job handed out was pending in the partition asked for and is within its deadline; it comes
      with its parameters, and is claimed by the asker. */
  lemma {:induction false} HandedIsClaimed(s: Store, p: Partition, worker: string, now: int, s': Store,
                                           out: ClaimOutcome, late: set<JobId>)
    requires Claims(s, p, worker, now, s', out, late) && out.Handed?
    ensures (p, out.id) in s.pending && out.id in s.descs
    ensures now <= s.descs[out.id].deadline && out.params == s.descs[out.id].params
    ensures out.id in s'.claims && s'.claims[out.id] == Claim(out.id, s.pending[(p, out.id)], worker, now, p)
    decreases |s.pending|
  {
    var first :| IsFirst(s, p, first) && ClaimsFirst(s, p, first, worker, now, s', out, late);
    if Take(s, p, first, worker, now).1.None? {
      PendingShrinks(s, p, first, worker, now);
      TakeOnlyRemoves(s, p, first, worker, now);
      HandedIsClaimed(Take(s, p, first, worker, now).0, p, worker, now, s', out, late - {first});
    }
  }

  function AllEnded(r: Run): set<JobId> {
    EndedAs(r, Success) + EndedAs(r, Failure) + EndedAs(r, InternalError)
  }

  /** The three counters of `get_stats` add up to the number of resolved jobs. */
  lemma StatsCountResolvedJobs(rs: seq<Run>, evs: seq<Event>, timeout: nat, i: nat)
    requires IsRun(rs, evs, timeout) && i < |rs|
    ensures Stat(rs[i].store, Success) + Stat(rs[i].store, Failure) + Stat(rs[i].store, InternalError)
         == |rs[i].outcomes|
  {
    RunKeeps(rs, evs, timeout, i);
    var r := rs[i];
    assert Tallied(r, Success) && Tallied(r, Failure) && Tallied(r, InternalError);
    forall id | id in r.outcomes ensures id in AllEnded(r) { assert JobOk(r, id); }
    assert r.outcomes.Keys == AllEnded(r);
  }

  /** `partitions_key` lists every partition that has pending jobs, so the sum that `get_stats`
      makes over it (`WqQueue.WorkQueue.GetStats`) leaves no pending job out. */
  lemma PartitionsCoverPending(rs: seq<Run>, evs: seq<Event>, timeout: nat, i: nat, p: Partition, id: JobId)
    requires IsRun(rs, evs, timeout) && i < |rs| && (p, id) in rs[i].store.pending
    ensures p.Some? ==> p.value in rs[i].store.partitions
  {
    RunKeeps(rs, evs, timeout, i);
    assert JobOk(rs[i], id);
  }

  // Order -----------------------------------------------------------------------------------

  ghost predicate AllDescribed(s: Store, p: Partition) {
    forall x :: (p, x) in s.pending ==> x in s.descs
  }

  predicate IsLate(s: Store, p: Partition, x: JobId, now: int) {
    (p, x) in s.pending && x in s.descs && s.descs[x].deadline < now
  }

  predicate AheadOf(s: Store, p: Partition, x: JobId, out: ClaimOutcome) {
    out.Handed? ==>
      (p, x) in s.pending && (p, out.id) in s.pending
      && Before(s.pending[(p, x)], x, s.pending[(p, out.id)], out.id)
  }

  /** The jobs cancelled are those past their deadline that come before the one handed out, which are
      all that come before it, and nothing is handed out exactly when all that waits is late. */
  ghost predicate LateOk(s: Store, p: Partition, now: int, out: ClaimOutcome, late: set<JobId>) {
    && (out.Nothing? <==> forall x :: (p, x) in s.pending ==> IsLate(s, p, x, now))
    && (forall x :: x in late <==> IsLate(s, p, x, now) && AheadOf(s, p, x, out))
    && (out.Handed? ==> forall x :: (p, x) in s.pending && AheadOf(s, p, x, out) ==> x in late)
  }

  /** A claim cancels exactly the late jobs that it meets. */
  lemma {:induction false} CancelsExactlyTheLate(s: Store, p: Partition, worker: string, now: int, s': Store,
                                                 out: ClaimOutcome, late: set<JobId>)
    requires Claims(s, p, worker, now, s', out, late) && AllDescribed(s, p)
    ensures LateOk(s, p, now, out, late)
    decreases |s.pending|
  {
    if !NonePending(s, p) {
      var first :| IsFirst(s, p, first) && ClaimsFirst(s, p, first, worker, now, s', out, late);
      var (next, done) := Take(s, p, first, worker, now);
      if done.None? {
        PendingShrinks(s, p, first, worker, now);
        TakeOnlyRemoves(s, p, first, worker, now);
        CancelsExactlyTheLate(next, p, worker, now, s', out, late - {first});
        LateFirst(s, p, first, worker, now, next, s', out, late);
      } else {
        HandsOutFirst(s, p, first, worker, now, out, late);
      }
    }
  }

  lemma HandsOutFirst(s: Store, p: Partition, first: JobId, worker: string, now: int, out: ClaimOutcome,
                      late: set<JobId>)
    requires IsFirst(s, p, first) && first in s.descs && Take(s, p, first, worker, now).1 == Some(out) && late == {}
    ensures LateOk(s, p, now, out, late)
  {
    assert out.Handed? && out.id == first && !IsLate(s, p, first, now);
    forall x ensures !AheadOf(s, p, x, out) {
      if (p, x) in s.pending && x != first { assert Before(s.pending[(p, first)], first, s.pending[(p, x)], x); }
    }
  }

  lemma LateFirst(s: Store, p: Partition, first: JobId, worker: string, now: int, next: Store, s': Store,
                  out: ClaimOutcome, late: set<JobId>)
    requires IsFirst(s, p, first) && Take(s, p, first, worker, now) == (next, None) && first in late
    requires Claims(next, p, worker, now, s', out, late - {first}) && LateOk(next, p, now, out, late - {first})
    ensures LateOk(s, p, now, out, late)
  {
    TakeOnlyRemoves(s, p, first, worker, now);
    if out.Handed? { HandedIsClaimed(next, p, worker, now, s', out, late - {first}); }
    forall x | x != first
      ensures IsLate(s, p, x, now) <==> IsLate(next, p, x, now)
      ensures (p, x) in s.pending ==> (AheadOf(s, p, x, out) <==> AheadOf(next, p, x, out))
    {
      assert (p, x) in next.pending <==> (p, x) in s.pending;
    }
    assert IsLate(s, p, first, now) && AheadOf(s, p, first, out);
  }

  /** `claim_job_in` hands out a job enqueued in the partition asked for, and nothing that was
      enqueued ahead of it, by priority and then by age, is still waiting, whether it had been
      claimed and put back before or not. What it skips is past its deadline and cancelled. */
  lemma HandsOutInOrder(rs: seq<Run>, evs: seq<Event>, timeout: nat, i: nat, id: JobId, other: JobId)
    requires IsRun(rs, evs, timeout) && i < |evs|
    requires evs[i].op.DoClaim? && HandsOver(rs[i + 1].last, id)
    ensures id in rs[i].enqueued && rs[i].enqueued[id].0 == evs[i].op.p
    ensures IsPending(rs[i], other) && rs[i].enqueued[other].0 == evs[i].op.p
            && Before(rs[i].enqueued[other].1, other, rs[i].enqueued[id].1, id)
        ==> other in rs[i].asked && rs[i].asked[other].deadline < evs[i].now && other in rs[i + 1].cancelled
  {
    RunKeeps(rs, evs, timeout, i);
    assert StepAt(rs, evs, timeout, i) && JobOk(rs[i], id) && JobOk(rs[i], other);
    var op := evs[i].op;
    var late :| DoesClaim(rs[i], op.p, op.worker, evs[i].now, rs[i + 1], late);
    HandedIsClaimed(rs[i].store, op.p, op.worker, evs[i].now, rs[i + 1].store, rs[i + 1].last, late);
    PendingDescribed(rs[i], op.p);
    CancelsExactlyTheLate(rs[i].store, op.p, op.worker, evs[i].now, rs[i + 1].store, rs[i + 1].last, late);
  }

  lemma PendingDescribed(r: Run, p: Partition)
    requires Inv(r)
    ensures AllDescribed(r.store, p)
  {
    forall x | (p, x) in r.store.pending ensures x in r.store.descs { assert JobOk(r, x); }
  }

  /** A job is handed out by the deadline it was enqueued with and no later, with the parameters it
      was enqueued with. */
  lemma HandsOutInTime(rs: seq<Run>, evs: seq<Event>, timeout: nat, i: nat)
    requires IsRun(rs, evs, timeout) && i < |evs| && evs[i].op.DoClaim? && rs[i + 1].last.Handed?
    ensures var last := rs[i + 1].last;
      && last.id in rs[i].asked && last.params == rs[i].asked[last.id].params
      && evs[i].now <= rs[i].asked[last.id].deadline
  {
    RunKeeps(rs, evs, timeout, i);
    assert StepAt(rs, evs, timeout, i) && JobOk(rs[i], rs[i + 1].last.id);
    var op := evs[i].op;
    var late :| DoesClaim(rs[i], op.p, op.worker, evs[i].now, rs[i + 1], late);
    HandedIsClaimed(rs[i].store, op.p, op.worker, evs[i].now, rs[i + 1].store, rs[i + 1].last, late);
  }

  /** A waiting job that is past the deadline it was enqueued with. */
  predicate WaitsTooLong(r: Run, p: Partition, x: JobId, now: int) {
    IsPending(r, x) && r.enqueued[x].0 == p && x in r.asked && r.asked[x].deadline < now
  }

  /** A claim cancels exactly the waiting jobs past their deadline that come before the one it hands
      out, and hands one out unless all that wait are past theirs. */
  lemma ClaimCancelsExactly(rs: seq<Run>, evs: seq<Event>, timeout: nat, i: nat, x: JobId)
    requires IsRun(rs, evs, timeout) && i < |evs| && evs[i].op.DoClaim?
    ensures var r, r', p, now := rs[i], rs[i + 1], evs[i].op.p, evs[i].now;
      && (x in r'.cancelled && x !in r.cancelled <==>
            WaitsTooLong(r, p, x, now) && AheadOf(r.store, p, x, r'.last))
      && (r'.last.Nothing? ==> IsPending(r, x) && r.enqueued[x].0 == p ==> WaitsTooLong(r, p, x, now))
      && (r'.last.Handed? <==> exists y :: IsPending(r, y) && r.enqueued[y].0 == p && !WaitsTooLong(r, p, y, now))
  {
    var r, r', p, now := rs[i], rs[i + 1], evs[i].op.p, evs[i].now;
    RunKeeps(rs, evs, timeout, i);
    assert StepAt(rs, evs, timeout, i);
    var late :| DoesClaim(r, p, evs[i].op.worker, now, r', late);
    PendingDescribed(r, p);
    CancelsExactlyTheLate(r.store, p, evs[i].op.worker, now, r'.store, r'.last, late);
    ClaimKeeps(r, p, evs[i].op.worker, now, r', late);
    forall y ensures (p, y) in r.store.pending <==> IsPending(r, y) && r.enqueued[y].0 == p { assert JobOk(r, y); }
    forall y ensures IsLate(r.store, p, y, now) <==> WaitsTooLong(r, p, y, now) { assert JobOk(r, y); }
    assert JobOk(r, x);
  }

  // Results ---------------------------------------------------------------------------------

  /** Whether a resolution leaves the result to be fetched: it does unless the callback has taken
      care of it, or failed. */
  predicate LeavesResult(op: Op) {
    op.DoResolve? && (op.cb == NoCallback || op.cb == Processed(false))
  }

  /** What a worker's resolution comes to. */
  function Answer(op: Op): JobResult
    requires op.DoResolve?
  {
    JobResult(if op.cb == Failed then InternalError else op.status, op.result)
  }

  ghost predicate Undisturbed(evs: seq<Event>, i: nat, j: nat, op: Op) {
    forall n :: i < n < j && n < |evs| ==> evs[n].op != op
  }

  ghost predicate Kept(r: Run, op: Op)
    requires op.DoResolve?
  {
    && op.id in r.outcomes
    && (op.id in r.store.results <==> LeavesResult(op))
    && (op.id in r.store.results ==> r.store.results[op.id] == Answer(op))
  }

  lemma StepKeepsResult(r: Run, ev: Event, timeout: nat, r': Run, op: Op)
    requires Inv(r) && Step(r, ev.op, ev.now, timeout, r')
    requires op.DoResolve? && Kept(r, op) && ev.op != DoDeleteResult(op.id)
    ensures Kept(r', op)
  {
    assert JobOk(r, op.id);
    match ev.op
    case DoClaim(p, worker) =>
      var late :| DoesClaim(r, p, worker, ev.now, r', late);
      ClaimLeavesResults(r.store, p, worker, ev.now, r'.store, r'.last, late);
    case _ =>
  }

  lemma TakeLeavesResults(s: Store, p: Partition, id: JobId, worker: string, now: int)
    requires (p, id) in s.pending
    ensures var next := Take(s, p, id, worker, now).0;
      next.results == s.results && next.resolved == s.resolved && next.descs.Keys <= s.descs.Keys
  {
  }

  lemma {:induction false} ClaimLeavesResults(s: Store, p: Partition, worker: string, now: int, s': Store,
                                              out: ClaimOutcome, late: set<JobId>)
    requires Claims(s, p, worker, now, s', out, late)
    ensures s'.results == s.results && s'.resolved == s.resolved
    ensures s'.descs.Keys <= s.descs.Keys
    decreases |s.pending|
  {
    if !NonePending(s, p) {
      var first :| IsFirst(s, p, first) && ClaimsFirst(s, p, first, worker, now, s', out, late);
      var (next, done) := Take(s, p, first, worker, now);
      TakeLeavesResults(s, p, first, worker, now);
      if done.None? {
        PendingShrinks(s, p, first, worker, now);
        ClaimLeavesResults(next, p, worker, now, s', out, late - {first});
      }
    }
  }

  /** From a successful resolution until the result is deleted, what is stored is the status and the
      result that were handed in, if the callback has left it to be fetched, and nothing otherwise. */
  lemma {:induction false} ResultIsKept(rs: seq<Run>, evs: seq<Event>, timeout: nat, i: nat, j: nat, id: JobId)
    requires IsRun(rs, evs, timeout) && i < j < |rs| && ResolvesAt(rs, evs, i, id)
    requires Undisturbed(evs, i, j, DoDeleteResult(id))
    ensures id in rs[j].store.results <==> LeavesResult(evs[i].op)
    ensures id in rs[j].store.results ==> rs[j].store.results[id] == Answer(evs[i].op)
    ensures Kept(rs[j], evs[i].op)
    decreases j
  {
    assert StepAt(rs, evs, timeout, j - 1);
    RunKeeps(rs, evs, timeout, j - 1);
    if i < j - 1 {
      ResultIsKept(rs, evs, timeout, i, j - 1, id);
      StepKeepsResult(rs[j - 1], evs[j - 1], timeout, rs[j], evs[i].op);
    }
  }

  /** The short-lived status as well, until it expires. */
  lemma {:induction false} StatusIsReadable(rs: seq<Run>, evs: seq<Event>, timeout: nat, i: nat, j: nat, id: JobId)
    requires IsRun(rs, evs, timeout) && i < j < |rs| && ResolvesAt(rs, evs, i, id)
    requires Undisturbed(evs, i, j, DoForget(id))
    ensures id in rs[j].outcomes
    ensures id in rs[j].store.resolved && rs[j].store.resolved[id] == Answer(evs[i].op).status
    decreases j
  {
    assert StepAt(rs, evs, timeout, j - 1);
    RunKeeps(rs, evs, timeout, j - 1);
    if i < j - 1 {
      StatusIsReadable(rs, evs, timeout, i, j - 1, id);
      StepKeepsStatus(rs[j - 1], evs[j - 1].op, evs[j - 1].now, timeout, rs[j], id);
    }
  }

  lemma StepKeepsStatus(r: Run, op: Op, now: int, timeout: nat, r': Run, id: JobId)
    requires Inv(r) && Step(r, op, now, timeout, r') && op != DoForget(id)
    requires id in r.outcomes && id in r.store.resolved
    ensures id in r'.outcomes && id in r'.store.resolved && r'.store.resolved[id] == r.store.resolved[id]
  {
    assert JobOk(r, id);
    if op.DoClaim? {
      var late :| DoesClaim(r, op.p, op.worker, now, r', late);
      ClaimLeavesResults(r.store, op.p, op.worker, now, r'.store, r'.last, late);
    }
  }

  // Gone for good ---------------------------------------------------------------------------

  /** A resolved or cancelled job without a description. */
  ghost predicate Gone(r: Run, id: JobId) {
    id in r.enqueued && (id in r.outcomes || id in r.cancelled) && id !in r.store.descs
    && id !in r.store.results
  }

  lemma StepStaysGone(r: Run, ev: Event, timeout: nat, r': Run, id: JobId)
    requires Inv(r) && Step(r, ev.op, ev.now, timeout, r') && Gone(r, id)
    ensures Gone(r', id)
  {
    assert JobOk(r, id);
    match ev.op
    case DoClaim(p, worker) =>
      var late :| DoesClaim(r, p, worker, ev.now, r', late);
      ClaimLeavesResults(r.store, p, worker, ev.now, r'.store, r'.last, late);
    case _ =>
  }

  lemma {:induction false} StaysGone(rs: seq<Run>, evs: seq<Event>, timeout: nat, i: nat, j: nat, id: JobId)
    requires IsRun(rs, evs, timeout) && i <= j < |rs| && Gone(rs[i], id)
    ensures Gone(rs[j], id) && !Live(rs[j], id)
    decreases j
  {
    RunKeeps(rs, evs, timeout, j);
    assert JobOk(rs[j], id);
    if i < j {
      StaysGone(rs, evs, timeout, i, j - 1, id);
      RunKeeps(rs, evs, timeout, j - 1);
      assert StepAt(rs, evs, timeout, j - 1);
      StepStaysGone(rs[j - 1], evs[j - 1], timeout, rs[j], id);
    }
  }

  /** A job cancelled while it waits or is claimed, one whose result was deleted, and one whose
      callback took care of the result, leave nothing behind: no description, no result, no claim and
      nothing that waits, ever after. */
  lemma LeavesNothingBehind(rs: seq<Run>, evs: seq<Event>, timeout: nat, i: nat, j: nat, id: JobId)
    requires IsRun(rs, evs, timeout) && i < j < |rs|
    requires || (evs[i].op == DoCancel(id) && Live(rs[i], id))
             || evs[i].op == DoDeleteResult(id)
             || (ResolvesAt(rs, evs, i, id) && !LeavesResult(evs[i].op))
    ensures id !in rs[j].store.descs && id !in rs[j].store.results && id !in rs[j].store.claims
    ensures forall p :: (p, id) !in rs[j].store.pending
  {
    RunKeeps(rs, evs, timeout, i);
    RunKeeps(rs, evs, timeout, j);
    assert StepAt(rs, evs, timeout, i) && JobOk(rs[i], id) && JobOk(rs[j], id);
    StaysGone(rs, evs, timeout, i + 1, j, id);
  }
}
