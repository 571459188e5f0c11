/** How long a claim lasts over a run of calls: refreshing keeps it, abandoning it gives the
    job back in time (wq/src/lib.rs, wq/src/claim.rs). */
module WqTiming {
  import opened WqKeys
  import opened WqOperations
  import opened WqRuns

  predicate HeldBy(r: Run, id: JobId, worker: string, since: int) {
    id in r.store.claims && r.store.claims[id].workerId == worker && r.store.claims[id].time == since
  }

  /** Neither the owner's resolution nor a cancellation, which are what ends a claim on purpose. */
  predicate LeavesClaim(op: Op, id: JobId, worker: string) {
    && op != DoCancel(id)
    && !(op.DoResolve? && op.id == id && op.worker == worker)
  }

  lemma TakingElsewhere(s: Store, p: Partition, first: JobId, worker: string, now: int, id: JobId)
    requires (p, first) in s.pending && first != id && id in s.claims
    ensures var next := Take(s, p, first, worker, now).0;
      id in next.claims && next.claims[id] == s.claims[id]
  {
  }

  lemma {:induction false} ClaimingElsewhere(s: Store, p: Partition, worker: string, now: int, s': Store,
                                             out: ClaimOutcome, late: set<JobId>, id: JobId)
    requires Claims(s, p, worker, now, s', out, late)
    requires id in s.claims && (p, id) !in s.pending
    ensures id in s'.claims && s'.claims[id] == s.claims[id]
    decreases |s.pending|
  {
    if !NonePending(s, p) {
      var first :| IsFirst(s, p, first) && ClaimsFirst(s, p, first, worker, now, s', out, late);
      var (next, done) := Take(s, p, first, worker, now);
      TakingElsewhere(s, p, first, worker, now, id);
      if done.None? {
        PendingShrinks(s, p, first, worker, now);
        TakeOnlyRemoves(s, p, first, worker, now);
        ClaimingElsewhere(next, p, worker, now, s', out, late - {first}, id);
      }
    }
  }

  function NextTouch(op: Op, now: int, id: JobId, worker: string, last: int): int {
    if op == DoReclaim(id, worker) then now else last
  }

  /** The only other thing that ends a claim is a pass that finds it too old. */
  lemma ClaimStays(r: Run, op: Op, now: int, timeout: nat, r': Run, id: JobId, worker: string, last: int)
    requires Inv(r) && Step(r, op, now, timeout, r')
    requires HeldBy(r, id, worker, last) && LeavesClaim(op, id, worker)
    requires op.DoPass? ==> Abs(now - last) <= timeout
    ensures HeldBy(r', id, worker, NextTouch(op, now, id, worker, last))
  {
    assert JobOk(r, id);
    match op
    case DoClaim(p, w) =>
      var late :| DoesClaim(r, p, w, now, r', late);
      ClaimingElsewhere(r.store, p, w, now, r'.store, r'.last, late, id);
    case DoPass => PassMoves(r, now, timeout, r', id);
    case _ =>
  }

  /** When the owner of the claim on `id` last touched it, as of event `j`. */
  function LastTouch(evs: seq<Event>, i: nat, j: nat, id: JobId, worker: string, start: int): int
    requires i <= j <= |evs|
    decreases j
  {
    if i == j then start
    else NextTouch(evs[j - 1].op, evs[j - 1].now, id, worker, LastTouch(evs, i, j - 1, id, worker, start))
  }

  /** A claim whose owner never lets more than `timeout` pass between refreshes is never taken
      away. */
  lemma {:induction false} RefreshedClaimIsKept(rs: seq<Run>, evs: seq<Event>, timeout: nat, i: nat, j: nat,
                                                id: JobId, worker: string, start: int)
    requires IsRun(rs, evs, timeout) && i <= j < |rs|
    requires HeldBy(rs[i], id, worker, start)
    requires forall k :: i <= k < j ==> LeavesClaim(evs[k].op, id, worker)
    requires forall k :: i <= k < j ==> Abs(evs[k].now - LastTouch(evs, i, k, id, worker, start)) <= timeout
    ensures HeldBy(rs[j], id, worker, LastTouch(evs, i, j, id, worker, start))
  {
    if i < j {
      RefreshedClaimIsKept(rs, evs, timeout, i, j - 1, id, worker, start);
      ClaimStaysAt(rs, evs, timeout, j - 1, id, worker, LastTouch(evs, i, j - 1, id, worker, start));
    }
  }

  lemma ClaimStaysAt(rs: seq<Run>, evs: seq<Event>, timeout: nat, k: nat, id: JobId, worker: string, last: int)
    requires IsRun(rs, evs, timeout) && k < |evs| && HeldBy(rs[k], id, worker, last)
    requires LeavesClaim(evs[k].op, id, worker) && Abs(evs[k].now - last) <= timeout
    ensures HeldBy(rs[k + 1], id, worker, NextTouch(evs[k].op, evs[k].now, id, worker, last))
  {
    RunKeeps(rs, evs, timeout, k);
    assert StepAt(rs, evs, timeout, k);
    ClaimStays(rs[k], evs[k].op, evs[k].now, timeout, rs[k + 1], id, worker, last);
  }

  /** At any point of a run a worker can end a job in one case only: it holds the claim and has a status
      that ends it. Nothing else the queue knows keeps it from that. */
  lemma ResolvesExactly(rs: seq<Run>, evs: seq<Event>, timeout: nat, j: nat)
    requires IsRun(rs, evs, timeout) && j < |evs| && evs[j].op.DoResolve?
    ensures var op := evs[j].op;
      ResolvesAt(rs, evs, j, op.id) <==>
        op.status.IsResolved() && exists since :: HeldBy(rs[j], op.id, op.worker, since)
  {
    var op := evs[j].op;
    RunKeeps(rs, evs, timeout, j);
    assert JobOk(rs[j], op.id);
    if op.id in rs[j].store.claims && rs[j].store.claims[op.id].workerId == op.worker {
      assert HeldBy(rs[j], op.id, op.worker, rs[j].store.claims[op.id].time);
    }
  }

  /** From being handed a job to its end: a worker that refreshes its claim in time resolves the job,
      whatever others do, unless it is cancelled, and what it hands in is what is kept. */
  lemma WorkerEndsItsJob(rs: seq<Run>, evs: seq<Event>, timeout: nat, i: nat, j: nat, id: JobId, worker: string)
    requires IsRun(rs, evs, timeout) && i < j < |evs|
    requires evs[i].op.DoClaim? && evs[i].op.worker == worker && HandsOver(rs[i + 1].last, id)
    requires forall k :: i < k < j ==> LeavesClaim(evs[k].op, id, worker)
    requires forall k :: i < k < j ==> Abs(evs[k].now - LastTouch(evs, i + 1, k, id, worker, evs[i].now)) <= timeout
    requires evs[j].op.DoResolve? && evs[j].op.id == id && evs[j].op.worker == worker && evs[j].op.status.IsResolved()
    ensures ResolvesAt(rs, evs, j, id) && Kept(rs[j + 1], evs[j].op)
    ensures rs[j + 1].outcomes[id] == Answer(evs[j].op).status
  {
    HandedIsHeld(rs, evs, timeout, i, id);
    RefreshedClaimIsKept(rs, evs, timeout, i + 1, j, id, worker, evs[i].now);
    ResolvesExactly(rs, evs, timeout, j);
    ResultIsKept(rs, evs, timeout, j, j + 1, id);
    StatusIsReadable(rs, evs, timeout, j, j + 1, id);
    RunKeeps(rs, evs, timeout, j + 1);
    assert JobOk(rs[j + 1], id);
  }

  lemma HandedIsHeld(rs: seq<Run>, evs: seq<Event>, timeout: nat, i: nat, id: JobId)
    requires IsRun(rs, evs, timeout) && i < |evs| && evs[i].op.DoClaim? && HandsOver(rs[i + 1].last, id)
    ensures HeldBy(rs[i + 1], id, evs[i].op.worker, evs[i].now)
  {
    assert StepAt(rs, evs, timeout, i);
    var op := evs[i].op;
    var late :| DoesClaim(rs[i], op.p, op.worker, evs[i].now, rs[i + 1], late);
    HandedIsClaimed(rs[i].store, op.p, op.worker, evs[i].now, rs[i + 1].store, rs[i + 1].last, late);
  }

  /** The checker sleeps for `half` between passes, so from a pass at `previous` on no pass is
      later than that after the one before it. */
  predicate PassesOnTime(evs: seq<Event>, i: nat, previous: int, half: nat)
    requires i <= |evs|
    decreases |evs| - i
  {
    if i == |evs| then true
    else if evs[i].op.DoPass? then
      previous <= evs[i].now <= previous + half && PassesOnTime(evs, i + 1, evs[i].now, half)
    else PassesOnTime(evs, i + 1, previous, half)
  }

  /** A claim last touched at `start` and then abandoned is pending again within one and a half
      timeouts, given that passes go on for longer than one. */
  lemma {:induction false} AbandonedClaimComesBack(rs: seq<Run>, evs: seq<Event>, timeout: nat, half: nat, i: nat,
                                                   id: JobId, worker: string, start: int, previous: int, end: nat)
    returns (m: nat)
    requires IsRun(rs, evs, timeout) && i <= end < |evs| && 2 * half <= timeout
    requires HeldBy(rs[i], id, worker, start)
    requires forall k :: i <= k < |evs| ==>
               LeavesClaim(evs[k].op, id, worker) && evs[k].op != DoReclaim(id, worker) && evs[k].now >= start
    requires PassesOnTime(evs, i, previous, half) && previous <= start + timeout
    requires evs[end].op.DoPass? && evs[end].now > start + timeout
    ensures i <= m <= end && evs[m].op.DoPass?
    ensures 2 * (evs[m].now - start) <= 3 * timeout
    ensures HeldBy(rs[m], id, worker, start) && IsPending(rs[m + 1], id)
    decreases |evs| - i
  {
    RunKeeps(rs, evs, timeout, i);
    assert StepAt(rs, evs, timeout, i);
    if evs[i].op.DoPass? && evs[i].now > start + timeout {
      assert JobOk(rs[i], id);
      PassMoves(rs[i], evs[i].now, timeout, rs[i + 1], id);
      m := i;
    } else {
      ClaimStays(rs[i], evs[i].op, evs[i].now, timeout, rs[i + 1], id, worker, start);
      m := AbandonedClaimComesBack(rs, evs, timeout, half, i + 1, id, worker, start,
                                   if evs[i].op.DoPass? then evs[i].now else previous, end);
    }
  }
}
