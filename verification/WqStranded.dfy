/** A pass of the expiry checker puts a job back and then removes whatever claim is stored for it
    (wq/src/lib.rs:338-353), which need not be the one it found too old: exactly when that leaves a job
    that nobody can come by any more, with its description still there. */
module WqStranded {
  import opened Prelude
  import opened WqKeys
  import opened WqCommands
  import opened WqRefreshRace

  /** Neither waiting nor claimed, and no call has it in hand. */
  ghost predicate Lost(k: Keys, s: System, id: JobId) {
    && id !in s.claims && !Waiting(k, s, id)
    && forall pid :: !Holds(At(s, pid), id) && !Lists(At(s, pid), id) && !Enqueues(At(s, pid), id)
  }

  ghost predicate Stranded(k: Keys, s: System, id: JobId) {
    id in s.descs && Lost(k, s, id)
  }

  // For good --------------------------------------------------------------------------------------

  lemma StepStaysLost(k: Keys, s: System, pid: Pid, a: Action, s': System, id: JobId)
    requires Goes(k, s, pid, a, s', id) && id in s.enqueued && Lost(k, s, id)
    ensures Lost(k, s', id)
  {
    forall other ensures !Holds(At(s', other), id) && !Lists(At(s', other), id) && !Enqueues(At(s', other), id) {
      assert other != pid ==> At(s', other) == At(s, other);
    }
  }

  /** A job that is lost stays lost over any run: no worker is ever handed it again, and no pass finds
      it. */
  lemma LostForGood(k: Keys, timeout: nat, ss: seq<System>, steps: seq<(Pid, Action)>, i: nat, j: nat, id: JobId)
    requires Run(k, timeout, ss, steps) && i <= j < |ss| && id in ss[i].enqueued && Lost(k, ss[i], id)
    ensures id in ss[j].enqueued && Lost(k, ss[j], id)
  {
    RunIsCourse(k, timeout, ss, steps, id);
    StaysLost(k, ss, steps, i, j, id);
  }

  lemma {:induction false} StaysLost(k: Keys, ss: seq<System>, steps: seq<(Pid, Action)>, i: nat, j: nat, id: JobId)
    requires Course(k, ss, steps, id) && i <= j < |ss| && id in ss[i].enqueued && Lost(k, ss[i], id)
    ensures id in ss[j].enqueued && Lost(k, ss[j], id)
    decreases j
  {
    if i < j {
      StaysLost(k, ss, steps, i, j - 1, id);
      assert Goes(k, ss[j - 1], steps[j - 1].0, steps[j - 1].1, ss[j - 1 + 1], id);
      StepStaysLost(k, ss[j - 1], steps[j - 1].0, steps[j - 1].1, ss[j], id);
    }
  }

  // A pass over one job -----------------------------------------------------------------------------

  /** Step `i` puts the job back, and step `j` of the same pass removes its claim. */
  ghost predicate IsPass(ss: seq<System>, steps: seq<(Pid, Action)>, i: nat, j: nat, pid: Pid, id: JobId) {
    && i < j < |steps| < |ss|
    && steps[i].0 == steps[j].0 == pid && steps[j].1.Advance?
    && PutsBack(ss[i], pid, steps[i].1, id)
    && forall n :: i < n < j ==> steps[n].0 != pid
  }

  /** After step `i` the job was taken out of its sorted set, and no pass put it back since. */
  ghost predicate TakenSince(ss: seq<System>, steps: seq<(Pid, Action)>, id: JobId, i: nat, j: nat)
    requires j <= |steps| < |ss|
  {
    exists n: nat :: i < n < j && TakenFor(ss, steps, id, n, j)
  }

  ghost predicate TakenFor(ss: seq<System>, steps: seq<(Pid, Action)>, id: JobId, n: nat, j: nat)
    requires n < j <= |steps| < |ss|
  {
    && TakesOut(ss[n], steps[n].0, steps[n].1, id)
    && forall m :: n < m < j ==> !PutsBack(ss[m], steps[m].0, steps[m].1, id)
  }

  lemma {:induction false} WaitsUnlessTaken(k: Keys, ss: seq<System>, steps: seq<(Pid, Action)>, i: nat, j: nat,
                                            id: JobId)
    requires Course(k, ss, steps, id) && i < j < |ss| && Enqueued(ss[i], id)
    requires PutsBack(ss[i], steps[i].0, steps[i].1, id)
    ensures Enqueued(ss[j], id)
    ensures Waiting(k, ss[j], id) <==> !TakenSince(ss, steps, id, i, j)
    decreases j
  {
    var s, pid, a := ss[j - 1], steps[j - 1].0, steps[j - 1].1;
    assert Goes(k, s, pid, a, ss[j - 1 + 1], id);
    if i < j - 1 {
      WaitsUnlessTaken(k, ss, steps, i, j - 1, id);
      TakenStep(ss, steps, id, i, j);
    }
  }

  lemma TakenStep(ss: seq<System>, steps: seq<(Pid, Action)>, id: JobId, i: nat, j: nat)
    requires i < j - 1 && j <= |steps| < |ss|
    ensures var s, pid, a := ss[j - 1], steps[j - 1].0, steps[j - 1].1;
      TakenSince(ss, steps, id, i, j) <==>
        TakesOut(s, pid, a, id) || (TakenSince(ss, steps, id, i, j - 1) && !PutsBack(s, pid, a, id))
  {
    var s, pid, a := ss[j - 1], steps[j - 1].0, steps[j - 1].1;
    if TakesOut(s, pid, a, id) { assert TakenFor(ss, steps, id, j - 1, j); }
    if TakenSince(ss, steps, id, i, j - 1) && !PutsBack(s, pid, a, id) {
      var n: nat :| i < n < j - 1 && TakenFor(ss, steps, id, n, j - 1);
      assert TakenFor(ss, steps, id, n, j);
    }
    if TakenSince(ss, steps, id, i, j) && !TakesOut(s, pid, a, id) {
      var n: nat :| i < n < j && TakenFor(ss, steps, id, n, j);
      assert TakenFor(ss, steps, id, n, j - 1);
    }
  }

  // The listing ---------------------------------------------------------------------------------------

  ghost predicate OneClaimEach(listed: seq<Claim>) {
    forall i, j :: 0 <= i < j < |listed| ==> listed[i].jobId != listed[j].jobId
  }

  ghost predicate ListsOnce(proc: Proc) {
    proc.CheckZadd? || proc.CheckHdel? ==> OneClaimEach(proc.listed)
  }

  lemma StepListsOnce(k: Keys, timeout: nat, s: System, q: Pid, a: Action, pid: Pid)
    requires Enabled(timeout, s, q, a) && ListsOnce(At(s, pid))
    ensures ListsOnce(At(Next(k, s, q, a), pid))
  {
    OthersStay(k, s, q, a);
    if q == pid {
      match a
      case BeginCheck(listed, _) =>
        forall i, j | 0 <= i < j < |listed| ensures listed[i].jobId != listed[j].jobId {
          assert Listed(s, listed[i]) && Listed(s, listed[j]);
        }
      case Advance(now, late) => EffectListsOnce(k, s, At(s, pid), now, late);
      case _ =>
    }
  }

  lemma EffectListsOnce(k: Keys, s: System, proc: Proc, now: int, late: bool)
    requires ListsOnce(proc)
    ensures ListsOnce(Effect(k, s, proc, now, late).1)
  {
  }

  /** A listing has one claim for each job. */
  lemma {:induction false} RunListsOnce(k: Keys, timeout: nat, ss: seq<System>, steps: seq<(Pid, Action)>,
                                        i: nat, pid: Pid)
    requires Run(k, timeout, ss, steps) && i < |ss|
    ensures ListsOnce(At(ss[i], pid))
  {
    if i > 0 {
      RunListsOnce(k, timeout, ss, steps, i - 1, pid);
      StepListsOnce(k, timeout, ss[i - 1], steps[i - 1].0, steps[i - 1].1, pid);
    }
  }

  // The race ------------------------------------------------------------------------------------------

  lemma {:induction false} StillToRemove(k: Keys, ss: seq<System>, steps: seq<(Pid, Action)>,
                                         i: nat, j: nat, pid: Pid, id: JobId, n: nat)
    requires Course(k, ss, steps, id) && IsPass(ss, steps, i, j, pid, id) && i < n <= j
    ensures At(ss[n], pid) == At(ss[i + 1], pid)
    decreases n
  {
    if n > i + 1 {
      StillToRemove(k, ss, steps, i, j, pid, id, n - 1);
      assert Goes(k, ss[n - 1], steps[n - 1].0, steps[n - 1].1, ss[n - 1 + 1], id);
    }
  }

  lemma RemovesClaim(k: Keys, s: System, pid: Pid, a: Action, id: JobId)
    requires At(s, pid).CheckHdel? && At(s, pid).listed != [] && At(s, pid).listed[0].jobId == id && a.Advance?
    requires OneClaimEach(At(s, pid).listed)
    ensures var s' := Next(k, s, pid, a);
      && s'.claims == s.claims - {id} && s'.descs == s.descs
      && (Waiting(k, s', id) <==> Waiting(k, s, id))
      && At(s', pid) == CheckZadd(At(s, pid).listed[1..]) && !Lists(At(s', pid), id)
      && forall q :: q != pid ==> At(s', q) == At(s, q)
  {
    OthersStay(k, s, pid, a);
  }

  /** When step `i` of a pass has put a job back and step `j` removes its claim, whoever's it is by
      then: the job still waits unless it was taken out in between; and it ends up with its description
      and nothing else exactly when it was taken out in between, was not put back again, and every
      other call that had it in hand is done with it, so that the claim that is removed was the last
      that was left of it. */
  lemma StrandsExactly(k: Keys, timeout: nat, ss: seq<System>, steps: seq<(Pid, Action)>,
                       i: nat, j: nat, pid: Pid, id: JobId)
    requires Run(k, timeout, ss, steps) && IsPass(ss, steps, i, j, pid, id)
    ensures ss[j + 1].claims == ss[j].claims - {id}
    ensures Waiting(k, ss[j + 1], id) <==> !TakenSince(ss, steps, id, i, j)
    ensures Stranded(k, ss[j + 1], id) <==>
      && id in ss[j].descs && TakenSince(ss, steps, id, i, j)
      && forall q :: q != pid ==> !Holds(At(ss[j], q), id) && !Lists(At(ss[j], q), id)
  {
    RunIsCourse(k, timeout, ss, steps, id);
    PassIsEnqueued(k, timeout, ss, steps, i, pid, id);
    WaitsUnlessTaken(k, ss, steps, i, j, id);
    StillToRemove(k, ss, steps, i, j, pid, id, j);
    AfterPuttingBack(k, ss[i], pid, steps[i].1, id);
    RunListsOnce(k, timeout, ss, steps, j, pid);
    RemovesClaim(k, ss[j], pid, steps[j].1, id);
    NobodyElse(k, ss[j], ss[j + 1], pid, id);
  }

  lemma AfterPuttingBack(k: Keys, s: System, pid: Pid, a: Action, id: JobId)
    requires PutsBack(s, pid, a, id)
    ensures var proc := At(Next(k, s, pid, a), pid);
      proc.CheckHdel? && proc.listed != [] && proc.listed[0].jobId == id
  {
  }

  lemma NobodyElse(k: Keys, s: System, s': System, pid: Pid, id: JobId)
    requires s'.claims == s.claims - {id} && s'.descs == s.descs && (Waiting(k, s', id) <==> Waiting(k, s, id))
    requires At(s', pid).CheckZadd? && !Lists(At(s', pid), id)
    requires (forall q :: q != pid ==> At(s', q) == At(s, q)) && Enqueued(s, id)
    ensures Stranded(k, s', id) <==>
      && id in s.descs && !Waiting(k, s, id)
      && forall q :: q != pid ==> !Holds(At(s, q), id) && !Lists(At(s, q), id)
  {
    if Stranded(k, s', id) {
      forall q | q != pid ensures !Holds(At(s, q), id) && !Lists(At(s, q), id) { assert At(s', q) == At(s, q); }
    }
    forall q | q != pid ensures !Enqueues(At(s', q), id) { assert At(s', q) == At(s, q); }
  }

  /** What a pass puts back was claimed once, so its enqueuer is done. */
  lemma PassIsEnqueued(k: Keys, timeout: nat, ss: seq<System>, steps: seq<(Pid, Action)>, i: nat, pid: Pid, id: JobId)
    requires Run(k, timeout, ss, steps) && i < |steps| && PutsBack(ss[i], pid, steps[i].1, id)
    ensures Enqueued(ss[i], id)
  {
    RunNewborn(k, timeout, ss, steps, i, id);
    var proc := At(ss[i], pid);
    assert ProcOk(ss[i], proc) && ClaimOk(ss[i], proc.listed[0]) && Lists(proc, id);
    forall e ensures !Enqueues(At(ss[i], e), id) { assert Apart(ss[i], id, e, pid); }
  }

  // It happens ----------------------------------------------------------------------------------------

  /** A job claimed too long ago is listed and put back. */
  lemma IsPutBack(k: Keys, timeout: nat, id: JobId, priority: Priority, worker: string, time: int, now: int,
                  owner: Pid, checker: Pid)
    returns (ss: seq<System>, steps: seq<(Pid, Action)>)
    requires now > time + timeout && owner != checker
    ensures Run(k, timeout, ss, steps) && |steps| > 0
    ensures var n, c := |steps|, Claim(id, priority, worker, time, None);
      && steps[n - 1] == (checker, Advance(now, false)) && At(ss[n - 1], checker) == CheckZadd([c])
      && At(ss[n], checker) == CheckHdel([c]) && At(ss[n], owner) == HandedOut(None, worker, id)
      && (forall other :: other != owner && other != checker ==> At(ss[n], other) == Idle)
    ensures var s := ss[|steps|];
      && s.descs == map[id := None] && s.enqueued == map[id := (None, priority)]
      && id in ZSet(s, k.Pending(None)) && ZSet(s, k.Pending(None))[id] == priority.Score()
  {
    var c := Claim(id, priority, worker, time, None);
    var ss0, steps0 := ClaimsIt(k, timeout, id, priority, owner, worker, time);
    assert Listed(ss0[|steps0|], c) && TooOld(c, now, timeout);
    var ss1, steps1, listed := Extend(k, timeout, ss0, steps0, checker, BeginCheck([c], now));
    assert At(listed, checker) == CheckZadd([c]);
    var back;
    ss, steps, back := Extend(k, timeout, ss1, steps1, checker, Advance(now, false));
  }

  lemma ClaimsTaken(k: Keys, timeout: nat, ss: seq<System>, steps: seq<(Pid, Action)>, id: JobId, priority: Priority,
                    other: string, now: int, taker: Pid)
    returns (ss': seq<System>, steps': seq<(Pid, Action)>)
    requires Run(k, timeout, ss, steps)
    requires var s := ss[|steps|];
      id in s.descs && !Waiting(k, s, id) && At(s, taker) == ClaimGet(None, other, id, priority)
    ensures Run(k, timeout, ss', steps') && ss <= ss'
    ensures steps' == steps + [(taker, Advance(now, false)), (taker, Advance(now, false))]
    ensures var s, s' := ss[|steps|], ss'[|steps'|];
      && s'.descs == s.descs && id in s'.claims && s'.claims[id] == Claim(id, priority, other, now, None)
      && !Waiting(k, s', id) && At(s', taker) == HandedOut(None, other, id)
      && forall q :: q != taker ==> At(s', q) == At(s, q)
  {
    var ss1, steps1, looked := Extend(k, timeout, ss, steps, taker, Advance(now, false));
    assert At(looked, taker) == ClaimSet(None, other, id, priority) && !Waiting(k, looked, id);
    var claimed;
    ss', steps', claimed := Extend(k, timeout, ss1, steps1, taker, Advance(now, false));
  }

  /** And at once claimed by another worker. */
  lemma IsClaimedAgain(k: Keys, timeout: nat, ss: seq<System>, steps: seq<(Pid, Action)>, id: JobId, priority: Priority,
                       other: string, now: int, taker: Pid)
    returns (ss': seq<System>, steps': seq<(Pid, Action)>)
    requires Run(k, timeout, ss, steps) && At(ss[|steps|], taker) == Idle
    requires var s := ss[|steps|];
      && s.descs == map[id := None] && s.enqueued == map[id := (None, priority)]
      && id in ZSet(s, k.Pending(None)) && ZSet(s, k.Pending(None))[id] == priority.Score()
    ensures Run(k, timeout, ss', steps') && |steps'| == |steps| + 4 && ss <= ss' && steps <= steps'
    ensures forall n :: |steps| <= n < |steps'| ==> steps'[n].0 == taker
    ensures !Waiting(k, ss'[|steps'|], id)
    ensures var s, s' := ss[|steps|], ss'[|steps'|];
      && s'.descs == s.descs && id in s'.claims && s'.claims[id] == Claim(id, priority, other, now, None)
      && At(s', taker) == HandedOut(None, other, id) && forall q :: q != taker ==> At(s', q) == At(s, q)
  {
    var ss1, steps1 := TakesItOut(k, timeout, ss, steps, id, priority, taker, other);
    assert !Waiting(k, ss1[|steps1|], id);
    ss', steps' := ClaimsTaken(k, timeout, ss1, steps1, id, priority, other, now, taker);
    forall n | |steps| <= n < |steps'| ensures steps'[n].0 == taker {
      assert steps1[|steps|..][0] == steps1[|steps|] && steps1[|steps|..][1] == steps1[|steps| + 1];
    }
  }

  /** So the pass removes the claim of a worker that has just been handed the job, and nobody can come
      by it any more. */
  lemma FreshClaimIsRemoved(k: Keys, timeout: nat, id: JobId, priority: Priority, worker: string, other: string,
                            time: int, now: int, owner: Pid, checker: Pid, taker: Pid)
    returns (ss: seq<System>, steps: seq<(Pid, Action)>)
    requires now > time + timeout && owner != checker && owner != taker && checker != taker
    ensures Run(k, timeout, ss, steps) && |steps| >= 6
    ensures var j := |steps| - 1;
      && IsPass(ss, steps, j - 5, j, checker, id)
      && id in ss[j].claims && ss[j].claims[id] == Claim(id, priority, other, now, None)
      && At(ss[j + 1], taker) == HandedOut(None, other, id) && Stranded(k, ss[j + 1], id)
  {
    var ss0, steps0 := IsPutBack(k, timeout, id, priority, worker, time, now, owner, checker);
    var ss1, steps1 := IsClaimedAgain(k, timeout, ss0, steps0, id, priority, other, now, taker);
    var s, n := ss1[|steps1|], |steps0|;
    assert At(s, checker) == At(ss0[n], checker) && At(s, owner) == At(ss0[n], owner);
    var end;
    ss, steps, end := Extend(k, timeout, ss1, steps1, checker, Advance(now, false));
    assert ss[n - 1] == ss0[n - 1] && steps[n - 1] == steps0[n - 1];
    LastClaimGone(k, s, end, owner, checker, taker, id, now);
  }

  lemma LastClaimGone(k: Keys, s: System, s': System, owner: Pid, checker: Pid, taker: Pid, id: JobId, now: int)
    requires s' == Next(k, s, checker, Advance(now, false)) && id in s.descs && !Waiting(k, s, id)
    requires At(s, checker).CheckHdel? && |At(s, checker).listed| == 1 && At(s, checker).listed[0].jobId == id
    requires At(s, owner).HandedOut? && At(s, taker).HandedOut?
    requires forall q :: q != owner && q != checker && q != taker ==> At(s, q) == Idle
    ensures Stranded(k, s', id) && forall q :: q != checker ==> At(s', q) == At(s, q)
  {
    RemovesClaim(k, s, checker, Advance(now, false), id);
  }
}
