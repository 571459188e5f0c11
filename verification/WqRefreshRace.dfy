/** Refreshing a claim reads it and then writes it (wq/src/lib.rs:440-461). With single commands as
    steps the expiry checker can come in between: exactly when a job then ends up claimed and waiting
    at the same time (wq/src/lib.rs:301-366). */
module WqRefreshRace {
  import opened Prelude
  import opened WqKeys
  import opened WqCommands

  // Where a job is while it is being enqueued -------------------------------------------------

  predicate Enqueues(proc: Proc, id: JobId) {
    (proc.EnqueueSet? || proc.EnqueueSadd? || proc.EnqueueZadd?) && proc.id == id
  }

  /** A call that has taken the job out of its sorted set, or has read its claim. */
  predicate Holds(proc: Proc, id: JobId) {
    (proc.ClaimGet? || proc.ClaimSet? || proc.RefreshSet?) && proc.id == id
  }

  ghost predicate Lists(proc: Proc, id: JobId) {
    (proc.CheckZadd? || proc.CheckHdel?) && exists i :: 0 <= i < |proc.listed| && proc.listed[i].jobId == id
  }

  /** The job is in the sorted set of its partition. */
  predicate Waiting(k: Keys, s: System, id: JobId) {
    id in s.enqueued && id in ZSet(s, k.Pending(s.enqueued[id].0))
  }

  ghost predicate Apart(s: System, id: JobId, pid: Pid, other: Pid) {
    Enqueues(At(s, pid), id) ==>
      && !Holds(At(s, other), id) && !Lists(At(s, other), id)
      && (Enqueues(At(s, other), id) ==> other == pid)
  }

  /** Until its enqueuer is done, nobody else has anything to do with a job. */
  ghost predicate Newborn(k: Keys, s: System, id: JobId) {
    && (forall pid :: Enqueues(At(s, pid), id) ==> id !in s.claims && !Waiting(k, s, id))
    && (forall pid, other :: Apart(s, id, pid, other))
  }

  /** What a step may do to what calls know about a job. */
  lemma KnowledgeGrows(k: Keys, timeout: nat, s: System, pid: Pid, a: Action, id: JobId)
    requires Isolated(k, s) && Enabled(timeout, s, pid, a)
    ensures KnowsMore(k, s, pid, a, Next(k, s, pid, a), id)
  {
    match a
    case Advance(now, late) => CommandKnows(k, s, pid, now, late, id);
    case Pop(member) => PopKnows(k, s, pid, member, id);
    case BeginCheck(listed, now) => ListingKnows(k, timeout, s, pid, listed, now, id);
    case _ => OthersStay(k, s, pid, a);
  }

  lemma ListingKnows(k: Keys, timeout: nat, s: System, pid: Pid, listed: seq<Claim>, now: int, id: JobId)
    requires Enabled(timeout, s, pid, BeginCheck(listed, now))
    ensures var a := BeginCheck(listed, now); KnowsMore(k, s, pid, a, Next(k, s, pid, a), id)
  {
    var s' := Next(k, s, pid, BeginCheck(listed, now));
    if Lists(At(s', pid), id) {
      var i :| 0 <= i < |listed| && listed[i].jobId == id;
      assert Listed(s, listed[i]);
    }
  }

  ghost predicate KnowsMore(k: Keys, s: System, pid: Pid, a: Action, s': System, id: JobId) {
    && (forall other :: other != pid ==> At(s', other) == At(s, other))
    && (Holds(At(s', pid), id) ==>
          Holds(At(s, pid), id) || (Waiting(k, s, id) && TakesOut(s, pid, a, id)) || id in s.claims)
    && (Lists(At(s', pid), id) ==> Lists(At(s, pid), id) || (id in s.claims && a.BeginCheck?))
    && (id in s'.claims ==> id in s.claims || Holds(At(s, pid), id))
    && (Enqueues(At(s', pid), id) ==> Enqueues(At(s, pid), id) || id !in s.enqueued)
  }

  lemma PopKnows(k: Keys, s: System, pid: Pid, member: JobId, id: JobId)
    requires Isolated(k, s)
    ensures KnowsMore(k, s, pid, Pop(member), PopMember(k, s, pid, member), id)
  {
    if At(s, pid).ClaimPop? {
      var p := At(s, pid).p;
      assert MemberOk(k, s, k.Pending(p), member);
      if member in ZSet(s, k.Pending(p)) { PendingInjective(k, p, s.enqueued[member].0); }
    }
  }

  lemma CommandKnows(k: Keys, s: System, pid: Pid, now: int, late: bool, id: JobId)
    ensures KnowsMore(k, s, pid, Advance(now, late), Command(k, s, pid, now, late), id)
  {
    EffectKnows(k, s, At(s, pid), now, late, id);
    if Lists(Effect(k, s, At(s, pid), now, late).1, id) { EffectLists(k, s, At(s, pid), now, late, id); }
  }

  lemma EffectKnows(k: Keys, s: System, proc: Proc, now: int, late: bool, id: JobId)
    ensures var (s', proc') := Effect(k, s, proc, now, late);
      && (Holds(proc', id) ==> Holds(proc, id) || id in s.claims)
      && (id in s'.claims ==> id in s.claims || Holds(proc, id))
      && (Enqueues(proc', id) ==> Enqueues(proc, id))
      && s'.procs == s.procs
  {
  }

  lemma EffectLists(k: Keys, s: System, proc: Proc, now: int, late: bool, id: JobId)
    requires Lists(Effect(k, s, proc, now, late).1, id)
    ensures Lists(proc, id)
  {
    if proc.CheckHdel? && proc.listed != [] {
      var i :| 0 <= i < |proc.listed| - 1 && proc.listed[1..][i].jobId == id;
      assert proc.listed[i + 1].jobId == id;
    }
  }

  /** Only an enqueuer or a pass puts a job into its sorted set, and only a claim or a cancellation in
      its partition takes it out. */
  lemma StepWaiting(k: Keys, timeout: nat, s: System, pid: Pid, a: Action, id: JobId)
    requires Isolated(k, s) && Enabled(timeout, s, pid, a)
    ensures Waiting(k, Next(k, s, pid, a), id) <==>
        || PutsBack(s, pid, a, id) || PutsIn(s, pid, a, id)
        || (Waiting(k, s, id) && !TakesOut(s, pid, a, id))
    ensures id in s.enqueued ==> id in Next(k, s, pid, a).enqueued && Next(k, s, pid, a).enqueued[id] == s.enqueued[id]
  {
    assert ProcOk(s, At(s, pid));
    match a
    case Advance(now, late) => CommandWaiting(k, s, pid, now, late, id);
    case Pop(member) => PopWaiting(k, s, pid, member, id);
    case BeginEnqueue(x, request, _) =>
      var s' := Next(k, s, pid, a);
      if x == id { forall key ensures id !in ZSet(s', key) { assert MemberOk(k, s, key, id); } }
    case _ =>
  }

  lemma PopWaiting(k: Keys, s: System, pid: Pid, member: JobId, id: JobId)
    requires At(s, pid).ClaimPop?
    ensures Waiting(k, PopMember(k, s, pid, member), id)
       <==> Waiting(k, s, id) && !TakesOut(s, pid, Pop(member), id)
  {
    if id in s.enqueued && k.Pending(At(s, pid).p) == k.Pending(s.enqueued[id].0) {
      PendingInjective(k, At(s, pid).p, s.enqueued[id].0);
    }
  }

  lemma CommandWaiting(k: Keys, s: System, pid: Pid, now: int, late: bool, id: JobId)
    requires ProcOk(s, At(s, pid))
    ensures var a := Advance(now, late);
      Waiting(k, Command(k, s, pid, now, late), id) <==>
        || PutsBack(s, pid, a, id) || PutsIn(s, pid, a, id)
        || (Waiting(k, s, id) && !TakesOut(s, pid, a, id))
  {
    EffectWaiting(k, s, At(s, pid), now, late, id);
    var s1 := Effect(k, s, At(s, pid), now, late).0;
    assert Waiting(k, Command(k, s, pid, now, late), id) <==> Waiting(k, s1, id);
  }

  lemma EffectWaiting(k: Keys, s: System, proc: Proc, now: int, late: bool, id: JobId)
    requires ProcOk(s, proc)
    ensures Waiting(k, Effect(k, s, proc, now, late).0, id) <==>
        || (proc.CheckZadd? && proc.listed != [] && proc.listed[0].jobId == id)
        || (proc.EnqueueZadd? && proc.id == id)
        || (Waiting(k, s, id) && !(proc.CancelZrem? && proc.id == id && proc.p == s.enqueued[id].0))
  {
    match proc
    case CancelZrem(x, p, _) => ZRemWaiting(k, s, p, x, id);
    case EnqueueZadd(x, p, priority) => ZAddWaiting(k, s, p, x, priority, id);
    case CheckZadd(listed) =>
      if listed != [] {
        assert ClaimOk(s, listed[0]);
        ZAddWaiting(k, s, listed[0].partition, listed[0].jobId, listed[0].priority, id);
      }
    case _ => SameWaiting(k, s, Effect(k, s, proc, now, late).0, id);
  }

  lemma SameWaiting(k: Keys, s: System, s': System, id: JobId)
    requires s'.zsets == s.zsets && s'.enqueued == s.enqueued
    ensures Waiting(k, s', id) <==> Waiting(k, s, id)
  {
  }

  lemma ZRemWaiting(k: Keys, s: System, p: Partition, x: JobId, id: JobId)
    ensures Waiting(k, s.(zsets := s.zsets[k.Pending(p) := ZSet(s, k.Pending(p)) - {x}]), id)
       <==> Waiting(k, s, id) && !(x == id && p == s.enqueued[id].0)
  {
    if id in s.enqueued && k.Pending(p) == k.Pending(s.enqueued[id].0) { PendingInjective(k, p, s.enqueued[id].0); }
  }

  lemma ZAddWaiting(k: Keys, s: System, p: Partition, x: JobId, priority: Priority, id: JobId)
    requires Asked(s, x, p, priority)
    ensures Waiting(k, ZAdd(k, s, p, x, priority), id) <==> x == id || Waiting(k, s, id)
  {
  }

  /** The `ZADD` of an enqueuer. */
  predicate PutsIn(s: System, pid: Pid, a: Action, id: JobId) {
    a.Advance? && At(s, pid).EnqueueZadd? && At(s, pid).id == id
  }

  /** The `ZADD` of a pass. */
  predicate PutsBack(s: System, pid: Pid, a: Action, id: JobId) {
    var proc := At(s, pid);
    a.Advance? && proc.CheckZadd? && proc.listed != [] && proc.listed[0].jobId == id
  }

  predicate TakesOut(s: System, pid: Pid, a: Action, id: JobId) {
    var proc := At(s, pid);
    && id in s.enqueued
    && ( || (a == Pop(id) && proc.ClaimPop? && proc.p == s.enqueued[id].0)
         || (a.Advance? && proc.CancelZrem? && proc.id == id && proc.p == s.enqueued[id].0))
  }

  // What holds of every job over a run --------------------------------------------------------

  lemma NothingKnown(k: Keys, s: System, id: JobId)
    requires Isolated(k, s) && id !in s.enqueued
    ensures id !in s.claims
    ensures forall pid :: !Holds(At(s, pid), id) && !Lists(At(s, pid), id) && !Enqueues(At(s, pid), id)
  {
    assert RecordOk(s, id);
    forall pid ensures !Holds(At(s, pid), id) && !Lists(At(s, pid), id) && !Enqueues(At(s, pid), id) {
      assert ProcOk(s, At(s, pid));
    }
  }

  lemma NewbornKeeps(k: Keys, timeout: nat, s: System, pid: Pid, a: Action, id: JobId)
    requires Isolated(k, s) && Enabled(timeout, s, pid, a) && Newborn(k, s, id)
    ensures Newborn(k, Next(k, s, pid, a), id)
  {
    var s' := Next(k, s, pid, a);
    KnowledgeGrows(k, timeout, s, pid, a, id);
    StepWaiting(k, timeout, s, pid, a, id);
    if id !in s.enqueued {
      NothingKnown(k, s, id);
      forall e, other ensures Apart(s', id, e, other) {
        assert other != pid ==> At(s', other) == At(s, other);
        assert e != pid ==> At(s', e) == At(s, e);
      }
      forall e | Enqueues(At(s', e), id) ensures id !in s'.claims && !Waiting(k, s', id) {
        assert !Lists(At(s, pid), id);
      }
    } else {
      forall e, other ensures Apart(s', id, e, other) { StaysApart(k, s, pid, a, s', id, e, other); }
      forall e | Enqueues(At(s', e), id) ensures id !in s'.claims && !Waiting(k, s', id) {
        assert Enqueues(At(s, e), id) && Apart(s, id, e, pid);
      }
    }
  }

  lemma StaysApart(k: Keys, s: System, pid: Pid, a: Action, s': System, id: JobId, e: Pid, other: Pid)
    requires Newborn(k, s, id) && id in s.enqueued && KnowsMore(k, s, pid, a, s', id)
    ensures Apart(s', id, e, other)
  {
    if Enqueues(At(s', e), id) {
      assert Enqueues(At(s, e), id);
      assert Apart(s, id, e, other) && Apart(s, id, e, pid);
    }
  }

  lemma {:induction false} RunNewborn(k: Keys, timeout: nat, ss: seq<System>, steps: seq<(Pid, Action)>, i: nat,
                                      id: JobId)
    requires Run(k, timeout, ss, steps) && i < |ss|
    ensures Isolated(k, ss[i]) && Newborn(k, ss[i], id)
  {
    RunIsolated(k, timeout, ss, steps, i);
    if i > 0 {
      RunNewborn(k, timeout, ss, steps, i - 1, id);
      NewbornKeeps(k, timeout, ss[i - 1], steps[i - 1].0, steps[i - 1].1, id);
    }
  }

  /** All that the following needs to know about one step. */
  ghost predicate Goes(k: Keys, s: System, pid: Pid, a: Action, s': System, id: JobId) {
    && KnowsMore(k, s, pid, a, s', id)
    && (Waiting(k, s', id) <==>
          PutsBack(s, pid, a, id) || PutsIn(s, pid, a, id) || (Waiting(k, s, id) && !TakesOut(s, pid, a, id)))
    && (id in s.enqueued ==> id in s'.enqueued)
  }

  ghost predicate Course(k: Keys, ss: seq<System>, steps: seq<(Pid, Action)>, id: JobId) {
    && |ss| == |steps| + 1 && id !in ss[0].enqueued
    && (forall i :: 0 <= i < |ss| ==> Newborn(k, ss[i], id) && RecordOk(ss[i], id))
    && (forall i :: 0 <= i < |steps| ==> Goes(k, ss[i], steps[i].0, steps[i].1, ss[i + 1], id))
  }

  lemma RunIsCourse(k: Keys, timeout: nat, ss: seq<System>, steps: seq<(Pid, Action)>, id: JobId)
    requires Run(k, timeout, ss, steps)
    ensures Course(k, ss, steps, id)
  {
    forall i | 0 <= i < |ss| ensures Newborn(k, ss[i], id) && RecordOk(ss[i], id) {
      RunNewborn(k, timeout, ss, steps, i, id);
    }
    forall i | 0 <= i < |steps| ensures Goes(k, ss[i], steps[i].0, steps[i].1, ss[i + 1], id) {
      RunIsolated(k, timeout, ss, steps, i);
      KnowledgeGrows(k, timeout, ss[i], steps[i].0, steps[i].1, id);
      StepWaiting(k, timeout, ss[i], steps[i].0, steps[i].1, id);
    }
  }

  /** The enqueuer of a job is done. */
  ghost predicate Enqueued(s: System, id: JobId) {
    id in s.enqueued && forall pid :: !Enqueues(At(s, pid), id)
  }

  // Put back between two moments --------------------------------------------------------------

  ghost predicate StaysIn(ss: seq<System>, steps: seq<(Pid, Action)>, id: JobId, i: nat, j: nat)
    requires j <= |steps| < |ss|
  {
    forall n :: i <= n < j ==> !TakesOut(ss[n], steps[n].0, steps[n].1, id)
  }

  ghost predicate PutBackAt(ss: seq<System>, steps: seq<(Pid, Action)>, id: JobId, m: nat, j: nat)
    requires m < j <= |steps| < |ss|
  {
    PutsBack(ss[m], steps[m].0, steps[m].1, id) && StaysIn(ss, steps, id, m + 1, j)
  }

  /** A pass put the job back, at step `i` or later, and it was not taken out again before `j`. */
  ghost predicate PutBack(ss: seq<System>, steps: seq<(Pid, Action)>, id: JobId, i: nat, j: nat)
    requires j <= |steps| < |ss|
  {
    exists m: nat :: i <= m < j && PutBackAt(ss, steps, id, m, j)
  }

  lemma OneMoreStep(ss: seq<System>, steps: seq<(Pid, Action)>, id: JobId, i: nat, j: nat)
    requires i < j <= |steps| < |ss|
    ensures PutBack(ss, steps, id, i, j) <==>
        || PutsBack(ss[j - 1], steps[j - 1].0, steps[j - 1].1, id)
        || (PutBack(ss, steps, id, i, j - 1) && !TakesOut(ss[j - 1], steps[j - 1].0, steps[j - 1].1, id))
  {
    if PutsBack(ss[j - 1], steps[j - 1].0, steps[j - 1].1, id) { assert PutBackAt(ss, steps, id, j - 1, j); }
    if PutBack(ss, steps, id, i, j - 1) && !TakesOut(ss[j - 1], steps[j - 1].0, steps[j - 1].1, id) {
      var m: nat :| i <= m < j - 1 && PutBackAt(ss, steps, id, m, j - 1);
      assert PutBackAt(ss, steps, id, m, j);
    }
    if PutBack(ss, steps, id, i, j) && !PutsBack(ss[j - 1], steps[j - 1].0, steps[j - 1].1, id) {
      var m: nat :| i <= m < j && PutBackAt(ss, steps, id, m, j);
      assert PutBackAt(ss, steps, id, m, j - 1);
    }
  }

  /** Once it is enqueued, only passes put a job back. */
  lemma {:induction false} WaitingExactly(k: Keys, ss: seq<System>, steps: seq<(Pid, Action)>, i: nat, j: nat,
                                          id: JobId)
    requires Course(k, ss, steps, id) && i <= j < |ss| && Enqueued(ss[i], id)
    ensures Enqueued(ss[j], id)
    ensures Waiting(k, ss[j], id) <==>
        PutBack(ss, steps, id, i, j) || (Waiting(k, ss[i], id) && StaysIn(ss, steps, id, i, j))
    decreases j
  {
    if i < j {
      WaitingExactly(k, ss, steps, i, j - 1, id);
      assert Goes(k, ss[j - 1], steps[j - 1].0, steps[j - 1].1, ss[j - 1 + 1], id);
      OneMoreStep(ss, steps, id, i, j);
    }
  }

  /** Nobody has claimed the job, and nobody is about to. */
  ghost predicate Calm(s: System, id: JobId) {
    id !in s.claims && forall pid :: !Holds(At(s, pid), id) && !Lists(At(s, pid), id)
  }

  lemma StaysCalm(k: Keys, s: System, pid: Pid, a: Action, s': System, id: JobId)
    requires Goes(k, s, pid, a, s', id) && Waiting(k, s', id) && !PutsBack(s, pid, a, id)
    requires Newborn(k, s, id) && (PutsIn(s, pid, a, id) || Calm(s, id))
    ensures Calm(s', id)
  {
    if PutsIn(s, pid, a, id) {
      forall other ensures !Holds(At(s, other), id) && !Lists(At(s, other), id) { assert Apart(s, id, pid, other); }
    }
    forall other ensures !Holds(At(s', other), id) && !Lists(At(s', other), id) {
      assert other != pid ==> At(s', other) == At(s, other);
    }
  }

  /** A job that waits has nothing else going on, unless a pass put it back. */
  lemma {:induction false} CalmOrPutBack(k: Keys, ss: seq<System>, steps: seq<(Pid, Action)>, i: nat, id: JobId)
    requires Course(k, ss, steps, id) && i < |ss| && Waiting(k, ss[i], id)
    ensures Calm(ss[i], id) || PutBack(ss, steps, id, 0, i)
  {
    if i > 0 {
      var s, pid, a := ss[i - 1], steps[i - 1].0, steps[i - 1].1;
      assert Goes(k, s, pid, a, ss[i - 1 + 1], id);
      OneMoreStep(ss, steps, id, 0, i);
      if !PutBack(ss, steps, id, 0, i) {
        if !PutsIn(s, pid, a, id) { CalmOrPutBack(k, ss, steps, i - 1, id); }
        StaysCalm(k, s, pid, a, ss[i], id);
      }
    }
  }

  // Which passes put back ---------------------------------------------------------------------

  predicate ListsTooOld(timeout: nat, s: System, a: Action, c: Claim) {
    a.BeginCheck? && c in a.listed && Listed(s, c) && TooOld(c, a.now, timeout)
  }

  /** What a pass has yet to put back, it found too old when it listed the claims. */
  lemma {:induction false} ListedAsTooOld(k: Keys, timeout: nat, ss: seq<System>, steps: seq<(Pid, Action)>, m: nat,
                                          pid: Pid, c: Claim) returns (b: nat)
    requires Run(k, timeout, ss, steps) && m < |ss|
    requires IsListing(At(ss[m], pid), c)
    ensures b < m && steps[b].0 == pid && ListsTooOld(timeout, ss[b], steps[b].1, c)
  {
    var s, q, a := ss[m - 1], steps[m - 1].0, steps[m - 1].1;
    if q == pid && a.BeginCheck? {
      b := m - 1;
    } else {
      ListedBefore(k, s, q, a, pid, c);
      b := ListedAsTooOld(k, timeout, ss, steps, m - 1, pid, c);
    }
  }

  predicate IsListing(proc: Proc, c: Claim) {
    (proc.CheckZadd? || proc.CheckHdel?) && c in proc.listed
  }

  lemma ListedBefore(k: Keys, s: System, q: Pid, a: Action, pid: Pid, c: Claim)
    requires IsListing(At(Next(k, s, q, a), pid), c) && !(q == pid && a.BeginCheck?)
    ensures IsListing(At(s, pid), c)
  {
    OthersStay(k, s, q, a);
    if q == pid && a.Advance? { EffectListing(k, s, At(s, pid), a.now, a.late, c); }
  }

  lemma EffectListing(k: Keys, s: System, proc: Proc, now: int, late: bool, c: Claim)
    requires IsListing(Effect(k, s, proc, now, late).1, c)
    ensures IsListing(proc, c)
  {
  }

  /** As `PutBack`, by a pass that, when it listed the claims, had found one for the job too old. */
  ghost predicate PutBackAsTooOld(timeout: nat, ss: seq<System>, steps: seq<(Pid, Action)>, id: JobId, i: nat, j: nat)
    requires j <= |steps| < |ss|
  {
    exists m: nat, b: nat ::
      b < m && i <= m < j && PutBackAt(ss, steps, id, m, j) && FoundTooOld(timeout, ss, steps, id, b, m)
  }

  ghost predicate FoundTooOld(timeout: nat, ss: seq<System>, steps: seq<(Pid, Action)>, id: JobId, b: nat, m: nat)
    requires b < m < |steps| < |ss|
  {
    && steps[b].0 == steps[m].0
    && exists c: Claim :: c.jobId == id && ListsTooOld(timeout, ss[b], steps[b].1, c)
  }

  lemma PutBackMeansTooOld(k: Keys, timeout: nat, ss: seq<System>, steps: seq<(Pid, Action)>, id: JobId, i: nat, j: nat)
    requires Run(k, timeout, ss, steps) && j <= |steps|
    ensures PutBack(ss, steps, id, i, j) <==> PutBackAsTooOld(timeout, ss, steps, id, i, j)
  {
    if PutBack(ss, steps, id, i, j) {
      var m: nat :| i <= m < j && PutBackAt(ss, steps, id, m, j);
      var pid := steps[m].0;
      var c := At(ss[m], pid).listed[0];
      var b := ListedAsTooOld(k, timeout, ss, steps, m, pid, c);
      assert FoundTooOld(timeout, ss, steps, id, b, m);
    }
  }

  // The race ----------------------------------------------------------------------------------

  ghost predicate Doubled(k: Keys, s: System, id: JobId) {
    id in s.claims && Waiting(k, s, id)
  }

  /** Step `i` is the read of a refresh that finds the claim, step `j` is its write. */
  ghost predicate IsRefresh(ss: seq<System>, steps: seq<(Pid, Action)>, i: nat, j: nat, pid: Pid, id: JobId) {
    && i < j < |steps| < |ss|
    && steps[i].0 == steps[j].0 == pid && steps[i].1.Advance? && steps[j].1.Advance?
    && At(ss[i], pid).RefreshGet? && At(ss[i], pid).id == id && At(ss[i + 1], pid).RefreshSet?
    && forall n :: i < n < j ==> steps[n].0 != pid
  }

  lemma {:induction false} StillToWrite(k: Keys, ss: seq<System>, steps: seq<(Pid, Action)>,
                                        i: nat, j: nat, pid: Pid, id: JobId, n: nat)
    requires Course(k, ss, steps, id) && IsRefresh(ss, steps, i, j, pid, id) && i < n <= j
    ensures At(ss[n], pid) == At(ss[i + 1], pid)
    decreases n
  {
    if n > i + 1 {
      StillToWrite(k, ss, steps, i, j, pid, id, n - 1);
      assert Goes(k, ss[n - 1], steps[n - 1].0, steps[n - 1].1, ss[n - 1 + 1], id);
    }
  }

  lemma RefreshReads(k: Keys, s: System, pid: Pid, a: Action, id: JobId)
    requires At(s, pid).RefreshGet? && At(s, pid).id == id && a.Advance? && At(Next(k, s, pid, a), pid).RefreshSet?
    ensures id in s.claims && At(Next(k, s, pid, a), pid).id == id
    ensures forall x :: !TakesOut(s, pid, a, x) && !PutsBack(s, pid, a, x)
  {
  }

  lemma RefreshWrites(k: Keys, s: System, pid: Pid, a: Action, id: JobId)
    requires At(s, pid).RefreshSet? && At(s, pid).id == id && a.Advance?
    ensures var s' := Next(k, s, pid, a); id in s'.claims && (Waiting(k, s', id) <==> Waiting(k, s, id))
  {
  }

  /** Whatever comes between the read and the write of a refresh: the job ends up claimed, and it is
      waiting as well exactly when a pass that had found a claim of it too old put it back and it has
      not been taken out again; when it was not waiting at the read, between the two. */
  lemma RefreshDoublesExactly(k: Keys, timeout: nat, ss: seq<System>, steps: seq<(Pid, Action)>,
                              i: nat, j: nat, pid: Pid, id: JobId)
    requires Run(k, timeout, ss, steps) && IsRefresh(ss, steps, i, j, pid, id)
    ensures id in ss[j + 1].claims
    ensures Doubled(k, ss[j + 1], id) <==> PutBackAsTooOld(timeout, ss, steps, id, 0, j)
    ensures !Waiting(k, ss[i], id) ==>
      (Doubled(k, ss[j + 1], id) <==> PutBackAsTooOld(timeout, ss, steps, id, i + 1, j))
  {
    RunIsCourse(k, timeout, ss, steps, id);
    StillToWrite(k, ss, steps, i, j, pid, id, j);
    RefreshReads(k, ss[i], pid, steps[i].1, id);
    RefreshWrites(k, ss[j], pid, steps[j].1, id);
    ReadToWrite(k, ss, steps, i, j, id);
    PutBackMeansTooOld(k, timeout, ss, steps, id, 0, j);
    PutBackMeansTooOld(k, timeout, ss, steps, id, i + 1, j);
  }

  /** The same, for any time from a moment on at which the job is claimed. */
  lemma ReadToWrite(k: Keys, ss: seq<System>, steps: seq<(Pid, Action)>, i: nat, j: nat, id: JobId)
    requires Course(k, ss, steps, id) && i < j <= |steps| && id in ss[i].claims
    requires !PutsBack(ss[i], steps[i].0, steps[i].1, id)
    ensures Waiting(k, ss[j], id) <==> PutBack(ss, steps, id, 0, j)
    ensures !Waiting(k, ss[i], id) ==> (Waiting(k, ss[j], id) <==> PutBack(ss, steps, id, i + 1, j))
  {
    assert RecordOk(ss[i], id) && Newborn(k, ss[i], id);
    WaitingExactly(k, ss, steps, i, j, id);
    if Waiting(k, ss[i], id) { CalmOrPutBack(k, ss, steps, i, id); }
    SincePutBack(ss, steps, id, i, j);
    if PutBack(ss, steps, id, 0, i) { PutBackKeepsWaiting(k, ss, steps, id, i); }
  }

  /** A pass before `i` counts when nothing was taken out since. */
  lemma SincePutBack(ss: seq<System>, steps: seq<(Pid, Action)>, id: JobId, i: nat, j: nat)
    requires i < j <= |steps| < |ss|
    requires !PutsBack(ss[i], steps[i].0, steps[i].1, id)
    ensures PutBack(ss, steps, id, i, j) <==> PutBack(ss, steps, id, i + 1, j)
    ensures PutBack(ss, steps, id, 0, j) <==>
      PutBack(ss, steps, id, i, j) || (PutBack(ss, steps, id, 0, i) && StaysIn(ss, steps, id, i, j))
  {
    if PutBack(ss, steps, id, i, j) {
      var m: nat :| i <= m < j && PutBackAt(ss, steps, id, m, j);
      assert m != i;
    }
    if PutBack(ss, steps, id, 0, i) && StaysIn(ss, steps, id, i, j) {
      var m: nat :| m < i && PutBackAt(ss, steps, id, m, i);
      assert PutBackAt(ss, steps, id, m, j);
    }
    if PutBack(ss, steps, id, 0, j) && !PutBack(ss, steps, id, i, j) {
      var m: nat :| m < j && PutBackAt(ss, steps, id, m, j);
      assert PutBackAt(ss, steps, id, m, i);
    }
  }

  lemma {:induction false} PutBackKeepsWaiting(k: Keys, ss: seq<System>, steps: seq<(Pid, Action)>, id: JobId, i: nat)
    requires Course(k, ss, steps, id) && i < |ss| && PutBack(ss, steps, id, 0, i)
    ensures Waiting(k, ss[i], id)
  {
    if i > 0 {
      OneMoreStep(ss, steps, id, 0, i);
      assert Goes(k, ss[i - 1], steps[i - 1].0, steps[i - 1].1, ss[i - 1 + 1], id);
      if PutBack(ss, steps, id, 0, i - 1) { PutBackKeepsWaiting(k, ss, steps, id, i - 1); }
    }
  }

  /** A job whose claims are within the timeout whenever a pass lists them is never claimed and
      waiting at once, whatever else interleaves. */
  lemma InTimeNeverDoubled(k: Keys, timeout: nat, ss: seq<System>, steps: seq<(Pid, Action)>, i: nat, id: JobId)
    requires Run(k, timeout, ss, steps) && i < |ss|
    requires forall b :: 0 <= b < i && steps[b].1.BeginCheck? && id in ss[b].claims ==>
               !TooOld(ss[b].claims[id], steps[b].1.now, timeout)
    ensures !Doubled(k, ss[i], id)
  {
    if Doubled(k, ss[i], id) {
      RunIsCourse(k, timeout, ss, steps, id);
      CalmOrPutBack(k, ss, steps, i, id);
      PutBackMeansTooOld(k, timeout, ss, steps, id, 0, i);
    }
  }

  // It happens --------------------------------------------------------------------------------

  /** The run, with one more step. */
  lemma Extend(k: Keys, timeout: nat, ss: seq<System>, steps: seq<(Pid, Action)>, pid: Pid, a: Action)
    returns (ss': seq<System>, steps': seq<(Pid, Action)>, end: System)
    requires Run(k, timeout, ss, steps) && Enabled(timeout, ss[|steps|], pid, a)
    ensures Run(k, timeout, ss', steps') && end == Next(k, ss[|steps|], pid, a)
    ensures steps' == steps + [(pid, a)] && ss' == ss + [end]
    ensures forall other :: other != pid ==> At(end, other) == At(ss[|steps|], other)
  {
    end := Next(k, ss[|steps|], pid, a);
    OthersStay(k, ss[|steps|], pid, a);
    ss', steps' := ss + [end], steps + [(pid, a)];
    forall i | 0 <= i < |steps'|
      ensures Enabled(timeout, ss'[i], steps'[i].0, steps'[i].1)
      ensures ss'[i + 1] == Next(k, ss'[i], steps'[i].0, steps'[i].1)
    {
      if i < |steps| { assert ss'[i + 1] == ss[i + 1]; }
    }
  }

  /** A job is enqueued in the default partition. */
  lemma EnqueuesFirst(k: Keys, timeout: nat, id: JobId, priority: Priority, pid: Pid)
    returns (ss: seq<System>, steps: seq<(Pid, Action)>)
    ensures Run(k, timeout, ss, steps)
    ensures var s := ss[|steps|];
      && s.enqueued == map[id := (None, priority)] && s.descs == map[id := None] && s.claims == map[]
      && id in ZSet(s, k.Pending(None)) && ZSet(s, k.Pending(None))[id] == priority.Score()
      && forall other :: At(s, other) == Idle
  {
    var s0 := System(map[], map[], map[], {}, map[], map[]);
    var s1, s2, s3;
    ss, steps := [s0], [];
    assert Run(k, timeout, ss, steps);
    ss, steps, s1 := Extend(k, timeout, ss, steps, pid, BeginEnqueue(id, None, priority));
    ss, steps, s2 := Extend(k, timeout, ss, steps, pid, Advance(0, false));
    assert At(s2, pid) == EnqueueZadd(id, None, priority) && s2.descs == map[id := None];
    ss, steps, s3 := Extend(k, timeout, ss, steps, pid, Advance(0, false));
  }

  lemma TakesItOut(k: Keys, timeout: nat, ss: seq<System>, steps: seq<(Pid, Action)>, id: JobId, priority: Priority,
                   pid: Pid, worker: string)
    returns (ss': seq<System>, steps': seq<(Pid, Action)>)
    requires Run(k, timeout, ss, steps)
    requires var s := ss[|steps|];
      && id in ZSet(s, k.Pending(None)) && ZSet(s, k.Pending(None))[id] == priority.Score()
      && At(s, pid) == Idle
    ensures Run(k, timeout, ss', steps')
    ensures |steps'| == |steps| + 2 && ss <= ss' && steps <= steps'
    ensures steps'[|steps|..] == [(pid, BeginClaim(None, worker)), (pid, Pop(id))]
    ensures At(ss'[|steps| + 1], pid) == ClaimPop(None, worker)
    ensures var s, s' := ss[|steps|], ss'[|steps'|];
      && s'.enqueued == s.enqueued && s'.descs == s.descs && s'.claims == s.claims
      && At(s', pid) == ClaimGet(None, worker, id, priority) && id !in ZSet(s', k.Pending(None))
      && forall other :: other != pid ==> At(s', other) == At(s, other)
  {
    var s1, s2;
    CodesRoundTrip(priority, priority.Score(), Pending, 0);
    ss', steps', s1 := Extend(k, timeout, ss, steps, pid, BeginClaim(None, worker));
    ss', steps', s2 := Extend(k, timeout, ss', steps', pid, Pop(id));
  }

  /** And claimed at `time`. */
  lemma ClaimsIt(k: Keys, timeout: nat, id: JobId, priority: Priority, pid: Pid, worker: string, time: int)
    returns (ss: seq<System>, steps: seq<(Pid, Action)>)
    ensures Run(k, timeout, ss, steps)
    ensures var s := ss[|steps|];
      && s.enqueued == map[id := (None, priority)] && s.descs == map[id := None]
      && s.claims == map[id := Claim(id, priority, worker, time, None)]
      && At(s, pid) == HandedOut(None, worker, id) && forall other :: other != pid ==> At(s, other) == Idle
  {
    ss, steps := EnqueuesFirst(k, timeout, id, priority, pid);
    var s3, s4;
    ss, steps := TakesItOut(k, timeout, ss, steps, id, priority, pid, worker);
    ss, steps, s3 := Extend(k, timeout, ss, steps, pid, Advance(time, false));
    ss, steps, s4 := Extend(k, timeout, ss, steps, pid, Advance(time, false));
  }

  /** It is listed as too old, and then its claim is read for a refresh. */
  lemma IsListedAndRead(k: Keys, timeout: nat, id: JobId, priority: Priority, worker: string, time: int, now: int,
                        owner: Pid, refresher: Pid, checker: Pid)
    returns (ss: seq<System>, steps: seq<(Pid, Action)>)
    requires now > time + timeout && owner != refresher && owner != checker && refresher != checker
    ensures Run(k, timeout, ss, steps) && |steps| > 0
    ensures var n, c := |steps|, Claim(id, priority, worker, time, None);
      && steps[n - 1] == (refresher, Advance(now, false)) && At(ss[n - 1], refresher) == RefreshGet(id, worker)
      && At(ss[n], refresher) == RefreshSet(id, c.(time := now))
      && At(ss[n], checker) == CheckZadd([c]) && ss[n].enqueued == map[id := (None, priority)]
  {
    ss, steps := ClaimsIt(k, timeout, id, priority, owner, worker, time);
    var s, c := ss[|steps|], Claim(id, priority, worker, time, None);
    var listed, asked, read;
    assert Listed(s, c) && TooOld(c, now, timeout) && At(s, checker).Idle? && At(s, refresher).Idle?;
    ss, steps, listed := Extend(k, timeout, ss, steps, checker, BeginCheck([c], now));
    ss, steps, asked := Extend(k, timeout, ss, steps, refresher, BeginRefresh(id, worker));
    assert asked.claims == s.claims && At(asked, checker) == CheckZadd([c]);
    ss, steps, read := Extend(k, timeout, ss, steps, refresher, Advance(now, false));
  }

  lemma PutsBackThenWrites(k: Keys, timeout: nat, read: System, refresher: Pid, checker: Pid, c: Claim, renewed: Claim,
                           now: int, priority: Priority)
    requires refresher != checker && c.partition == None && read.enqueued == map[c.jobId := (None, priority)]
    requires At(read, refresher) == RefreshSet(c.jobId, renewed) && At(read, checker) == CheckZadd([c])
    ensures var added := Next(k, read, checker, Advance(now, false));
      var back := Next(k, added, checker, Advance(now, false));
      Doubled(k, Next(k, back, refresher, Advance(now, false)), c.jobId)
  {
    var added := Next(k, read, checker, Advance(now, false));
    assert Waiting(k, added, c.jobId) && At(added, checker) == CheckHdel([c]);
    var back := Next(k, added, checker, Advance(now, false));
    assert Waiting(k, back, c.jobId) && At(back, refresher) == RefreshSet(c.jobId, renewed);
  }

  lemma ThreeMore(k: Keys, timeout: nat, ss: seq<System>, steps: seq<(Pid, Action)>, checker: Pid, refresher: Pid,
                  now: int)
    returns (ss': seq<System>, steps': seq<(Pid, Action)>)
    requires Run(k, timeout, ss, steps) && checker != refresher
    requires At(ss[|steps|], checker).CheckZadd? && At(ss[|steps|], refresher).RefreshSet?
    ensures Run(k, timeout, ss', steps') && |steps'| == |steps| + 3 && ss <= ss' && steps <= steps'
    ensures steps'[|steps|..] ==
      [(checker, Advance(now, false)), (checker, Advance(now, false)), (refresher, Advance(now, false))]
    ensures var added := Next(k, ss[|steps|], checker, Advance(now, false));
      ss'[|steps'|] == Next(k, Next(k, added, checker, Advance(now, false)), refresher, Advance(now, false))
  {
    var ss1, steps1, added := Extend(k, timeout, ss, steps, checker, Advance(now, false));
    var ss2, steps2, back := Extend(k, timeout, ss1, steps1, checker, Advance(now, false));
    var end;
    ss', steps', end := Extend(k, timeout, ss2, steps2, refresher, Advance(now, false));
  }

  /** A job claimed more than the timeout ago is listed by a pass, and its claim read for a refresh;
      the pass puts the job back; and the refresh writes the claim again. */
  lemma RefreshRacesWithChecker(k: Keys, timeout: nat, id: JobId, priority: Priority, worker: string, time: int,
                                now: int, owner: Pid, refresher: Pid, checker: Pid)
    returns (ss: seq<System>, steps: seq<(Pid, Action)>)
    requires now > time + timeout && owner != refresher && owner != checker && refresher != checker
    ensures Run(k, timeout, ss, steps) && |steps| >= 4
    ensures IsRefresh(ss, steps, |steps| - 4, |steps| - 1, refresher, id)
    ensures Doubled(k, ss[|steps|], id)
  {
    var ss0, steps0 := IsListedAndRead(k, timeout, id, priority, worker, time, now, owner, refresher, checker);
    var n, c := |steps0|, Claim(id, priority, worker, time, None);
    PutsBackThenWrites(k, timeout, ss0[n], refresher, checker, c, c.(time := now), now, priority);
    ss, steps := ThreeMore(k, timeout, ss0, steps0, checker, refresher, now);
    assert ss[n - 1] == ss0[n - 1] && ss[n] == ss0[n] && steps[n - 1] == steps0[n - 1];
  }
}
