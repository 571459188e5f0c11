/** The work queue at the granularity of single Redis commands (wq/src/lib.rs). Pipelines are
    not transactions, so the commands of concurrent calls interleave freely. What survives is
    that partitions and priorities stay apart. */
module WqCommands {
  import opened Prelude
  import opened WqKeys

  type Pid = nat

  /** The claim loop a cancellation was made from, if it was. */
  type Loop = Option<(Partition, string)>

  /** What a call has left to do, with what it has read so far. */
  datatype Proc =
    | Idle
    | EnqueueSet(id: JobId, p: Partition, priority: Priority)
    | EnqueueSadd(id: JobId, p: Partition, priority: Priority)
    | EnqueueZadd(id: JobId, p: Partition, priority: Priority)
    | ClaimPop(p: Partition, worker: string)
    | ClaimGet(p: Partition, worker: string, id: JobId, priority: Priority)
    | ClaimSet(p: Partition, worker: string, id: JobId, priority: Priority)
    | HandedOut(p: Partition, worker: string, id: JobId)
    | CancelGet(id: JobId, loop: Loop)
    | CancelZrem(id: JobId, p: Partition, loop: Loop)
    | CancelDel(id: JobId, loop: Loop)
    | CancelHdel(id: JobId, loop: Loop)
    | RefreshGet(id: JobId, worker: string)
    | RefreshSet(id: JobId, claim: Claim)
    | CheckZadd(listed: seq<Claim>)
    | CheckHdel(listed: seq<Claim>)

  /** Sorted sets are kept under their keys. `enqueued` remembers what callers asked for. */
  datatype System = System(
    zsets: map<string, map<JobId, int>>,
    descs: map<JobId, Partition>,
    claims: map<JobId, Claim>,
    partitions: set<string>,
    procs: map<Pid, Proc>,
    enqueued: map<JobId, (Partition, Priority)>)

  function ZSet(s: System, key: string): map<JobId, int> {
    if key in s.zsets then s.zsets[key] else map[]
  }

  /** `EndClaim` and `DelDesc` stand for the two commands of `resolve_job`, `delete_job_result`
      and the orphan pass that touch these keys; they may come at any time. */
  datatype Action =
    | BeginEnqueue(id: JobId, request: Option<string>, priority: Priority)
    | BeginClaim(request: Option<string>, worker: string)
    | BeginCancel(id: JobId)
    | BeginRefresh(id: JobId, worker: string)
    | BeginCheck(listed: seq<Claim>, now: int)
    | Pop(member: JobId)
    | Advance(now: int, late: bool)
    | EndClaim(id: JobId)
    | DelDesc(id: JobId)

  function At(s: System, pid: Pid): Proc {
    if pid in s.procs then s.procs[pid] else Idle
  }

  function Goto(s: System, pid: Pid, proc: Proc): System {
    s.(procs := s.procs[pid := proc])
  }

  predicate Listed(s: System, c: Claim) {
    c.jobId in s.claims && s.claims[c.jobId] == c
  }

  ghost predicate Enabled(timeout: nat, s: System, pid: Pid, a: Action) {
    match a
    case BeginEnqueue(id, request, priority) => At(s, pid).Idle? && id !in s.enqueued
    case BeginClaim(_, _) => At(s, pid).Idle? || At(s, pid).HandedOut?
    case BeginCancel(_) => At(s, pid).Idle?
    case BeginRefresh(_, _) => At(s, pid).Idle?
    // the listing is what HGETALL returned, restricted to the claims that are too old
    case BeginCheck(listed, now) =>
      && At(s, pid).Idle? && NoDup(listed)
      && forall i :: 0 <= i < |listed| ==> Listed(s, listed[i]) && TooOld(listed[i], now, timeout)
    case Pop(_) => At(s, pid).ClaimPop?
    case Advance(_, _) => !At(s, pid).ClaimPop?
    case EndClaim(_) => true
    case DelDesc(_) => true
  }

  function Next(k: Keys, s: System, pid: Pid, a: Action): System {
    match a
    case BeginEnqueue(id, request, priority) =>
      var p := k.Normalize(request);
      if p.Err? then s
      else Goto(s, pid, EnqueueSet(id, p.value, priority)).(enqueued := s.enqueued[id := (p.value, priority)])
    case BeginClaim(request, worker) =>
      var p := k.Normalize(request);
      if p.Err? then s else Goto(s, pid, ClaimPop(p.value, worker))
    case BeginCancel(id) => Goto(s, pid, CancelGet(id, None))
    case BeginRefresh(id, worker) => Goto(s, pid, RefreshGet(id, worker))
    case BeginCheck(listed, _) => Goto(s, pid, CheckZadd(listed))
    case Pop(member) => PopMember(k, s, pid, member)
    case Advance(now, late) => Command(k, s, pid, now, late)
    case EndClaim(id) => s.(claims := s.claims - {id})
    case DelDesc(id) => s.(descs := s.descs - {id})
  }

  /** `ZPOPMIN` may be taken to return any member here: which one does not matter. */
  function PopMember(k: Keys, s: System, pid: Pid, member: JobId): System {
    var proc := At(s, pid);
    if !proc.ClaimPop? then s
    else
      var key := k.Pending(proc.p);
      if member !in ZSet(s, key) then s
      else
        var priority := PriorityFromScore(ZSet(s, key)[member]);
        var popped := s.(zsets := s.zsets[key := ZSet(s, key) - {member}]);
        if priority.None? then Goto(popped, pid, Idle)
        else Goto(popped, pid, ClaimGet(proc.p, proc.worker, member, priority.value))
  }

  /** The next command of the call that `pid` is in. */
  function Command(k: Keys, s: System, pid: Pid, now: int, late: bool): System {
    var (s', proc) := Effect(k, s, At(s, pid), now, late);
    Goto(s', pid, proc)
  }

  function ZAdd(k: Keys, s: System, p: Partition, id: JobId, priority: Priority): System {
    s.(zsets := s.zsets[k.Pending(p) := ZSet(s, k.Pending(p))[id := priority.Score()]])
  }

  /** What one command does to the keys, and what its call has left to do then. */
  function Effect(k: Keys, s: System, proc: Proc, now: int, late: bool): (System, Proc) {
    match proc
    case EnqueueSet(id, p, priority) =>
      (s.(descs := s.descs[id := p]),
       if p.Some? then EnqueueSadd(id, p, priority) else EnqueueZadd(id, p, priority))
    case EnqueueSadd(id, p, priority) =>
      (s.(partitions := if p.Some? then s.partitions + {p.value} else s.partitions),
       EnqueueZadd(id, p, priority))
    case EnqueueZadd(id, p, priority) => (ZAdd(k, s, p, id, priority), Idle)
    case ClaimGet(p, worker, id, priority) =>
      (s, if id !in s.descs then Idle
          else if late then CancelGet(id, Some((p, worker)))
          else ClaimSet(p, worker, id, priority))
    case ClaimSet(p, worker, id, priority) =>
      (s.(claims := s.claims[id := Claim(id, priority, worker, now, p)]), HandedOut(p, worker, id))
    case CancelGet(id, loop) => (s, CancelZrem(id, if id in s.descs then s.descs[id] else None, loop))
    case CancelZrem(id, p, loop) =>
      (s.(zsets := s.zsets[k.Pending(p) := ZSet(s, k.Pending(p)) - {id}]), CancelDel(id, loop))
    case CancelDel(id, loop) => (s.(descs := s.descs - {id}), CancelHdel(id, loop))
    case CancelHdel(id, loop) =>
      (s.(claims := s.claims - {id}), if loop.Some? then ClaimPop(loop.value.0, loop.value.1) else Idle)
    case RefreshGet(id, worker) =>
      (s, if id in s.claims && s.claims[id].workerId == worker
          then RefreshSet(id, s.claims[id].(time := now)) else Idle)
    case RefreshSet(id, claim) => (s.(claims := s.claims[id := claim]), Idle)
    case CheckZadd(listed) =>
      if listed == [] then (s, Idle)
      else (ZAdd(k, s, listed[0].partition, listed[0].jobId, listed[0].priority), CheckHdel(listed))
    case CheckHdel(listed) =>
      if listed == [] then (s, Idle)
      else (s.(claims := s.claims - {listed[0].jobId}), CheckZadd(listed[1..]))
    case _ => (s, proc)
  }

  // Isolation -----------------------------------------------------------------------------

  ghost predicate Asked(s: System, id: JobId, p: Partition, priority: Priority) {
    id in s.enqueued && s.enqueued[id] == (p, priority)
  }

  ghost predicate ClaimOk(s: System, c: Claim) {
    Asked(s, c.jobId, c.partition, c.priority)
  }

  ghost predicate ProcOk(s: System, proc: Proc) {
    match proc
    case EnqueueSet(id, p, priority) => Asked(s, id, p, priority)
    case EnqueueSadd(id, p, priority) => Asked(s, id, p, priority)
    case EnqueueZadd(id, p, priority) => Asked(s, id, p, priority)
    case ClaimGet(p, worker, id, priority) => Asked(s, id, p, priority)
    case ClaimSet(p, worker, id, priority) => Asked(s, id, p, priority)
    case HandedOut(p, worker, id) => id in s.enqueued && s.enqueued[id].0 == p
    case RefreshSet(id, claim) => claim.jobId == id && ClaimOk(s, claim)
    case CheckZadd(listed) => forall i :: 0 <= i < |listed| ==> ClaimOk(s, listed[i])
    case CheckHdel(listed) => forall i :: 0 <= i < |listed| ==> ClaimOk(s, listed[i])
    case _ => true
  }

  ghost predicate MemberOk(k: Keys, s: System, key: string, id: JobId) {
    id in ZSet(s, key) ==>
      && id in s.enqueued
      && key == k.Pending(s.enqueued[id].0)
      && ZSet(s, key)[id] == s.enqueued[id].1.Score()
  }

  ghost predicate RecordOk(s: System, id: JobId) {
    id in s.claims ==> s.claims[id].jobId == id && ClaimOk(s, s.claims[id])
  }

  ghost predicate Isolated(k: Keys, s: System) {
    && (forall key, id :: MemberOk(k, s, key, id))
    && (forall id :: RecordOk(s, id))
    && (forall pid :: ProcOk(s, At(s, pid)))
  }

  /** Enough for a step of `pid` to keep the system isolated. Asking for one more job does not
      change what was asked for the others. */
  lemma Settles(k: Keys, s: System, pid: Pid, s': System)
    requires forall other :: ProcOk(s, At(s, other))
    requires forall id :: id in s.enqueued ==> id in s'.enqueued && s'.enqueued[id] == s.enqueued[id]
    requires forall other :: other != pid ==> At(s', other) == At(s, other)
    requires ProcOk(s', At(s', pid))
    requires forall key, id :: MemberOk(k, s', key, id)
    requires forall id :: RecordOk(s', id)
    ensures Isolated(k, s')
  {
    forall other ensures ProcOk(s', At(s', other)) {
      assert ProcOk(s, At(s, other));
    }
  }

  lemma PopIsolated(k: Keys, s: System, pid: Pid, member: JobId)
    requires Isolated(k, s)
    ensures Isolated(k, PopMember(k, s, pid, member))
  {
    var s' := PopMember(k, s, pid, member);
    var proc := At(s, pid);
    if proc.ClaimPop? && member in ZSet(s, k.Pending(proc.p)) {
      assert MemberOk(k, s, k.Pending(proc.p), member);
      PendingInjective(k, proc.p, s.enqueued[member].0);
      CodesRoundTrip(s.enqueued[member].1, ZSet(s, k.Pending(proc.p))[member], Pending, 0);
      forall key, id ensures MemberOk(k, s', key, id) { assert MemberOk(k, s, key, id); }
      forall id ensures RecordOk(s', id) { assert RecordOk(s, id); }
      Settles(k, s, pid, s');
    }
  }

  lemma EffectMembers(k: Keys, s: System, proc: Proc, now: int, late: bool, key: string, id: JobId)
    requires MemberOk(k, s, key, id) && ProcOk(s, proc)
    ensures MemberOk(k, Effect(k, s, proc, now, late).0, key, id)
  {
    match proc
    case EnqueueZadd(x, p, priority) => ZAddMember(k, s, p, x, priority, key, id);
    case CheckZadd(listed) =>
      if listed != [] {
        assert ClaimOk(s, listed[0]);
        ZAddMember(k, s, listed[0].partition, listed[0].jobId, listed[0].priority, key, id);
      }
    case _ =>
  }

  lemma ZAddMember(k: Keys, s: System, p: Partition, id: JobId, priority: Priority, key: string, other: JobId)
    requires Asked(s, id, p, priority) && MemberOk(k, s, key, other)
    ensures MemberOk(k, ZAdd(k, s, p, id, priority), key, other)
  {
  }

  lemma EffectRecords(k: Keys, s: System, proc: Proc, now: int, late: bool, id: JobId)
    requires RecordOk(s, id) && ProcOk(s, proc)
    ensures RecordOk(Effect(k, s, proc, now, late).0, id)
  {
  }

  lemma EffectProc(k: Keys, s: System, proc: Proc, now: int, late: bool)
    requires ProcOk(s, proc) && forall id :: RecordOk(s, id)
    ensures ProcOk(s, Effect(k, s, proc, now, late).1)
    ensures Effect(k, s, proc, now, late).0.enqueued == s.enqueued
    ensures Effect(k, s, proc, now, late).0.procs == s.procs
  {
    match proc
    case RefreshGet(id, worker) => assert RecordOk(s, id);
    case CheckHdel(listed) => assert forall i :: 0 < i < |listed| ==> listed[1..][i - 1] == listed[i];
    case _ =>
  }

  lemma CommandIsolated(k: Keys, s: System, pid: Pid, now: int, late: bool)
    requires Isolated(k, s)
    ensures Isolated(k, Command(k, s, pid, now, late))
  {
    var proc := At(s, pid);
    assert ProcOk(s, proc);
    EffectProc(k, s, proc, now, late);
    var (s', proc') := Effect(k, s, proc, now, late);
    var s'' := Goto(s', pid, proc');
    forall key, id ensures MemberOk(k, s'', key, id) {
      assert MemberOk(k, s, key, id);
      EffectMembers(k, s, proc, now, late, key, id);
    }
    forall id ensures RecordOk(s'', id) {
      assert RecordOk(s, id);
      EffectRecords(k, s, proc, now, late, id);
    }
    Settles(k, s, pid, s'');
  }

  /** A call that has just begun, or a claim or description that someone else removed. */
  lemma QuietIsolated(k: Keys, s: System, pid: Pid, s': System)
    requires Isolated(k, s) && s'.zsets == s.zsets
    requires forall id :: id in s.enqueued ==> id in s'.enqueued && s'.enqueued[id] == s.enqueued[id]
    requires forall id :: id in s'.claims ==> id in s.claims && s'.claims[id] == s.claims[id]
    requires forall other :: other != pid ==> At(s', other) == At(s, other)
    requires ProcOk(s', At(s', pid))
    ensures Isolated(k, s')
  {
    forall key, id ensures MemberOk(k, s', key, id) { assert MemberOk(k, s, key, id); }
    forall id ensures RecordOk(s', id) { assert RecordOk(s, id); }
    Settles(k, s, pid, s');
  }

  lemma StepIsolated(k: Keys, timeout: nat, s: System, pid: Pid, a: Action)
    requires Isolated(k, s) && Enabled(timeout, s, pid, a)
    ensures Isolated(k, Next(k, s, pid, a))
  {
    assert ProcOk(s, At(s, pid));
    match a
    case Pop(member) => PopIsolated(k, s, pid, member);
    case Advance(now, late) => CommandIsolated(k, s, pid, now, late);
    case BeginCheck(listed, _) =>
      forall i | 0 <= i < |listed| ensures ClaimOk(s, listed[i]) { assert RecordOk(s, listed[i].jobId); }
      QuietIsolated(k, s, pid, Next(k, s, pid, a));
    case EndClaim(id) =>
      QuietIsolated(k, s, pid, Next(k, s, pid, a));
    case DelDesc(id) =>
      QuietIsolated(k, s, pid, Next(k, s, pid, a));
    case BeginEnqueue(id, request, priority) =>
      if k.Normalize(request).Ok? { QuietIsolated(k, s, pid, Next(k, s, pid, a)); }
    case BeginClaim(request, worker) =>
      if k.Normalize(request).Ok? { QuietIsolated(k, s, pid, Next(k, s, pid, a)); }
    case BeginCancel(id) => QuietIsolated(k, s, pid, Next(k, s, pid, a));
    case BeginRefresh(id, worker) => QuietIsolated(k, s, pid, Next(k, s, pid, a));
  }

  ghost predicate Run(k: Keys, timeout: nat, ss: seq<System>, steps: seq<(Pid, Action)>) {
    && |ss| == |steps| + 1
    && ss[0] == System(map[], map[], map[], {}, map[], map[])
    && forall i :: 0 <= i < |steps| ==>
         Enabled(timeout, ss[i], steps[i].0, steps[i].1) && ss[i + 1] == Next(k, ss[i], steps[i].0, steps[i].1)
  }

  lemma {:induction false} RunIsolated(k: Keys, timeout: nat, ss: seq<System>, steps: seq<(Pid, Action)>, i: nat)
    requires Run(k, timeout, ss, steps) && i < |ss|
    ensures Isolated(k, ss[i])
  {
    if i > 0 {
      RunIsolated(k, timeout, ss, steps, i - 1);
      StepIsolated(k, timeout, ss[i - 1], steps[i - 1].0, steps[i - 1].1);
    }
  }

  /** In every interleaving: a job is only ever in the sorted set of the partition it was
      enqueued in, with that priority; a claim for it carries the same two; and a worker asking
      for one partition is only handed jobs that were enqueued for it. */
  lemma PartitionsStayApart(k: Keys, timeout: nat, ss: seq<System>, steps: seq<(Pid, Action)>, i: nat,
                            p: Partition, id: JobId, pid: Pid)
    requires Run(k, timeout, ss, steps) && i < |ss|
    ensures id in ZSet(ss[i], k.Pending(p)) ==>
              id in ss[i].enqueued && ss[i].enqueued[id].0 == p
              && PriorityFromScore(ZSet(ss[i], k.Pending(p))[id]) == Some(ss[i].enqueued[id].1)
    ensures id in ss[i].claims ==>
              id in ss[i].enqueued
              && ss[i].enqueued[id] == (ss[i].claims[id].partition, ss[i].claims[id].priority)
    ensures At(ss[i], pid).HandedOut? ==>
              var h := At(ss[i], pid); h.id in ss[i].enqueued && ss[i].enqueued[h.id].0 == h.p
  {
    RunIsolated(k, timeout, ss, steps, i);
    assert MemberOk(k, ss[i], k.Pending(p), id) && RecordOk(ss[i], id) && ProcOk(ss[i], At(ss[i], pid));
    if id in ZSet(ss[i], k.Pending(p)) {
      PendingInjective(k, p, ss[i].enqueued[id].0);
    }
  }

  // What was asked for --------------------------------------------------------------------

  /** The partition and the worker of the claim loop that a call is in. */
  function LoopOf(proc: Proc): Loop {
    match proc
    case ClaimPop(p, worker) => Some((p, worker))
    case ClaimGet(p, worker, _, _) => Some((p, worker))
    case ClaimSet(p, worker, _, _) => Some((p, worker))
    case HandedOut(p, worker, _) => Some((p, worker))
    case CancelGet(_, loop) => loop
    case CancelZrem(_, _, loop) => loop
    case CancelDel(_, loop) => loop
    case CancelHdel(_, loop) => loop
    case _ => None
  }

  lemma LoopGoesOn(k: Keys, s: System, pid: Pid, a: Action, other: Pid)
    requires LoopOf(At(Next(k, s, pid, a), other)).Some?
    ensures LoopOf(At(Next(k, s, pid, a), other)) == LoopOf(At(s, other)) || (other == pid && a.BeginClaim?)
  {
    if other != pid {
      OthersStay(k, s, pid, a);
    } else if a.Advance? {
      EffectKeepsLoop(k, s, At(s, pid), a.now, a.late);
    } else if a.Pop? {
      PopKeepsLoop(k, s, pid, a.member);
    }
  }

  lemma OthersStay(k: Keys, s: System, pid: Pid, a: Action)
    ensures forall other :: other != pid ==> At(Next(k, s, pid, a), other) == At(s, other)
  {
    if a.Advance? { assert Effect(k, s, At(s, pid), a.now, a.late).0.procs == s.procs; }
  }

  lemma PopKeepsLoop(k: Keys, s: System, pid: Pid, member: JobId)
    ensures var loop := LoopOf(At(PopMember(k, s, pid, member), pid)); loop.Some? ==> loop == LoopOf(At(s, pid))
  {
  }

  lemma EffectKeepsLoop(k: Keys, s: System, proc: Proc, now: int, late: bool)
    ensures LoopOf(Effect(k, s, proc, now, late).1).Some? ==> LoopOf(Effect(k, s, proc, now, late).1) == LoopOf(proc)
  {
  }

  predicate AsksFor(k: Keys, step: (Pid, Action), pid: Pid, p: Partition, worker: string) {
    step.0 == pid && step.1.BeginClaim? && k.Normalize(step.1.request) == Ok(p) && step.1.worker == worker
  }

  predicate EnqueuesIn(k: Keys, step: (Pid, Action), id: JobId, p: Partition, priority: Priority) {
    step.1.BeginEnqueue? && step.1.id == id && k.Normalize(step.1.request) == Ok(p) && step.1.priority == priority
  }

  lemma {:induction false} LoopWasAsked(k: Keys, timeout: nat, ss: seq<System>, steps: seq<(Pid, Action)>, i: nat,
                                        pid: Pid) returns (m: nat)
    requires Run(k, timeout, ss, steps) && i < |ss| && LoopOf(At(ss[i], pid)).Some?
    ensures m < i && var loop := LoopOf(At(ss[i], pid)).value; AsksFor(k, steps[m], pid, loop.0, loop.1)
  {
    m := i - 1;
    LoopGoesOn(k, ss[m], steps[m].0, steps[m].1, pid);
    if LoopOf(At(ss[i], pid)) == LoopOf(At(ss[m], pid)) {
      m := LoopWasAsked(k, timeout, ss, steps, m, pid);
    }
  }

  lemma EnqueuedNow(k: Keys, s: System, pid: Pid, a: Action, id: JobId)
    requires id in Next(k, s, pid, a).enqueued
    ensures var now := Next(k, s, pid, a).enqueued[id];
      (id in s.enqueued && now == s.enqueued[id]) || EnqueuesIn(k, (pid, a), id, now.0, now.1)
  {
    if a.Advance? { EffectAsksNothing(k, s, At(s, pid), a.now, a.late); }
  }

  lemma EffectAsksNothing(k: Keys, s: System, proc: Proc, now: int, late: bool)
    ensures Effect(k, s, proc, now, late).0.enqueued == s.enqueued
  {
  }

  lemma {:induction false} JobWasEnqueued(k: Keys, timeout: nat, ss: seq<System>, steps: seq<(Pid, Action)>, i: nat,
                                          id: JobId) returns (m: nat)
    requires Run(k, timeout, ss, steps) && i < |ss| && id in ss[i].enqueued
    ensures m < i && EnqueuesIn(k, steps[m], id, ss[i].enqueued[id].0, ss[i].enqueued[id].1)
  {
    m := i - 1;
    EnqueuedNow(k, ss[m], steps[m].0, steps[m].1, id);
    if id in ss[m].enqueued && ss[i].enqueued[id] == ss[m].enqueued[id] {
      m := JobWasEnqueued(k, timeout, ss, steps, m, id);
    }
  }

  /** In terms of what callers asked for: a job is only handed to a worker that asked for the partition
      in the very words the job was enqueued with, or both meant the default one. */
  lemma HandedAsRequested(k: Keys, timeout: nat, ss: seq<System>, steps: seq<(Pid, Action)>, i: nat, pid: Pid)
    returns (asked: nat, enqueued: nat)
    requires Run(k, timeout, ss, steps) && i < |ss| && At(ss[i], pid).HandedOut?
    ensures asked < i && steps[asked].0 == pid && steps[asked].1.BeginClaim?
    ensures steps[asked].1.worker == At(ss[i], pid).worker
    ensures enqueued < i && steps[enqueued].1.BeginEnqueue? && steps[enqueued].1.id == At(ss[i], pid).id
    ensures var a, b := steps[asked].1.request, steps[enqueued].1.request;
      a == b || {a, b} <= {None, k.defaultPartition}
  {
    var h := At(ss[i], pid);
    PartitionsStayApart(k, timeout, ss, steps, i, h.p, h.id, pid);
    asked := LoopWasAsked(k, timeout, ss, steps, i, pid);
    enqueued := JobWasEnqueued(k, timeout, ss, steps, i, h.id);
    RequestsMeetExactlyInOnePartition(k, steps[asked].1.request, steps[enqueued].1.request);
  }
}
