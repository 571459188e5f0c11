/** `wait_for_job` against `resolve_job`, one Redis command at a time (wq/src/lib.rs:488-723),
    for one job with any number of resolvers and waiters. The job is enqueued once, for its
    identifier is drawn for it. Other calls may claim it, put it back, refresh its claim and remove
    it, its claim or its result at any moment; the status key only goes away by expiring. */
module WqWaiter {
  import opened Prelude
  import opened WqKeys

  type Pid = nat

  const RESOLVED_TTL_SECS := 60

  /** How far a call of `resolve_job` is. From `SetEx` on, the result is written; from `Incr` on
      the status key was written, at `at`; from `DelJob` on the message was sent. */
  datatype Resolver =
    | HgetClaim(worker: string, status: JobStatus, cleans: bool, failed: bool)
    | GetJob(status: JobStatus, cleans: bool)
    | HdelClaim(status: JobStatus, cleans: bool)
    | SetResult(status: JobStatus, cleans: bool)
    | SetEx(status: JobStatus, cleans: bool)
    | Incr(status: JobStatus, cleans: bool, at: int)
    | Publish(status: JobStatus, cleans: bool, at: int)
    | DelJob(status: JobStatus, at: int)
    | DelResult(status: JobStatus, at: int)
    | Resolved(status: JobStatus, at: int)
    | Refused
  {
    predicate WroteResult() { SetEx? || WroteStatus() }
    predicate WroteStatus() { Incr? || Publish? || Published() }
    predicate Published() { DelJob? || DelResult? || Resolved? }
  }

  datatype Outcome = Ended(status: JobStatus) | NotFound | TimedOut

  /** How far a call of `wait_for_job` is, up to `Check3` inside `get_job_status`. */
  datatype WaiterAt =
    | Check0
    | Check1(hasResult: bool)
    | Check2(hasResult: bool, claimed: bool)
    | Check3(claimed: bool, queued: bool)
    | FirstStatus
    | Subscribe
    | GetResult
    | GetStatus
    | Blocked(since: int)
    | Returned(outcome: Outcome)

  datatype Waiter = Waiter(at: WaiterAt, inbox: seq<int>) {
    predicate Subscribed() { at.GetResult? || at.GetStatus? || at.Blocked? }
  }

  /** `job` is whether there is a description. `queued` counts the places from which the job can be
      taken: its sorted set, and claiming calls that have popped it and not looked at it yet. `taken`
      counts the calls that found it in time and are yet to write their claim, `listed` the passes
      that are yet to put it back, and `refreshing` has the owners, with the time of it, whose
      refresh has read the claim and is yet to write it. */
  datatype System = System(
    enqueued: bool,
    job: bool,
    deadline: int,
    queued: nat,
    taken: nat,
    claim: Option<string>,
    claimTime: int,
    timeout: nat,
    listed: nat,
    refreshing: set<(string, int)>,
    result: Option<JobStatus>,
    status: Option<(int, int)>,
    clock: int,
    resolvers: map<Pid, Resolver>,
    waiters: map<Pid, Waiter>)

  /** The status key as a reader sees it. */
  function StatusKey(s: System): Option<int> {
    if s.status.Some? && s.clock < s.status.value.1 then Some(s.status.value.0) else None
  }

  datatype Action =
    | BeginResolve(pid: Pid, worker: string, status: JobStatus, cleans: bool, failed: bool)
    | Resolve(pid: Pid)
    | BeginWait(pid: Pid)
    | Wait(pid: Pid)
    | GiveUp(pid: Pid)
    | Tick(seconds: nat)
    | Enqueue(deadline: int)
    | DropJob
    | DropResult
    | Unqueue
    | DropClaim
    | TakeJob
    | SetClaim(worker: string)
    | ListClaim
    | PutBack
    | ReadClaim(worker: string)
    | WriteClaim(worker: string, time: int)

  function Next(s: System, a: Action): System {
    match a
    case BeginResolve(pid, worker, status, cleans, failed) =>
      if pid in s.resolvers || !status.IsResolved() then s
      else s.(resolvers := s.resolvers[pid := HgetClaim(worker, status, cleans, failed)])
    case Resolve(pid) => if pid in s.resolvers then ResolverStep(s, pid) else s
    case BeginWait(pid) =>
      if pid in s.waiters then s else s.(waiters := s.waiters[pid := Waiter(Check0, [])])
    case Wait(pid) =>
      if pid in s.waiters then s.(waiters := s.waiters[pid := WaiterStep(s, s.waiters[pid])]) else s
    case GiveUp(pid) =>
      if pid in s.waiters && s.waiters[pid].at.Blocked?
      then s.(waiters := s.waiters[pid := s.waiters[pid].(at := Returned(TimedOut))]) else s
    case Tick(seconds) => s.(clock := s.clock + seconds)
    case Enqueue(deadline) =>
      if s.enqueued then s else s.(enqueued := true, job := true, deadline := deadline, queued := 1)
    case DropJob => s.(job := false)
    case DropResult => s.(result := None)
    case Unqueue => if s.queued > 0 then s.(queued := s.queued - 1) else s
    case DropClaim => s.(claim := None)
    case TakeJob =>
      if s.queued > 0 && s.job && s.clock <= s.deadline
      then s.(queued := s.queued - 1, taken := s.taken + 1) else s
    case SetClaim(worker) =>
      if s.taken > 0 then s.(claim := Some(worker), claimTime := s.clock, taken := s.taken - 1) else s
    case ListClaim =>
      if s.claim.Some? && Abs(s.clock - s.claimTime) > s.timeout then s.(listed := s.listed + 1) else s
    case PutBack => if s.listed > 0 then s.(queued := s.queued + 1, listed := s.listed - 1) else s
    case ReadClaim(worker) =>
      if s.claim == Some(worker) then s.(refreshing := s.refreshing + {(worker, s.clock)}) else s
    case WriteClaim(worker, time) =>
      if (worker, time) in s.refreshing
      then s.(claim := Some(worker), claimTime := time, refreshing := s.refreshing - {(worker, time)}) else s
  }

  /** Before it is enqueued there is nothing of the job anywhere. */
  predicate Unknown(s: System) {
    && !s.enqueued && !s.job && s.queued == 0 && s.taken == 0 && s.claim.None? && s.listed == 0 && s.refreshing == {}
    && s.result.None? && s.status.None?
  }

  function Deliver(ws: map<Pid, Waiter>, message: int): map<Pid, Waiter> {
    map pid | pid in ws ::
      if ws[pid].Subscribed() then ws[pid].(inbox := ws[pid].inbox + [message]) else ws[pid]
  }

  /** A callback that fails has the job reported as an internal error and cleaned up. */
  function ResolverActs(s: System, r: Resolver): (System, Resolver) {
    match r
    case HgetClaim(worker, status, cleans, failed) =>
      (s, if s.claim == Some(worker)
          then GetJob(if failed then InternalError else status, cleans || failed) else Refused)
    case GetJob(status, cleans) => (s, if s.job then HdelClaim(status, cleans) else Refused)
    case HdelClaim(status, cleans) => (s.(claim := None), SetResult(status, cleans))
    case SetResult(status, cleans) => (s.(result := Some(status)), SetEx(status, cleans))
    case SetEx(status, cleans) =>
      (s.(status := Some((status.ToByte(), s.clock + RESOLVED_TTL_SECS))), Incr(status, cleans, s.clock))
    case Incr(status, cleans, at) => (s, Publish(status, cleans, at))
    case Publish(status, cleans, at) =>
      (s.(waiters := Deliver(s.waiters, status.ToByte())),
       if cleans then DelJob(status, at) else Resolved(status, at))
    case DelJob(status, at) => (s.(job := false), DelResult(status, at))
    case DelResult(status, at) => (s.(result := None), Resolved(status, at))
    case Resolved(status, at) => (s, Resolved(status, at))
    case Refused => (s, Refused)
  }

  function ResolverStep(s: System, pid: Pid): System
    requires pid in s.resolvers
  {
    var (s', r) := ResolverActs(s, s.resolvers[pid]);
    s'.(resolvers := s.resolvers[pid := r])
  }

  function FromCode(code: int): Outcome {
    var status := StatusFromByte(code);
    Ended(if status.Some? then status.value else InternalError)
  }

  function WaiterStep(s: System, w: Waiter): Waiter {
    match w.at
    case Check0 => w.(at := Check1(s.result.Some?))
    case Check1(hasResult) => w.(at := Check2(hasResult, s.claim.Some?))
    case Check2(hasResult, claimed) =>
      w.(at := if hasResult then Check3(claimed, s.job)
               else if claimed || s.job then Subscribe else FirstStatus)
    case Check3(claimed, queued) =>
      w.(at := if s.result.Some? || claimed || queued then Subscribe else FirstStatus)
    case FirstStatus =>
      w.(at := if StatusKey(s).Some? then Returned(FromCode(StatusKey(s).value)) else Returned(NotFound))
    case Subscribe => w.(at := GetResult)
    case GetResult => w.(at := if s.result.Some? then Returned(Ended(s.result.value)) else GetStatus)
    case GetStatus =>
      w.(at := if StatusKey(s).Some? then Returned(FromCode(StatusKey(s).value)) else Blocked(s.clock))
    case Blocked(since) =>
      if w.inbox == [] then w else Waiter(Returned(FromCode(w.inbox[0])), w.inbox[1..])
    case Returned(outcome) => w
  }

  // What holds in every interleaving --------------------------------------------------------

  /** Some resolver settled on `status` and has written it. */
  ghost predicate Settled(s: System, status: JobStatus) {
    exists pid :: pid in s.resolvers && SettledBy(s.resolvers[pid], status)
  }

  predicate SettledBy(r: Resolver, status: JobStatus) {
    r.WroteResult() && r.status == status
  }

  ghost predicate SettledCode(s: System, code: int) {
    exists status :: Settled(s, status) && status.ToByte() == code
  }

  /** The status key outlives every resolver's own 60 seconds. */
  predicate KeyCovers(s: System, r: Resolver) {
    r.WroteStatus() ==>
      r.at <= s.clock && s.status.Some? && r.at + RESOLVED_TTL_SECS <= s.status.value.1
  }

  /** A waiter with no message that has looked at the status key in vain: whatever was sent was
      sent so long ago that the key had expired by then. */
  predicate Awaits(w: Waiter, r: Resolver) {
    w.at.Blocked? && w.inbox == [] && r.Published() ==> r.at + RESOLVED_TTL_SECS <= w.at.since
  }

  ghost predicate WaiterOk(s: System, w: Waiter) {
    && (forall i :: 0 <= i < |w.inbox| ==> SettledCode(s, w.inbox[i]))
    && (w.at.Returned? && w.at.outcome.Ended? ==> Settled(s, w.at.outcome.status))
    && (forall pid :: pid in s.resolvers ==> Awaits(w, s.resolvers[pid]))
  }

  ghost predicate Inv(s: System) {
    && (forall pid :: pid in s.resolvers ==> KeyCovers(s, s.resolvers[pid]))
    && (s.result.Some? ==> Settled(s, s.result.value))
    && (s.status.Some? ==> SettledCode(s, s.status.value.0))
    && (forall pid :: pid in s.waiters ==> WaiterOk(s, s.waiters[pid]))
  }

  predicate GoesOn(s: System, s': System, pid: Pid)
    requires pid in s.resolvers
  {
    && pid in s'.resolvers
    && (s.resolvers[pid].WroteResult() ==> SettledBy(s'.resolvers[pid], s.resolvers[pid].status))
  }

  lemma SettledStays(s: System, s': System, status: JobStatus)
    requires Settled(s, status)
    requires forall pid :: pid in s.resolvers ==> GoesOn(s, s', pid)
    ensures Settled(s', status)
  {
    var pid :| pid in s.resolvers && SettledBy(s.resolvers[pid], status);
    assert GoesOn(s, s', pid) && SettledBy(s'.resolvers[pid], status);
  }

  lemma CodesStay(s: System, s': System)
    requires forall pid :: pid in s.resolvers ==> GoesOn(s, s', pid)
    ensures forall status :: Settled(s, status) ==> Settled(s', status)
    ensures forall code :: SettledCode(s, code) ==> SettledCode(s', code)
  {
    forall status | Settled(s, status) ensures Settled(s', status) { SettledStays(s, s', status); }
    forall code | SettledCode(s, code) ensures SettledCode(s', code) {
      var status :| Settled(s, status) && status.ToByte() == code;
      assert Settled(s', status);
    }
  }

  lemma CodeIsStatus(s: System, code: int)
    requires SettledCode(s, code)
    ensures Settled(s, FromCode(code).status)
  {
    var status :| Settled(s, status) && status.ToByte() == code;
    CodesRoundTrip(High, 0, status, code);
  }

  lemma WaiterStepOk(s: System, w: Waiter)
    requires Inv(s) && WaiterOk(s, w)
    ensures WaiterOk(s, WaiterStep(s, w))
  {
    var w' := WaiterStep(s, w);
    if w.at.Blocked? && w.inbox != [] {
      CodeIsStatus(s, w.inbox[0]);
      assert forall i :: 0 <= i < |w'.inbox| ==> w'.inbox[i] == w.inbox[i + 1];
    } else if (w.at.FirstStatus? || w.at.GetStatus?) && StatusKey(s).Some? {
      CodeIsStatus(s, s.status.value.0);
    } else if w.at.GetStatus? {
      forall pid | pid in s.resolvers ensures Awaits(w', s.resolvers[pid]) {
        assert KeyCovers(s, s.resolvers[pid]);
      }
    }
  }

  lemma ResolverStepGrows(s: System, pid: Pid)
    requires pid in s.resolvers
    ensures var s' := ResolverStep(s, pid);
      && (forall status :: Settled(s, status) ==> Settled(s', status))
      && (forall code :: SettledCode(s, code) ==> SettledCode(s', code))
      && (s'.resolvers[pid].WroteResult() ==> Settled(s', s'.resolvers[pid].status))
  {
    var s' := ResolverStep(s, pid);
    assert forall q :: q in s.resolvers ==> GoesOn(s, s', q);
    CodesStay(s, s');
    if s'.resolvers[pid].WroteResult() { assert SettledBy(s'.resolvers[pid], s'.resolvers[pid].status); }
  }

  lemma ResolverStepKeys(s: System, pid: Pid, q: Pid)
    requires pid in s.resolvers && q in ResolverStep(s, pid).resolvers
    requires q in s.resolvers ==> KeyCovers(s, s.resolvers[q])
    ensures KeyCovers(ResolverStep(s, pid), ResolverStep(s, pid).resolvers[q])
  {
  }

  lemma ResolverStepWrites(s: System, pid: Pid)
    requires Inv(s) && pid in s.resolvers
    ensures var s' := ResolverStep(s, pid);
      && (s'.result.Some? ==> Settled(s', s'.result.value))
      && (s'.status.Some? ==> SettledCode(s', s'.status.value.0))
  {
    ResolverStepGrows(s, pid);
    ResolverWrites(s, pid);
  }

  /** What a resolver writes is its own status. */
  lemma ResolverWrites(s: System, pid: Pid)
    requires pid in s.resolvers
    ensures var s' := ResolverStep(s, pid); var r := s'.resolvers[pid];
      && (s'.result in {None, s.result} || (r.WroteResult() && s'.result == Some(r.status)))
      && (s'.status == s.status || (r.WroteResult() && s'.status.Some? && s'.status.value.0 == r.status.ToByte()))
  {
    ActsWrite(s, s.resolvers[pid]);
  }

  lemma ActsWrite(s: System, r: Resolver)
    ensures var (s', r') := ResolverActs(s, r);
      && (s'.result in {None, s.result} || (r'.WroteResult() && s'.result == Some(r'.status)))
      && (s'.status == s.status || (r'.WroteResult() && s'.status.Some? && s'.status.value.0 == r'.status.ToByte()))
  {
  }

  lemma ResolverStepKeeps(s: System, pid: Pid)
    requires Inv(s) && pid in s.resolvers
    ensures Inv(ResolverStep(s, pid))
  {
    var s' := ResolverStep(s, pid);
    ResolverStepGrows(s, pid);
    ResolverStepWrites(s, pid);
    forall q | q in s'.resolvers ensures KeyCovers(s', s'.resolvers[q]) { ResolverStepKeys(s, pid, q); }
    ResolverStepWaiters(s, pid);
  }

  lemma ResolverStepWaiters(s: System, pid: Pid)
    requires Inv(s) && pid in s.resolvers
    ensures var s' := ResolverStep(s, pid); forall p :: p in s'.waiters ==> WaiterOk(s', s'.waiters[p])
  {
    var s' := ResolverStep(s, pid);
    forall p | p in s'.waiters ensures WaiterOk(s', s'.waiters[p]) {
      assert p in s.waiters && WaiterOk(s, s.waiters[p]);
      ResolverStepWaiter(s, pid, p);
    }
  }

  lemma ResolverStepWaiter(s: System, pid: Pid, p: Pid)
    requires Inv(s) && pid in s.resolvers && p in s.waiters && WaiterOk(s, s.waiters[p])
    ensures p in ResolverStep(s, pid).waiters && WaiterOk(ResolverStep(s, pid), ResolverStep(s, pid).waiters[p])
  {
    var s' := ResolverStep(s, pid);
    var w, w' := s.waiters[p], s'.waiters[p];
    ResolverStepGrows(s, pid);
    ResolverStepInbox(s, pid, p);
    forall i | 0 <= i < |w'.inbox| ensures SettledCode(s', w'.inbox[i]) {
      if i < |w.inbox| { assert w'.inbox[i] == w.inbox[i] && SettledCode(s, w.inbox[i]); }
    }
    forall q | q in s'.resolvers ensures Awaits(w', s'.resolvers[q]) {
      ResolverStepAwaits(s, pid, p, q);
    }
  }

  /** A step of a resolver leaves a waiter as it is, or sends it the resolver's status. */
  lemma ResolverStepInbox(s: System, pid: Pid, p: Pid)
    requires pid in s.resolvers && p in s.waiters
    ensures p in ResolverStep(s, pid).waiters
    ensures var s' := ResolverStep(s, pid); var w, w', r := s.waiters[p], s'.waiters[p], s'.resolvers[pid];
      w' == w || (r.WroteResult() && w' == w.(inbox := w.inbox + [r.status.ToByte()]))
  {
  }

  lemma ResolverStepAwaits(s: System, pid: Pid, p: Pid, q: Pid)
    requires pid in s.resolvers && p in s.waiters && q in ResolverStep(s, pid).resolvers
    requires q in s.resolvers && Awaits(s.waiters[p], s.resolvers[q])
    ensures Awaits(ResolverStep(s, pid).waiters[p], ResolverStep(s, pid).resolvers[q])
  {
  }

  lemma StepKeeps(s: System, a: Action)
    requires Inv(s)
    ensures Inv(Next(s, a))
  {
    var s' := Next(s, a);
    match a
    case Resolve(pid) => if pid in s.resolvers { ResolverStepKeeps(s, pid); }
    case Wait(pid) =>
      if pid in s.waiters {
        WaiterStepOk(s, s.waiters[pid]);
        QuietStep(s, s');
      }
    case BeginResolve(pid, worker, status, cleans, failed) => BeginResolveKeeps(s, a);
    case BeginWait(pid) => QuietStep(s, s');
    case GiveUp(pid) => QuietStep(s, s');
    case _ => OtherStepKeeps(s, a);
  }

  /** What neither a resolver nor a waiter does. */
  predicate IsOther(a: Action) {
    !a.Resolve? && !a.Wait? && !a.BeginResolve? && !a.BeginWait? && !a.GiveUp?
  }

  lemma OtherStepKeeps(s: System, a: Action)
    requires Inv(s) && IsOther(a)
    ensures Inv(Next(s, a))
  {
    OtherStepIs(s, a);
    QuietStep(s, Next(s, a));
  }

  lemma OtherStepIs(s: System, a: Action)
    requires IsOther(a)
    ensures var s' := Next(s, a);
      && s'.resolvers == s.resolvers && s'.waiters == s.waiters && s'.status == s.status
      && s'.clock >= s.clock && s'.result in {None, s.result}
      && s'.clock == s.clock + if a.Tick? then a.seconds else 0
  {
  }

  lemma BeginResolveKeeps(s: System, a: Action)
    requires Inv(s) && a.BeginResolve?
    ensures Inv(Next(s, a))
  {
    var s' := Next(s, a);
    CodesStay(s, s');
    forall p | p in s'.waiters ensures WaiterOk(s', s'.waiters[p]) { assert WaiterOk(s, s.waiters[p]); }
  }

  /** A step that touches neither a resolver nor the status key. */
  lemma QuietStep(s: System, s': System)
    requires Inv(s) && s'.resolvers == s.resolvers && s'.status == s.status && s'.clock >= s.clock
    requires s'.result in {None, s.result}
    requires forall p :: p in s'.waiters ==> WaiterOk(s, s'.waiters[p])
    ensures Inv(s')
  {
    CodesStay(s, s');
    forall p | p in s'.resolvers ensures KeyCovers(s', s'.resolvers[p]) { assert KeyCovers(s, s.resolvers[p]); }
  }

  ghost predicate Run(ss: seq<System>, steps: seq<Action>) {
    && |ss| == |steps| + 1
    && Unknown(ss[0]) && ss[0].resolvers == map[] && ss[0].waiters == map[]
    && forall i :: 0 <= i < |steps| ==> ss[i + 1] == Next(ss[i], steps[i])
  }

  lemma {:induction false} RunKeeps(ss: seq<System>, steps: seq<Action>, i: nat)
    requires Run(ss, steps) && i < |ss|
    ensures Inv(ss[i])
  {
    if i > 0 {
      RunKeeps(ss, steps, i - 1);
      StepKeeps(ss[i - 1], steps[i - 1]);
    }
  }

  /** A waiter that blocks has the message, or every resolver that got as far as writing the
      status still has its message to send, unless it wrote the status so long before the waiter
      looked that the status key had expired. */
  lemma NoLostWakeup(ss: seq<System>, steps: seq<Action>, i: nat, w: Pid, r: Pid)
    requires Run(ss, steps) && i < |ss|
    requires w in ss[i].waiters && r in ss[i].resolvers && ss[i].waiters[w].at.Blocked?
    ensures var resolver := ss[i].resolvers[r];
      || ss[i].waiters[w].inbox != []
      || !resolver.Published()
      || resolver.at + RESOLVED_TTL_SECS <= ss[i].waiters[w].at.since
  {
    RunKeeps(ss, steps, i);
    assert WaiterOk(ss[i], ss[i].waiters[w]) && Awaits(ss[i].waiters[w], ss[i].resolvers[r]);
  }

  /** Sending the message wakes every waiter that was blocked, with the status it was sent for. */
  lemma PublishWakes(s: System, r: Pid, w: Pid)
    requires r in s.resolvers && s.resolvers[r].Publish?
    requires w in s.waiters && s.waiters[w].at.Blocked? && s.waiters[w].inbox == []
    ensures var s' := Next(Next(s, Resolve(r)), Wait(w));
      s'.waiters[w].at == Returned(Ended(s.resolvers[r].status))
  {
    CodesRoundTrip(High, 0, s.resolvers[r].status, s.resolvers[r].status.ToByte());
    var s1 := Next(s, Resolve(r));
    assert s1.waiters == Deliver(s.waiters, s.resolvers[r].status.ToByte());
    assert s1.waiters[w].inbox == [s.resolvers[r].status.ToByte()];
  }

  /** A status that is returned is one that a resolver settled on; with one resolver, it is its
      final status. */
  lemma ReturnsFinalStatus(ss: seq<System>, steps: seq<Action>, i: nat, w: Pid, r: Pid)
    requires Run(ss, steps) && i < |ss|
    requires w in ss[i].waiters && ss[i].waiters[w].at.Returned? && ss[i].waiters[w].at.outcome.Ended?
    ensures exists pid :: pid in ss[i].resolvers && SettledBy(ss[i].resolvers[pid], ss[i].waiters[w].at.outcome.status)
    ensures ss[i].resolvers.Keys == {r} ==> SettledBy(ss[i].resolvers[r], ss[i].waiters[w].at.outcome.status)
  {
    RunKeeps(ss, steps, i);
    assert WaiterOk(ss[i], ss[i].waiters[w]);
  }
}
