/** When a wake-up is lost after all: exactly which looks at the status key are in vain, and exactly
    which blocked waiters nothing can wake any more (wq/src/lib.rs:488-723). */
module WqWakeups {
  import opened Prelude
  import opened WqKeys
  import opened WqWaiter

  // Looking in vain ---------------------------------------------------------------------------

  predicate WroteUntil(r: Resolver, expiry: int) { r.WroteStatus() && r.at + RESOLVED_TTL_SECS == expiry }

  /** The status key has the expiry that some resolver gave it. */
  ghost predicate KeyWritten(s: System) {
    s.status.Some? ==> exists pid :: pid in s.resolvers && WroteUntil(s.resolvers[pid], s.status.value.1)
  }

  lemma StepWritten(s: System, a: Action)
    requires KeyWritten(s)
    ensures KeyWritten(Next(s, a))
  {
    var s' := Next(s, a);
    if s'.status.Some? {
      if a.Resolve? && a.pid in s.resolvers && s.resolvers[a.pid].SetEx? {
        assert WroteUntil(s'.resolvers[a.pid], s'.status.value.1);
      } else {
        StatusStays(s, a);
        var q :| q in s.resolvers && WroteUntil(s.resolvers[q], s.status.value.1);
        StaysWritten(s, a, q);
        assert WroteUntil(s'.resolvers[q], s'.status.value.1);
      }
    }
  }

  lemma StatusStays(s: System, a: Action)
    requires !(a.Resolve? && a.pid in s.resolvers && s.resolvers[a.pid].SetEx?)
    ensures Next(s, a).status == s.status
  {
  }

  lemma StaysWritten(s: System, a: Action, q: Pid)
    requires q in s.resolvers && s.resolvers[q].WroteStatus()
    ensures var s' := Next(s, a);
      q in s'.resolvers && s'.resolvers[q].WroteStatus() && s'.resolvers[q].at == s.resolvers[q].at
  {
  }

  lemma {:induction false} RunWritten(ss: seq<System>, steps: seq<Action>, i: nat)
    requires Run(ss, steps) && i < |ss|
    ensures KeyWritten(ss[i])
  {
    if i > 0 {
      RunWritten(ss, steps, i - 1);
      StepWritten(ss[i - 1], steps[i - 1]);
    }
  }

  predicate WroteRecently(r: Resolver, clock: int) {
    r.WroteStatus() && clock < r.at + RESOLVED_TTL_SECS
  }

  /** A waiter that looks at the status key blocks exactly when no resolver wrote it within the last
      60 seconds. */
  lemma LooksInVainExactly(ss: seq<System>, steps: seq<Action>, i: nat, w: Pid)
    requires Run(ss, steps) && i < |ss|
    requires w in ss[i].waiters && ss[i].waiters[w].at.GetStatus?
    ensures Next(ss[i], Wait(w)).waiters[w].at.Blocked?
       <==> forall r :: r in ss[i].resolvers ==> !WroteRecently(ss[i].resolvers[r], ss[i].clock)
  {
    RunKeeps(ss, steps, i);
    RunWritten(ss, steps, i);
    forall r | r in ss[i].resolvers && StatusKey(ss[i]).None?
      ensures !WroteRecently(ss[i].resolvers[r], ss[i].clock)
    {
      assert KeyCovers(ss[i], ss[i].resolvers[r]);
    }
    if StatusKey(ss[i]).Some? {
      var r :| r in ss[i].resolvers && WroteUntil(ss[i].resolvers[r], ss[i].status.value.1);
      assert WroteRecently(ss[i].resolvers[r], ss[i].clock);
    }
  }

  // Before the job is enqueued ----------------------------------------------------------------

  predicate NotStarted(r: Resolver) { r.HgetClaim? || r.Refused? }

  /** A waiter that has found nothing of the job. */
  predicate FoundNothing(w: Waiter) {
    w.at in {Check0, Check1(false), Check2(false, false), FirstStatus} || w.at.Returned?
  }

  ghost predicate EnqueuedOrUnknown(s: System) {
    s.enqueued ||
    (&& Unknown(s)
     && (forall r :: r in s.resolvers ==> NotStarted(s.resolvers[r]))
     && (forall w :: w in s.waiters ==> FoundNothing(s.waiters[w])))
  }

  lemma StepKnown(s: System, a: Action)
    requires EnqueuedOrUnknown(s)
    ensures EnqueuedOrUnknown(Next(s, a))
  {
    if !s.enqueued {
      if a.Resolve? && a.pid in s.resolvers { assert NotStarted(s.resolvers[a.pid]); }
      if a.Wait? && a.pid in s.waiters { assert FoundNothing(s.waiters[a.pid]); }
    }
  }

  lemma {:induction false} RunKnown(ss: seq<System>, steps: seq<Action>, i: nat)
    requires Run(ss, steps) && i < |ss|
    ensures EnqueuedOrUnknown(ss[i])
  {
    if i > 0 {
      RunKnown(ss, steps, i - 1);
      StepKnown(ss[i - 1], steps[i - 1]);
    }
  }

  // Waiting for good --------------------------------------------------------------------------

  /** Somebody has a claim on the job, or can still come by one. */
  predicate Claimable(s: System) {
    || s.claim.Some? || s.taken > 0 || s.refreshing != {}
    || ((s.queued > 0 || s.listed > 0) && s.clock <= s.deadline)
  }

  /** A resolver that nothing can keep from sending its message any more. */
  predicate WillPublish(r: Resolver) {
    r.HdelClaim? || r.SetResult? || r.SetEx? || r.Incr? || r.Publish?
  }

  /** A message can still be sent: by a resolver that is past its checks, or by one that has yet to
      read the description, or by one that has yet to find a claim. */
  ghost predicate MayPublish(s: System) {
    || (exists r :: r in s.resolvers && WillPublish(s.resolvers[r]))
    || (s.job && (Claimable(s) || exists r :: r in s.resolvers && s.resolvers[r].GetJob?))
  }

  function Exec(s: System, steps: seq<Action>): System
    decreases |steps|
  {
    if steps == [] then s else Exec(Next(s, steps[0]), steps[1..])
  }

  lemma ExecTwo(s: System, a: Action, b: Action, rest: seq<Action>)
    ensures Exec(s, [a] + rest) == Exec(Next(s, a), rest)
    ensures Exec(s, [a, b] + rest) == Exec(Next(Next(s, a), b), rest)
  {
    assert ([a] + rest)[1..] == rest && ([a, b] + rest)[1..] == [b] + rest && ([b] + rest)[1..] == rest;
  }

  ghost predicate Wakes(s: System, steps: seq<Action>, w: Pid) {
    && GiveUp(w) !in steps
    && w in Exec(s, steps).waiters && Exec(s, steps).waiters[w].at.Returned?
  }

  /** Some run wakes the waiter, other than by its own time-out. New calls may begin in it. */
  ghost predicate CanWake(s: System, w: Pid) {
    exists steps :: Wakes(s, steps, w)
  }

  predicate BlocksUnheard(s: System, w: Pid) {
    w in s.waiters && s.waiters[w].at.Blocked? && s.waiters[w].inbox == []
  }

  lemma StepWakesNobody(s: System, a: Action, w: Pid)
    requires s.enqueued && !MayPublish(s) && BlocksUnheard(s, w) && a != GiveUp(w)
    ensures var s' := Next(s, a);
      s'.enqueued && !MayPublish(s') && BlocksUnheard(s', w) && s'.waiters[w] == s.waiters[w]
  {
    var s' := Next(s, a);
    if a.Resolve? && a.pid in s.resolvers { assert !WillPublish(s.resolvers[a.pid]); }
    forall r | r in s'.resolvers ensures !WillPublish(s'.resolvers[r]) {
      if r in s.resolvers { assert !WillPublish(s.resolvers[r]); }
    }
    if s'.job {
      forall r | r in s'.resolvers ensures !s'.resolvers[r].GetJob? {
        if r in s.resolvers { assert !s.resolvers[r].GetJob?; }
      }
    }
  }

  /** When no message can be sent any more, a waiter that blocks without one stays as it is over any
      run, whatever calls begin in it. */
  lemma {:induction false} NothingWakes(s: System, steps: seq<Action>, w: Pid)
    requires s.enqueued && !MayPublish(s) && BlocksUnheard(s, w) && GiveUp(w) !in steps
    ensures w in Exec(s, steps).waiters && Exec(s, steps).waiters[w] == s.waiters[w]
    decreases |steps|
  {
    if steps != [] {
      StepWakesNobody(s, steps[0], w);
      NothingWakes(Next(s, steps[0]), steps[1..], w);
    }
  }

  function StepsLeft(r: Resolver): nat {
    match r
    case HdelClaim(_, _) => 5
    case SetResult(_, _) => 4
    case SetEx(_, _) => 3
    case Incr(_, _, _) => 2
    case Publish(_, _, _) => 1
    case _ => 0
  }

  lemma {:induction false} ResolverCanWake(s: System, r: Pid, w: Pid) returns (steps: seq<Action>)
    requires r in s.resolvers && WillPublish(s.resolvers[r]) && BlocksUnheard(s, w)
    ensures Wakes(s, steps, w)
    decreases StepsLeft(s.resolvers[r])
  {
    if s.resolvers[r].Publish? {
      PublishWakes(s, r, w);
      steps := [Resolve(r), Wait(w)];
      ExecTwo(s, Resolve(r), Wait(w), []);
      assert steps == steps + [];
    } else {
      var rest := ResolverCanWake(Next(s, Resolve(r)), r, w);
      steps := Prepend(s, Resolve(r), rest, w);
    }
  }

  lemma Prepend(s: System, a: Action, rest: seq<Action>, w: Pid) returns (steps: seq<Action>)
    requires Wakes(Next(s, a), rest, w) && a != GiveUp(w)
    ensures Wakes(s, steps, w)
  {
    steps := [a] + rest;
    ExecTwo(s, a, a, rest);
  }

  /** A resolver that finds the description goes on to its message. */
  lemma ReaderCanWake(s: System, r: Pid, w: Pid) returns (steps: seq<Action>)
    requires r in s.resolvers && s.resolvers[r].GetJob? && s.job && BlocksUnheard(s, w)
    ensures Wakes(s, steps, w)
  {
    var rest := ResolverCanWake(Next(s, Resolve(r)), r, w);
    steps := Prepend(s, Resolve(r), rest, w);
  }

  lemma {:induction false} FreshPid(ps: set<Pid>) returns (p: Pid)
    ensures p !in ps && forall q :: q in ps ==> q < p
  {
    if q :| q in ps {
      var above := FreshPid(ps - {q});
      p := if above > q then above else q + 1;
      forall x | x in ps ensures x < p { assert x == q || x in ps - {q}; }
    } else {
      p := 0;
    }
  }

  /** Whoever has the claim can begin to resolve the job. */
  lemma OwnerCanWake(s: System, w: Pid) returns (steps: seq<Action>)
    requires s.job && s.claim.Some? && BlocksUnheard(s, w)
    ensures Wakes(s, steps, w)
  {
    var r := FreshPid(s.resolvers.Keys);
    var begin := BeginResolve(r, s.claim.value, Success, false, false);
    var s1 := Next(s, begin);
    var s2 := Next(s1, Resolve(r));
    assert s1.resolvers[r] == HgetClaim(s.claim.value, Success, false, false) && s2.resolvers[r].GetJob?;
    var rest := ReaderCanWake(s2, r, w);
    var more := Prepend(s1, Resolve(r), rest, w);
    steps := Prepend(s, begin, more, w);
  }

  lemma TakerCanWake(s: System, w: Pid) returns (steps: seq<Action>)
    requires s.job && s.taken > 0 && BlocksUnheard(s, w)
    ensures Wakes(s, steps, w)
  {
    var rest := OwnerCanWake(Next(s, SetClaim("worker")), w);
    steps := Prepend(s, SetClaim("worker"), rest, w);
  }

  /** Before its deadline, a job that waits can be claimed. */
  lemma QueuedCanWake(s: System, w: Pid) returns (steps: seq<Action>)
    requires s.job && s.queued > 0 && s.clock <= s.deadline && BlocksUnheard(s, w)
    ensures Wakes(s, steps, w)
  {
    var rest := TakerCanWake(Next(s, TakeJob), w);
    steps := Prepend(s, TakeJob, rest, w);
  }

  lemma ClaimableCanWake(s: System, w: Pid) returns (steps: seq<Action>)
    requires s.job && Claimable(s) && BlocksUnheard(s, w)
    ensures Wakes(s, steps, w)
  {
    if s.claim.Some? {
      steps := OwnerCanWake(s, w);
    } else if s.taken > 0 {
      steps := TakerCanWake(s, w);
    } else if s.refreshing != {} {
      var owner :| owner in s.refreshing;
      var rest := OwnerCanWake(Next(s, WriteClaim(owner.0, owner.1)), w);
      steps := Prepend(s, WriteClaim(owner.0, owner.1), rest, w);
    } else if s.queued > 0 {
      steps := QueuedCanWake(s, w);
    } else {
      var rest := QueuedCanWake(Next(s, PutBack), w);
      steps := Prepend(s, PutBack, rest, w);
    }
  }

  /** A blocked waiter can be woken exactly when it has the message, or the message can still be sent:
      a resolver is past its checks, or there is a description and either a resolver about to read it
      or a claim to be had. */
  lemma WaitsForGoodExactly(s: System, w: Pid)
    requires w in s.waiters && s.waiters[w].at.Blocked?
    ensures CanWake(s, w) <==> s.waiters[w].inbox != [] || MayPublish(s) || !s.enqueued
  {
    if s.waiters[w].inbox != [] {
      assert Exec(s, [Wait(w)]) == Exec(Next(s, Wait(w)), []);
      assert Wakes(s, [Wait(w)], w);
    } else if MayPublish(s) {
      MayPublishWakes(s, w);
    } else if !s.enqueued {
      var rest := QueuedCanWake(Next(s, Enqueue(s.clock)), w);
      var steps := Prepend(s, Enqueue(s.clock), rest, w);
    } else {
      forall steps | GiveUp(w) !in steps ensures !Wakes(s, steps, w) { NothingWakes(s, steps, w); }
    }
  }

  lemma MayPublishWakes(s: System, w: Pid)
    requires MayPublish(s) && BlocksUnheard(s, w)
    ensures CanWake(s, w)
  {
    var steps;
    if r :| r in s.resolvers && WillPublish(s.resolvers[r]) {
      steps := ResolverCanWake(s, r, w);
    } else if r :| r in s.resolvers && s.resolvers[r].GetJob? && s.job {
      steps := ReaderCanWake(s, r, w);
    } else {
      steps := ClaimableCanWake(s, w);
    }
  }

  /** A look at the status key is the beginning of waiting for good exactly when no message came
      since the subscription, none can be sent any more, and no resolver wrote the status within the
      last 60 seconds. */
  lemma LosesWakeupExactly(ss: seq<System>, steps: seq<Action>, i: nat, w: Pid)
    requires Run(ss, steps) && i < |ss|
    requires w in ss[i].waiters && ss[i].waiters[w].at.GetStatus?
    ensures var s' := Next(ss[i], Wait(w));
      s'.waiters[w].at.Blocked? && !CanWake(s', w) <==>
        && ss[i].waiters[w].inbox == [] && !MayPublish(ss[i])
        && forall r :: r in ss[i].resolvers ==> !WroteRecently(ss[i].resolvers[r], ss[i].clock)
  {
    LooksInVainExactly(ss, steps, i, w);
    RunKnown(ss, steps, i);
    assert !FoundNothing(ss[i].waiters[w]);
    var s' := Next(ss[i], Wait(w));
    assert s' == ss[i].(waiters := s'.waiters) && s'.waiters[w].inbox == ss[i].waiters[w].inbox;
    assert MayPublish(s') <==> MayPublish(ss[i]);
    if s'.waiters[w].at.Blocked? { WaitsForGoodExactly(s', w); }
  }

  /** Over any run: a waiter that blocks can be woken as long as it has the message or one can still
      be sent, and no longer. */
  lemma BlockedWaitsForGoodExactly(ss: seq<System>, steps: seq<Action>, i: nat, w: Pid)
    requires Run(ss, steps) && i < |ss|
    requires w in ss[i].waiters && ss[i].waiters[w].at.Blocked?
    ensures CanWake(ss[i], w) <==> ss[i].waiters[w].inbox != [] || MayPublish(ss[i])
  {
    RunKnown(ss, steps, i);
    assert !FoundNothing(ss[i].waiters[w]);
    WaitsForGoodExactly(ss[i], w);
  }

  // It happens --------------------------------------------------------------------------------

  predicate Fresh(s: System) {
    Unknown(s) && s.resolvers == map[] && s.waiters == map[]
  }

  function Trace(s: System, steps: seq<Action>): (ss: seq<System>)
    ensures |ss| == |steps| + 1 && ss[0] == s
    decreases |steps|
  {
    if steps == [] then [s] else [s] + Trace(Next(s, steps[0]), steps[1..])
  }

  lemma {:induction false} TraceSteps(s: System, steps: seq<Action>)
    ensures forall i :: 0 <= i < |steps| ==> Trace(s, steps)[i + 1] == Next(Trace(s, steps)[i], steps[i])
    ensures Trace(s, steps)[|steps|] == Exec(s, steps)
    decreases |steps|
  {
    if steps != [] { TraceSteps(Next(s, steps[0]), steps[1..]); }
  }

  lemma {:induction false} ExecAppends(s: System, a: seq<Action>, b: seq<Action>)
    ensures Exec(s, a + b) == Exec(Exec(s, a), b)
    decreases |a|
  {
    if a == [] {
      assert a + b == b;
    } else {
      assert (a + b)[1..] == a[1..] + b;
      ExecAppends(Next(s, a[0]), a[1..], b);
    }
  }

  function Times(a: Action, n: nat): seq<Action> { if n == 0 then [] else [a] + Times(a, n - 1) }

  lemma ExecTimes(s: System, a: Action, n: nat)
    ensures n > 0 ==> Exec(s, Times(a, n)) == Exec(Next(s, a), Times(a, n - 1))
  {
    if n > 0 { assert Times(a, n)[1..] == Times(a, n - 1); }
  }

  lemma SeesTheJob(s: System, w: Pid)
    requires s.waiters == map[w := Waiter(Check0, [])] && s.result.None? && s.claim.Some?
    ensures Exec(s, Times(Wait(w), 3)) == s.(waiters := map[w := Waiter(Subscribe, [])])
  {
    var s1 := Next(s, Wait(w));
    assert s1 == s.(waiters := map[w := Waiter(Check1(false), [])]);
    var s2 := Next(s1, Wait(w));
    assert s2 == s.(waiters := map[w := Waiter(Check2(false, true), [])]);
    var s3 := Next(s2, Wait(w));
    assert s3 == s.(waiters := map[w := Waiter(Subscribe, [])]);
    ExecTimes(s, Wait(w), 3);
    ExecTimes(s1, Wait(w), 2);
    ExecTimes(s2, Wait(w), 1);
  }

  lemma ResolverChain(s: System, r: Pid, n: nat, s': System)
    requires n > 0 && Next(s, Resolve(r)) == s'
    ensures Exec(s, Times(Resolve(r), n)) == Exec(s', Times(Resolve(r), n - 1))
  {
    ExecTimes(s, Resolve(r), n);
  }

  function Alone(s: System, r: Pid, x: Resolver): System { s.(resolvers := map[r := x]) }

  /** A resolver that is the only one acts as if it were. */
  lemma ActsAlone(s: System, r: Pid, x: Resolver, n: nat)
    requires n > 0
    ensures Exec(Alone(s, r, x), Times(Resolve(r), n))
         == Exec(Alone(ResolverActs(s, x).0, r, ResolverActs(s, x).1), Times(Resolve(r), n - 1))
  {
    var (s', y) := ResolverActs(s, x);
    SameActs(s, r, x);
    assert Alone(s, r, x).resolvers[r := y] == map[r := y];
    ResolverChain(Alone(s, r, x), r, n, Alone(s', r, y));
  }

  lemma SameActs(s: System, r: Pid, x: Resolver)
    ensures ResolverActs(Alone(s, r, x), x)
         == (ResolverActs(s, x).0.(resolvers := map[r := x]), ResolverActs(s, x).1)
  {
  }

  lemma TakesOver(s: System, r: Pid, worker: string, status: JobStatus)
    requires s.job && s.claim == Some(worker)
    ensures Exec(Alone(s, r, HgetClaim(worker, status, true, false)), Times(Resolve(r), 9))
         == Exec(Alone(s.(claim := None), r, SetResult(status, true)), Times(Resolve(r), 6))
  {
    ActsAlone(s, r, HgetClaim(worker, status, true, false), 9);
    ActsAlone(s, r, GetJob(status, true), 8);
    ActsAlone(s, r, HdelClaim(status, true), 7);
  }

  function Written(s: System, status: JobStatus): System {
    s.(result := Some(status), status := Some((status.ToByte(), s.clock + RESOLVED_TTL_SECS)))
  }

  lemma WritesResult(s: System, r: Pid, status: JobStatus)
    ensures Exec(Alone(s, r, SetResult(status, true)), Times(Resolve(r), 6))
         == Exec(Alone(s.(result := Some(status)), r, SetEx(status, true)), Times(Resolve(r), 5))
  {
    ActsAlone(s, r, SetResult(status, true), 6);
  }

  lemma WritesStatus(s: System, r: Pid, status: JobStatus)
    ensures Exec(Alone(s.(result := Some(status)), r, SetEx(status, true)), Times(Resolve(r), 5))
         == Exec(Alone(Written(s, status), r, Incr(status, true, s.clock)), Times(Resolve(r), 4))
  {
    ActsAlone(s.(result := Some(status)), r, SetEx(status, true), 5);
  }

  lemma WritesAll(s: System, r: Pid, status: JobStatus)
    ensures Exec(Alone(s, r, SetResult(status, true)), Times(Resolve(r), 6))
         == Exec(Alone(Written(s, status), r, Publish(status, true, s.clock)), Times(Resolve(r), 3))
  {
    WritesResult(s, r, status);
    WritesStatus(s, r, status);
    ActsAlone(Written(s, status), r, Incr(status, true, s.clock), 4);
  }

  lemma SendsAndCleansUp(s: System, r: Pid, status: JobStatus, at: int)
    requires forall w :: w in s.waiters ==> !s.waiters[w].Subscribed()
    ensures Exec(Alone(s, r, Publish(status, true, at)), Times(Resolve(r), 3))
         == Alone(s.(job := false, result := None), r, Resolved(status, at))
  {
    assert Deliver(s.waiters, status.ToByte()) == s.waiters;
    ActsAlone(s, r, Publish(status, true, at), 3);
    ActsAlone(s, r, DelJob(status, at), 2);
    ActsAlone(s.(job := false), r, DelResult(status, at), 1);
  }

  function AfterCleanup(s: System, r: Pid, status: JobStatus): System {
    Alone(s.(job := false, claim := None, result := None,
             status := Some((status.ToByte(), s.clock + RESOLVED_TTL_SECS))), r, Resolved(status, s.clock))
  }

  lemma ResolvesAndCleansUp(s: System, r: Pid, worker: string, status: JobStatus)
    requires s.job && s.claim == Some(worker) && forall w :: w in s.waiters ==> !s.waiters[w].Subscribed()
    ensures Exec(Alone(s, r, HgetClaim(worker, status, true, false)), Times(Resolve(r), 9)) ==
      AfterCleanup(s, r, status)
  {
    var s1 := s.(claim := None);
    var s2 := Written(s1, status);
    TakesOver(s, r, worker, status);
    WritesAll(s1, r, status);
    SendsAndCleansUp(s2, r, status, s.clock);
  }

  lemma LooksInVain(s: System, w: Pid)
    requires s.waiters == map[w := Waiter(Subscribe, [])] && s.result.None? && StatusKey(s).None?
    ensures Exec(s, Times(Wait(w), 3)) == s.(waiters := map[w := Waiter(Blocked(s.clock), [])])
  {
    var s1 := Next(s, Wait(w));
    assert s1 == s.(waiters := map[w := Waiter(GetResult, [])]);
    var s2 := Next(s1, Wait(w));
    assert s2 == s.(waiters := map[w := Waiter(GetStatus, [])]);
    var s3 := Next(s2, Wait(w));
    assert s3 == s.(waiters := map[w := Waiter(Blocked(s.clock), [])]);
    ExecTimes(s, Wait(w), 3);
    ExecTimes(s1, Wait(w), 2);
    ExecTimes(s2, Wait(w), 1);
  }

  lemma IsResolvedMeanwhile(s: System, w: Pid, r: Pid, worker: string, status: JobStatus)
    requires s.job && s.claim == Some(worker) && status.IsResolved()
    requires s.resolvers == map[] && s.waiters == map[w := Waiter(Subscribe, [])]
    ensures Exec(s, [BeginResolve(r, worker, status, true, false)] + Times(Resolve(r), 9)) == AfterCleanup(s, r, status)
  {
    var begin := BeginResolve(r, worker, status, true, false);
    assert Next(s, begin) == Alone(s, r, HgetClaim(worker, status, true, false));
    ExecTwo(s, begin, begin, Times(Resolve(r), 9));
    ResolvesAndCleansUp(s, r, worker, status);
  }

  lemma SubscribesTooLate(s: System, w: Pid, r: Pid, worker: string, status: JobStatus)
    requires s.enqueued && s.job && s.claim == Some(worker) && status.IsResolved()
    requires s.resolvers == map[] && s.waiters == map[w := Waiter(Subscribe, [])]
    ensures var end := Exec(s, [BeginResolve(r, worker, status, true, false)] + Times(Resolve(r), 9)
                               + ([Tick(RESOLVED_TTL_SECS)] + Times(Wait(w), 3)));
      && end.enqueued && !end.job && end.resolvers == map[r := Resolved(status, s.clock)]
      && end.waiters == map[w := Waiter(Blocked(s.clock + RESOLVED_TTL_SECS), [])]
  {
    var tick := Tick(RESOLVED_TTL_SECS);
    var resolving := [BeginResolve(r, worker, status, true, false)] + Times(Resolve(r), 9);
    IsResolvedMeanwhile(s, w, r, worker, status);
    ExecAppends(s, resolving, [tick] + Times(Wait(w), 3));
    var resolved := AfterCleanup(s, r, status);
    ExecTwo(resolved, tick, tick, Times(Wait(w), 3));
    LooksInVain(Next(resolved, tick), w);
  }

  /** A job is enqueued and claimed, and a waiter sees it. */
  function Seeing(w: Pid, worker: string, deadline: int): seq<Action> {
    [Enqueue(deadline), TakeJob] + ([SetClaim(worker), BeginWait(w)] + Times(Wait(w), 3))
  }

  function Seen(s: System, w: Pid, worker: string, deadline: int): System {
    s.(enqueued := true, job := true, deadline := deadline, claim := Some(worker), claimTime := s.clock,
       waiters := map[w := Waiter(Subscribe, [])])
  }

  lemma SeesClaimedJob(s: System, w: Pid, worker: string, deadline: int)
    requires Fresh(s) && s.clock <= deadline
    ensures Exec(s, Seeing(w, worker, deadline)) == Seen(s, w, worker, deadline)
  {
    var s2 := s.(enqueued := true, job := true, deadline := deadline, taken := 1);
    assert s2 == Next(Next(s, Enqueue(deadline)), TakeJob);
    ExecTwo(s, Enqueue(deadline), TakeJob, [SetClaim(worker), BeginWait(w)] + Times(Wait(w), 3));
    var s4 := s2.(taken := 0, claim := Some(worker), claimTime := s.clock, waiters := map[w := Waiter(Check0, [])]);
    assert s4 == Next(Next(s2, SetClaim(worker)), BeginWait(w));
    ExecTwo(s2, SetClaim(worker), BeginWait(w), Times(Wait(w), 3));
    SeesTheJob(s4, w);
  }

  lemma IsRun(s: System, first: seq<Action>, rest: seq<Action>) returns (ss: seq<System>, steps: seq<Action>)
    requires Fresh(s)
    ensures Run(ss, steps) && ss[0] == s && ss[|steps|] == Exec(Exec(s, first), rest)
  {
    steps := first + rest;
    ss := Trace(s, steps);
    TraceSteps(s, steps);
    ExecAppends(s, first, rest);
  }

  /** A waiter sees the job claimed; it is resolved with cleanup, and its message sent, before the
      waiter subscribes; a minute goes by; and then the waiter finds nothing, and no run wakes it. */
  lemma ExpiredStatusIsMissed(s: System, w: Pid, r: Pid, worker: string, deadline: int, status: JobStatus)
    returns (ss: seq<System>, steps: seq<Action>)
    requires Fresh(s) && s.clock <= deadline && status.IsResolved()
    ensures Run(ss, steps) && ss[0] == s
    ensures var end := ss[|steps|];
      && end.resolvers == map[r := Resolved(status, s.clock)]
      && end.waiters == map[w := Waiter(Blocked(s.clock + RESOLVED_TTL_SECS), [])]
      && !CanWake(end, w)
  {
    SeesClaimedJob(s, w, worker, deadline);
    var seen := Seen(s, w, worker, deadline);
    SubscribesTooLate(seen, w, r, worker, status);
    ss, steps := IsRun(s, Seeing(w, worker, deadline),
                       [BeginResolve(r, worker, status, true, false)] + Times(Resolve(r), 9)
                       + ([Tick(RESOLVED_TTL_SECS)] + Times(Wait(w), 3)));
    WaitsForGoodExactly(ss[|steps|], w);
  }

  /** Cancelling a job tells nobody: an ordinary waiter on it is never woken. */
  lemma CancelledIsMissed(s: System, w: Pid, worker: string, deadline: int)
    returns (ss: seq<System>, steps: seq<Action>)
    requires Fresh(s) && s.clock <= deadline
    ensures Run(ss, steps) && ss[0] == s
    ensures var end := ss[|steps|];
      && end.resolvers == map[] && end.waiters == map[w := Waiter(Blocked(s.clock), [])]
      && !end.job && end.claim.None? && !CanWake(end, w)
  {
    SeesClaimedJob(s, w, worker, deadline);
    var seen := Seen(s, w, worker, deadline);
    var waiting := seen.(waiters := map[w := Waiter(Blocked(s.clock), [])]);
    LooksInVain(seen, w);
    ExecAppends(seen, Times(Wait(w), 3), [DropJob, DropClaim]);
    ExecTwo(waiting, DropJob, DropClaim, []);
    assert [DropJob, DropClaim] + [] == [DropJob, DropClaim];
    ss, steps := IsRun(s, Seeing(w, worker, deadline), Times(Wait(w), 3) + [DropJob, DropClaim]);
    WaitsForGoodExactly(ss[|steps|], w);
  }

  /** Nor is a waiter on a job whose claim got too old, that a pass has put back and, once another
      worker had claimed it, taken that claim of. The description is still there. */
  lemma StrandedIsMissed(s: System, w: Pid, worker: string, other: string, deadline: int)
    returns (ss: seq<System>, steps: seq<Action>)
    requires Fresh(s) && s.clock + s.timeout < deadline
    ensures Run(ss, steps) && ss[0] == s
    ensures var end := ss[|steps|];
      && end.resolvers == map[] && end.waiters == map[w := Waiter(Blocked(s.clock), [])]
      && end.job && end.clock <= end.deadline && !CanWake(end, w)
  {
    SeesClaimedJob(s, w, worker, deadline);
    var seen := Seen(s, w, worker, deadline);
    var waiting := seen.(waiters := map[w := Waiter(Blocked(s.clock), [])]);
    LooksInVain(seen, w);
    StrandsJob(waiting, other);
    ExecAppends(seen, Times(Wait(w), 3), Stranding(s.timeout, other));
    ss, steps := IsRun(s, Seeing(w, worker, deadline), Times(Wait(w), 3) + Stranding(s.timeout, other));
    WaitsForGoodExactly(ss[|steps|], w);
  }

  function Stranding(timeout: nat, other: string): seq<Action> {
    [Tick(timeout + 1), ListClaim] + ([PutBack, TakeJob] + [SetClaim(other), DropClaim])
  }

  lemma GetsTooOld(s: System, rest: seq<Action>)
    requires s.claim.Some? && s.claimTime == s.clock && s.listed == 0
    ensures Exec(s, [Tick(s.timeout + 1), ListClaim] + rest)
         == Exec(s.(clock := s.clock + s.timeout + 1, listed := 1), rest)
  {
    ExecTwo(s, Tick(s.timeout + 1), ListClaim, rest);
  }

  lemma IsPutBackAndTaken(s: System, rest: seq<Action>)
    requires s.job && s.listed == 1 && s.queued == 0 && s.taken == 0 && s.clock <= s.deadline
    ensures Exec(s, [PutBack, TakeJob] + rest) == Exec(s.(listed := 0, taken := 1), rest)
  {
    ExecTwo(s, PutBack, TakeJob, rest);
  }

  lemma ClaimsAndLoses(s: System, other: string)
    requires s.taken == 1
    ensures Exec(s, [SetClaim(other), DropClaim]) == s.(claim := None, claimTime := s.clock, taken := 0)
  {
    ExecTwo(s, SetClaim(other), DropClaim, []);
    assert [SetClaim(other), DropClaim] + [] == [SetClaim(other), DropClaim];
  }

  lemma StrandsJob(s: System, other: string)
    requires s.job && s.claim.Some? && s.claimTime == s.clock && s.clock + s.timeout < s.deadline
    requires s.queued == 0 && s.taken == 0 && s.listed == 0
    ensures var now := s.clock + s.timeout + 1;
      Exec(s, Stranding(s.timeout, other)) == s.(claim := None, claimTime := now, clock := now)
  {
    var old_, again, gone := s.(clock := s.clock + s.timeout + 1, listed := 1), [PutBack, TakeJob],
                             [SetClaim(other), DropClaim];
    GetsTooOld(s, again + gone);
    IsPutBackAndTaken(old_, gone);
    ClaimsAndLoses(old_.(listed := 0, taken := 1), other);
  }
}
