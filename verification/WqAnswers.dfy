/** What `wait_for_job` answers over any run, and what it and `resolve_job` come to when nobody else does
    anything (wq/src/lib.rs:463-723). */
module WqAnswers {
  import opened Prelude
  import opened WqKeys
  import opened WqWaiter
  import opened WqWakeups

  // A stored result -------------------------------------------------------------------------------

  /** The result is there, whatever it is, from state `i` to state `j`. */
  ghost predicate StaysStored(ss: seq<System>, i: nat, j: nat)
    requires j < |ss|
  {
    forall n :: i <= n <= j ==> ss[n].result.Some?
  }

  /** How many steps of its own a waiter has made. */
  function OwnSteps(steps: seq<Action>, i: nat, j: nat, w: Pid): nat
    requires i <= j <= |steps|
    decreases j
  {
    if i == j then 0 else OwnSteps(steps, i, j - 1, w) + One(steps[j - 1] == Wait(w))
  }

  ghost predicate WasStored(ss: seq<System>, i: nat, j: nat, status: JobStatus)
    requires j < |ss|
  {
    exists n :: i <= n <= j && ss[n].result == Some(status)
  }

  /** Where a waiter is after `n` of its own steps, when each of them finds a result. */
  predicate OnItsWay(at: WaiterAt, n: nat) {
    match n
    case 0 => at == Check0
    case 1 => at == Check1(true)
    case 2 => at.Check2? && at.hasResult
    case 3 => at.Check3?
    case 4 => at == Subscribe
    case 5 => at == GetResult
    case _ => at.Returned? && at.outcome.Ended?
  }

  lemma StoredStep(s: System, a: Action, w: Pid, n: nat)
    requires w in s.waiters && s.result.Some? && OnItsWay(s.waiters[w].at, n)
    ensures var s' := Next(s, a);
      && w in s'.waiters && OnItsWay(s'.waiters[w].at, n + One(a == Wait(w)))
      && (n >= 6 ==> s'.waiters[w].at == s.waiters[w].at)
      && (n == 5 && a == Wait(w) ==> s'.waiters[w].at == Returned(Ended(s.result.value)))
  {
  }

  /** When a result is stored from the moment that a wait begins, the waiter never blocks, and after
      six steps of its own it has returned a status that was stored, which some resolver settled on. */
  lemma {:induction false} StoredResultIsReturned(ss: seq<System>, steps: seq<Action>, i: nat, j: nat, w: Pid)
    requires Run(ss, steps) && i <= j < |ss| && StaysStored(ss, i, j)
    requires w in ss[i].waiters && ss[i].waiters[w].at == Check0
    ensures w in ss[j].waiters && OnItsWay(ss[j].waiters[w].at, OwnSteps(steps, i, j, w))
    ensures !ss[j].waiters[w].at.Blocked?
    ensures OwnSteps(steps, i, j, w) >= 6 ==>
      var at := ss[j].waiters[w].at;
      && at.Returned? && at.outcome.Ended?
      && WasStored(ss, i, j, at.outcome.status) && Settled(ss[j], at.outcome.status)
    decreases j
  {
    if i < j {
      StoredResultIsReturned(ss, steps, i, j - 1, w);
      StoredStep(ss[j - 1], steps[j - 1], w, OwnSteps(steps, i, j - 1, w));
      RunKeeps(ss, steps, j);
      assert WaiterOk(ss[j], ss[j].waiters[w]);
      if OwnSteps(steps, i, j, w) >= 6 {
        var status := ss[j].waiters[w].at.outcome.status;
        if OwnSteps(steps, i, j - 1, w) >= 6 {
          var n :| i <= n <= j - 1 && ss[n].result == Some(status);
          assert ss[n].result == Some(status);
        } else {
          assert ss[j - 1].result == Some(status);
        }
      }
    }
  }

  // Undisturbed -------------------------------------------------------------------------------------

  function WaiterSteps(s: System, w: Waiter, n: nat): Waiter
    decreases n
  {
    if n == 0 then w else WaiterSteps(s, WaiterStep(s, w), n - 1)
  }

  lemma {:induction false} WaitsAlone(s: System, w: Pid, n: nat)
    requires w in s.waiters
    ensures Exec(s, Times(Wait(w), n)) == s.(waiters := s.waiters[w := WaiterSteps(s, s.waiters[w], n)])
    decreases n
  {
    if n > 0 {
      var next := s.(waiters := s.waiters[w := WaiterStep(s, s.waiters[w])]);
      ExecTimes(s, Wait(w), n);
      WaitsAlone(next, w, n - 1);
      SameSteps(s, next, next.waiters[w], n - 1);
      assert next.waiters[w := WaiterSteps(s, next.waiters[w], n - 1)]
          == s.waiters[w := WaiterSteps(s, next.waiters[w], n - 1)];
    } else {
      assert s.waiters[w := s.waiters[w]] == s.waiters;
    }
  }

  lemma {:induction false} SameSteps(s: System, s': System, w: Waiter, n: nat)
    requires s' == s.(waiters := s'.waiters)
    ensures WaiterSteps(s', w, n) == WaiterSteps(s, w, n)
    decreases n
  {
    if n > 0 { SameSteps(s, s', WaiterStep(s, w), n - 1); }
  }

  /** A wait that nobody disturbs comes to the stored result; without one, to the status key while it
      lasts; without that, it blocks as long as the job is known, and otherwise the job is not found. */
  lemma UndisturbedWait(s: System, w: Pid)
    requires w in s.waiters && s.waiters[w] == Waiter(Check0, [])
    ensures Exec(s, Times(Wait(w), 6)) == s.(waiters := s.waiters[w := Waiter(
      if s.result.Some? then Returned(Ended(s.result.value))
      else if StatusKey(s).Some? then Returned(FromCode(StatusKey(s).value))
      else if s.claim.Some? || s.job then Blocked(s.clock)
      else Returned(NotFound), [])])
  {
    WaitsAlone(s, w, 6);
    UndisturbedSteps(s);
  }

  lemma UndisturbedSteps(s: System)
    ensures WaiterSteps(s, Waiter(Check0, []), 6) == Waiter(
      if s.result.Some? then Returned(Ended(s.result.value))
      else if StatusKey(s).Some? then Returned(FromCode(StatusKey(s).value))
      else if s.claim.Some? || s.job then Blocked(s.clock)
      else Returned(NotFound), [])
  {
    var w1 := WaiterStep(s, Waiter(Check0, []));
    var w2 := WaiterStep(s, w1);
    var w3 := WaiterStep(s, w2);
    var w4 := WaiterStep(s, w3);
    var w5 := WaiterStep(s, w4);
    assert WaiterSteps(s, Waiter(Check0, []), 6) == WaiterSteps(s, w2, 4) == WaiterSteps(s, w4, 2) == WaiterStep(s, w5);
  }

  // Resolving ---------------------------------------------------------------------------------------

  /** What a call of `resolve_job` settles on, and whether it cleans up. */
  function FinalOf(status: JobStatus, failed: bool): JobStatus { if failed then InternalError else status }

  function Acts(s: System, r: Resolver, n: nat): (System, Resolver)
    decreases n
  {
    if n == 0 then (s, r) else var (s', r') := ResolverActs(s, r); Acts(s', r', n - 1)
  }

  /** What a call does has nothing to do with the other calls. */
  lemma {:induction false} ActsAlike(s: System, s': System, r: Resolver, n: nat)
    requires s' == s.(resolvers := s'.resolvers)
    ensures Acts(s', r, n).1 == Acts(s, r, n).1
    ensures Acts(s', r, n).0 == Acts(s, r, n).0.(resolvers := s'.resolvers)
    decreases n
  {
    if n > 0 { ActsAlike(ResolverActs(s, r).0, ResolverActs(s', r).0, ResolverActs(s, r).1, n - 1); }
  }

  lemma {:induction false} ResolvesAlone(s: System, pid: Pid, n: nat)
    requires pid in s.resolvers
    ensures var (s', r) := Acts(s, s.resolvers[pid], n);
      Exec(s, Times(Resolve(pid), n)) == s'.(resolvers := s.resolvers[pid := r])
    decreases n
  {
    if n > 0 {
      ExecTimes(s, Resolve(pid), n);
      var next := ResolverStep(s, pid);
      var (one, r) := ResolverActs(s, s.resolvers[pid]);
      ResolvesAlone(next, pid, n - 1);
      ActsAlike(one, next, r, n - 1);
      assert next.resolvers[pid := Acts(one, r, n - 1).1] == s.resolvers[pid := Acts(one, r, n - 1).1];
    } else {
      assert s.resolvers[pid := s.resolvers[pid]] == s.resolvers;
    }
  }

  lemma {:induction false} ActsSplit(s: System, r: Resolver, m: nat, n: nat)
    ensures Acts(s, r, m + n) == Acts(Acts(s, r, m).0, Acts(s, r, m).1, n)
    decreases m
  {
    if m > 0 { ActsSplit(ResolverActs(s, r).0, ResolverActs(s, r).1, m - 1, n); }
  }

  /** The state in which a resolution with this final status leaves what it writes. */
  function Ending(s: System, final: JobStatus, cleanup: bool): System {
    s.(claim := None,
       job := if cleanup then false else s.job,
       result := if cleanup then None else Some(final),
       status := Some((final.ToByte(), s.clock + RESOLVED_TTL_SECS)),
       waiters := Deliver(s.waiters, final.ToByte()))
  }

  lemma ActsOutOfCheck(s: System, worker: string, status: JobStatus, cleans: bool, failed: bool)
    ensures Acts(s, HgetClaim(worker, status, cleans, failed), 3) ==
              if s.claim == Some(worker) && s.job
              then (s.(claim := None), SetResult(FinalOf(status, failed), cleans || failed)) else (s, Refused)
  {
  }

  lemma ActsOnResult(s: System, final: JobStatus, cleanup: bool, n: nat)
    requires n > 0
    ensures Acts(s, SetResult(final, cleanup), n) == Acts(s.(result := Some(final)), SetEx(final, cleanup), n - 1)
  {
  }

  lemma ActsOnStatus(s: System, final: JobStatus, cleanup: bool, n: nat)
    requires n > 1
    ensures Acts(s, SetEx(final, cleanup), n) ==
              Acts(s.(status := Some((final.ToByte(), s.clock + RESOLVED_TTL_SECS))),
                   Publish(final, cleanup, s.clock), n - 2)
  {
  }

  lemma ActsByWriting(s: System, final: JobStatus, cleanup: bool, n: nat)
    requires n > 2
    ensures Acts(s, SetResult(final, cleanup), n) ==
              Acts(s.(result := Some(final)).(status := Some((final.ToByte(), s.clock + RESOLVED_TTL_SECS))),
                   Publish(final, cleanup, s.clock), n - 3)
  {
    ActsOnResult(s, final, cleanup, n);
    ActsOnStatus(s.(result := Some(final)), final, cleanup, n - 1);
  }

  lemma ActsAtTheEnd(s: System, final: JobStatus, cleanup: bool, at: int)
    ensures Acts(s, Publish(final, cleanup, at), 3) ==
              (s.(waiters := Deliver(s.waiters, final.ToByte()), job := if cleanup then false else s.job,
                  result := if cleanup then None else s.result),
               Resolved(final, at))
  {
  }

  lemma ActsWhenRefused(s: System, n: nat)
    ensures Acts(s, Refused, n) == (s, Refused)
  {
  }

  lemma ActsToTheEnd(s: System, worker: string, status: JobStatus, cleans: bool, failed: bool)
    ensures Acts(s, HgetClaim(worker, status, cleans, failed), 9) ==
              if s.claim == Some(worker) && s.job
              then (Ending(s, FinalOf(status, failed), cleans || failed), Resolved(FinalOf(status, failed), s.clock))
              else (s, Refused)
  {
    var r, final, cleanup := HgetClaim(worker, status, cleans, failed), FinalOf(status, failed), cleans || failed;
    ActsSplit(s, r, 3, 6);
    ActsOutOfCheck(s, worker, status, cleans, failed);
    if s.claim == Some(worker) && s.job {
      var freed := s.(claim := None);
      ActsByWriting(freed, final, cleanup, 6);
      ActsAtTheEnd(freed.(result := Some(final)).(status := Some((final.ToByte(), s.clock + RESOLVED_TTL_SECS))),
                   final, cleanup, s.clock);
    } else {
      ActsWhenRefused(s, 6);
    }
  }

  /** A resolution that nobody disturbs ends the claim, tells every waiter that has subscribed, writes the
      status for 60 seconds, and either leaves the result or cleans up; one by a worker that does not
      hold the claim, or for a job without a description, changes nothing. */
  lemma UndisturbedResolve(s: System, pid: Pid, worker: string, status: JobStatus, cleans: bool, failed: bool)
    requires pid in s.resolvers && s.resolvers[pid] == HgetClaim(worker, status, cleans, failed)
    ensures var final := FinalOf(status, failed);
      Exec(s, Times(Resolve(pid), 9)) ==
        if s.claim == Some(worker) && s.job
        then Ending(s, final, cleans || failed).(resolvers := s.resolvers[pid := Resolved(final, s.clock)])
        else s.(resolvers := s.resolvers[pid := Refused])
  {
    ResolvesAlone(s, pid, 9);
    ActsToTheEnd(s, worker, status, cleans, failed);
  }

  /** A resolver goes on with what was handed in at step `k`. */
  ghost predicate BegunAt(steps: seq<Action>, k: nat, pid: Pid, r: Resolver) {
    && k < |steps| && steps[k].BeginResolve? && steps[k].pid == pid
    && var a := steps[k];
    match r
    case HgetClaim(worker, status, cleans, failed) =>
      worker == a.worker && status == a.status && cleans == a.cleans && failed == a.failed
    case DelJob(status, _) => (a.cleans || a.failed) && status == FinalOf(a.status, a.failed)
    case DelResult(status, _) => (a.cleans || a.failed) && status == FinalOf(a.status, a.failed)
    case Resolved(status, _) => status == FinalOf(a.status, a.failed)
    case Refused => true
    case _ => r.cleans == (a.cleans || a.failed) && r.status == FinalOf(a.status, a.failed)
  }

  lemma BegunStays(steps: seq<Action>, k: nat, pid: Pid, s: System, r: Resolver)
    requires BegunAt(steps, k, pid, r)
    ensures BegunAt(steps, k, pid, ResolverActs(s, r).1)
  {
  }

  lemma OneStepOn(s: System, a: Action, pid: Pid)
    requires pid in Next(s, a).resolvers
    ensures pid in s.resolvers ==>
              Next(s, a).resolvers[pid] in {s.resolvers[pid], ResolverActs(s, s.resolvers[pid]).1}
    ensures pid !in s.resolvers ==> a.BeginResolve? && a.pid == pid
    ensures pid !in s.resolvers ==> Next(s, a).resolvers[pid] == HgetClaim(a.worker, a.status, a.cleans, a.failed)
  {
  }

  lemma {:induction false} ResolverWasBegun(ss: seq<System>, steps: seq<Action>, i: nat, pid: Pid) returns (k: nat)
    requires Run(ss, steps) && i < |ss| && pid in ss[i].resolvers
    ensures k < i && BegunAt(steps, k, pid, ss[i].resolvers[pid])
  {
    OneStepOn(ss[i - 1], steps[i - 1], pid);
    if pid in ss[i - 1].resolvers {
      k := ResolverWasBegun(ss, steps, i - 1, pid);
      BegunStays(steps, k, pid, ss[i - 1], ss[i - 1].resolvers[pid]);
    } else {
      k := i - 1;
    }
  }

  /** A status that a wait returns was handed in by a worker, or it is the internal error that a failed
      callback comes to. */
  lemma ReturnsWhatWasHandedIn(ss: seq<System>, steps: seq<Action>, i: nat, w: Pid) returns (k: nat)
    requires Run(ss, steps) && i < |ss|
    requires w in ss[i].waiters && ss[i].waiters[w].at.Returned? && ss[i].waiters[w].at.outcome.Ended?
    ensures k < i && steps[k].BeginResolve?
    ensures ss[i].waiters[w].at.outcome.status == FinalOf(steps[k].status, steps[k].failed)
  {
    RunKeeps(ss, steps, i);
    assert WaiterOk(ss[i], ss[i].waiters[w]);
    var pid :| pid in ss[i].resolvers && SettledBy(ss[i].resolvers[pid], ss[i].waiters[w].at.outcome.status);
    k := ResolverWasBegun(ss, steps, i, pid);
  }
}
