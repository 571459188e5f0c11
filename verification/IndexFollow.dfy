/** How lobby processes agree on a commit of the index repository (lobby/src/index_manager.rs).
    Each call is split where it talks to the shared key, so processes interleave; the calls of
    one process do not. The branch may be moved to any commit. */
module IndexFollow {
  import opened Prelude

  type Commit = nat

  /** The strict ancestors of every commit. */
  datatype Graph = Graph(ancestors: map<Commit, set<Commit>>) {
    function Anc(c: Commit): set<Commit> {
      if c in ancestors then ancestors[c] else {}
    }

    function History(c: Commit): set<Commit> { {c} + Anc(c) }

    ghost predicate Acyclic() {
      forall c, d :: d in Anc(c) ==> Anc(d) <= Anc(c) && c !in Anc(d) && d != c
    }
  }

  datatype Pc = Idle | MustFollow | Following(wanted: Commit) | Announcing

  /** `store` is what its checkout has fetched so far; `unannounced` says that `update` loaded a
      commit that was not announced since. */
  datatype Process = Process(commit: Commit, seen: Option<Commit>, store: set<Commit>, unannounced: bool, pc: Pc)

  datatype System = System(head: Commit, announced: Option<Commit>, procs: seq<Process>)

  datatype Action =
    | Push(commit: Commit)
    | Start
    | Update(p: nat)
    | Announce(p: nat)
    | Join(p: nat)
    | FollowRead(p: nat)
    | FollowLoad(p: nat)
    | AnnounceSet(p: nat)

  function Put(s: System, p: nat, x: Process): System
    requires p < |s.procs|
  {
    s.(procs := s.procs[p := x])
  }

  /** `fetch_and_reset`, and the swap of the index: `wanted` if the checkout has it after
      fetching, the head of the branch otherwise. */
  function Load(g: Graph, s: System, x: Process, wanted: Option<Commit>): Process {
    var store := x.store + g.History(s.head);
    x.(store := store,
       commit := if wanted.Some? && wanted.value in store then wanted.value else s.head)
  }

  function MarkSeen(x: Process): Process {
    x.(seen := Some(x.commit), unannounced := false)
  }

  /** Whether `follow_once` would load something. */
  predicate Effective(s: System, x: Process) {
    s.announced.Some? && x.seen != s.announced && x.commit != s.announced.value
  }

  function ReadAnnounced(s: System, x: Process): Process {
    if Effective(s, x) then x.(pc := Following(s.announced.value))
    else if s.announced == Some(x.commit) then MarkSeen(x).(pc := Idle)
    else x.(pc := Idle)
  }

  function LoadAnnounced(g: Graph, s: System, x: Process, wanted: Commit): Process {
    var loaded := MarkSeen(Load(g, s, x, Some(wanted)));
    loaded.(pc := if loaded.commit == wanted then Idle else Announcing)
  }

  /** `is_ancestor`: a commit the checkout does not have is nobody's ancestor. */
  predicate KnownAncestor(g: Graph, x: Process, ancestor: Commit) {
    ancestor in x.store && ancestor in g.Anc(x.commit)
  }

  function JoinRead(g: Graph, s: System, x: Process): Process {
    if s.announced == Some(x.commit) then MarkSeen(x)
    else if s.announced.Some? && !KnownAncestor(g, x, s.announced.value) then x.(pc := MustFollow)
    else MarkSeen(x).(pc := Announcing)
  }

  predicate Enabled(s: System, a: Action) {
    match a
    case Push(_) => true
    case Start => true
    case Update(p) => p < |s.procs| && s.procs[p].pc.Idle?
    case Announce(p) => p < |s.procs| && s.procs[p].pc.Idle?
    case Join(p) => p < |s.procs| && s.procs[p].pc.Idle?
    case FollowRead(p) => p < |s.procs| && (s.procs[p].pc.Idle? || s.procs[p].pc.MustFollow?)
    case FollowLoad(p) => p < |s.procs| && s.procs[p].pc.Following?
    case AnnounceSet(p) => p < |s.procs| && s.procs[p].pc.Announcing?
  }

  function Next(g: Graph, s: System, a: Action): System
    requires Enabled(s, a)
  {
    match a
    case Push(c) => s.(head := c)
    case Start => s.(procs := s.procs + [Process(s.head, None, g.History(s.head), false, Idle)])
    case Update(p) => Put(s, p, Load(g, s, s.procs[p], None).(unannounced := true))
    case Announce(p) => Put(s, p, MarkSeen(s.procs[p]).(pc := Announcing))
    case Join(p) => Put(s, p, JoinRead(g, s, s.procs[p]))
    case FollowRead(p) => Put(s, p, ReadAnnounced(s, s.procs[p]))
    case FollowLoad(p) => Put(s, p, LoadAnnounced(g, s, s.procs[p], s.procs[p].pc.wanted))
    case AnnounceSet(p) => Put(s, p, s.procs[p].(pc := Idle)).(announced := Some(s.procs[p].commit))
  }

  // Agreement -----------------------------------------------------------------------------

  /** Having seen an announcement means being on it, unless an update is unannounced. */
  predicate ProcessOk(x: Process) {
    && (x.seen.Some? ==> x.seen.value == x.commit || x.unannounced)
    && x.commit in x.store
  }

  ghost predicate Inv(s: System) {
    forall p :: 0 <= p < |s.procs| ==> ProcessOk(s.procs[p])
  }

  lemma StepKeeps(g: Graph, s: System, a: Action)
    requires Inv(s) && Enabled(s, a)
    ensures Inv(Next(g, s, a))
  {
  }

  ghost predicate Run(g: Graph, ss: seq<System>, steps: seq<Action>) {
    && |ss| == |steps| + 1 && ss[0].procs == [] && ss[0].announced == None
    && forall i :: 0 <= i < |steps| ==> Enabled(ss[i], steps[i]) && ss[i + 1] == Next(g, ss[i], steps[i])
  }

  lemma {:induction false} RunKeeps(g: Graph, ss: seq<System>, steps: seq<Action>, i: nat)
    requires Run(g, ss, steps) && i < |ss|
    ensures Inv(ss[i])
  {
    if i > 0 {
      RunKeeps(g, ss, steps, i - 1);
      StepKeeps(g, ss[i - 1], steps[i - 1]);
    }
  }

  ghost predicate Quiet(s: System) {
    forall p :: 0 <= p < |s.procs| ==> s.procs[p].pc.Idle? && !Effective(s, s.procs[p])
  }

  /** When no `follow_once` would do anything, every process without an unannounced update is on
      the announced commit. */
  lemma QuietMeansAgreement(s: System, p: nat)
    requires Inv(s) && Quiet(s) && p < |s.procs|
    requires s.announced.Some? && !s.procs[p].unannounced
    ensures s.procs[p].commit == s.announced.value
  {
    assert ProcessOk(s.procs[p]) && !Effective(s, s.procs[p]);
  }

  // Convergence ---------------------------------------------------------------------------

  predicate IsFollowing(a: Action) {
    a.FollowRead? || a.FollowLoad? || a.AnnounceSet?
  }

  /** Everything a follower does, except looking and finding nothing to do. */
  predicate Works(s: System, a: Action) {
    && IsFollowing(a) && Enabled(s, a)
    && (a.FollowRead? ==> s.procs[a.p].pc.MustFollow? || Effective(s, s.procs[a.p]))
  }

  /** An announcement still to be made of something that is not the head of the branch. */
  function Stale(s: System, x: Process): nat {
    if x.pc.Announcing? && x.commit != s.head then 1 else 0
  }

  function Work(s: System, x: Process): nat {
    match x.pc
    case Idle => if Effective(s, x) then 3 else 0
    case MustFollow => if Effective(s, x) then 4 else 1
    case Following(wanted) => if s.announced == Some(wanted) then 2 else 5
    case Announcing => 1
  }

  function Sum(s: System, f: (System, Process) -> nat, n: nat): nat
    requires n <= |s.procs|
  {
    if n == 0 then 0 else Sum(s, f, n - 1) + f(s, s.procs[n - 1])
  }

  lemma {:induction false} SumBound(s: System, f: (System, Process) -> nat, n: nat, bound: nat)
    requires n <= |s.procs| && forall x :: f(s, x) <= bound
    ensures Sum(s, f, n) <= bound * n
  {
    if n > 0 {
      SumBound(s, f, n - 1, bound);
      assert bound * n == bound * (n - 1) + bound;
    }
  }

  /** Changing one process, in a way that leaves the others' terms alone. */
  lemma {:induction false} SumChange(s: System, s': System, f: (System, Process) -> nat, p: nat, n: nat)
    requires |s'.procs| == |s.procs| && n <= |s.procs| && p < |s.procs|
    requires forall q :: 0 <= q < |s.procs| && q != p ==> f(s', s'.procs[q]) == f(s, s.procs[q])
    ensures Sum(s', f, n) - Sum(s, f, n) == if p < n then f(s', s'.procs[p]) - f(s, s.procs[p]) else 0
  {
    if n > 0 { SumChange(s, s', f, p, n - 1); }
  }

  function Rounds(s: System): nat {
    2 * Sum(s, Stale, |s.procs|) + if s.announced == Some(s.head) then 0 else 1
  }

  /** How much following is left, at most. */
  function Potential(s: System): nat {
    Rounds(s) * (5 * |s.procs| + 1) + Sum(s, Work, |s.procs|)
  }

  lemma FewerRounds(s: System, s': System)
    requires |s'.procs| == |s.procs| && Rounds(s') < Rounds(s)
    ensures Potential(s') < Potential(s)
  {
    SumBound(s', Work, |s.procs|, 5);
    FewerUnits(Rounds(s'), Rounds(s), 5 * |s.procs| + 1);
  }

  lemma FewerUnits(a: nat, b: nat, unit: nat)
    requires a < b
    ensures a * unit + unit <= b * unit
  {
    assert b * unit == (a + 1) * unit + (b - a - 1) * unit;
  }

  /** While the branch stays put and nobody refreshes, every step of following, whatever the
      interleaving, leaves strictly less to do, and a look that finds nothing leaves no more. */
  lemma FollowingProgresses(g: Graph, s: System, a: Action)
    requires Inv(s) && IsFollowing(a) && Enabled(s, a)
    ensures Potential(Next(g, s, a)) <= Potential(s)
    ensures Works(s, a) ==> Potential(Next(g, s, a)) < Potential(s)
  {
    var s' := Next(g, s, a);
    var n := |s.procs|;
    SumChange(s, s', Stale, a.p, n);
    if a.AnnounceSet? && s.announced != Some(s.procs[a.p].commit) {
      FewerRounds(s, s');
    } else {
      SumChange(s, s', Work, a.p, n);
      assert Rounds(s') == Rounds(s) ==>
        Sum(s', Work, n) <= Sum(s, Work, n) && (Works(s, a) ==> Sum(s', Work, n) < Sum(s, Work, n));
      if Rounds(s') < Rounds(s) { FewerRounds(s, s'); }
    }
  }

  /** Followers look as often as they like. */
  ghost predicate FollowingRun(g: Graph, ss: seq<System>, steps: seq<Action>) {
    && |ss| == |steps| + 1
    && forall i :: 0 <= i < |steps| ==>
         IsFollowing(steps[i]) && Enabled(ss[i], steps[i]) && ss[i + 1] == Next(g, ss[i], steps[i])
  }

  /** How many of the first `i` steps did something. */
  function Worked(ss: seq<System>, steps: seq<Action>, i: nat): nat
    requires i <= |steps| < |ss|
  {
    if i == 0 then 0 else Worked(ss, steps, i - 1) + if Works(ss[i - 1], steps[i - 1]) then 1 else 0
  }

  /** So following ends: from any state there is a number of steps that no run of it exceeds, apart
      from looks that find nothing. */
  lemma {:induction false} FollowingEnds(g: Graph, ss: seq<System>, steps: seq<Action>, i: nat)
    requires FollowingRun(g, ss, steps) && Inv(ss[0]) && i <= |steps|
    ensures Inv(ss[i]) && Worked(ss, steps, i) + Potential(ss[i]) <= Potential(ss[0])
  {
    if i > 0 {
      FollowingEnds(g, ss, steps, i - 1);
      FollowingProgresses(g, ss[i - 1], steps[i - 1]);
      StepKeeps(g, ss[i - 1], steps[i - 1]);
    }
  }

  /** And where it ends, all is quiet. */
  lemma StuckMeansQuiet(s: System)
    requires forall a :: !Works(s, a)
    ensures Quiet(s)
  {
    forall p | 0 <= p < |s.procs| ensures s.procs[p].pc.Idle? && !Effective(s, s.procs[p]) {
      assert !Works(s, FollowRead(p)) && !Works(s, FollowLoad(p)) && !Works(s, AnnounceSet(p));
    }
  }

  /** From any state a run can reach, following does something a bounded number of times, and once
      it can do nothing more every process without an unannounced update is on the announced commit. */
  lemma FollowingConverges(g: Graph, ss: seq<System>, steps: seq<Action>, i: nat,
                           fs: seq<System>, follows: seq<Action>, p: nat)
    requires Run(g, ss, steps) && i < |ss|
    requires FollowingRun(g, fs, follows) && fs[0] == ss[i]
    ensures Worked(fs, follows, |follows|) <= Potential(ss[i])
    ensures var end := fs[|follows|];
      (forall a :: !Works(end, a)) && end.announced.Some? && p < |end.procs| && !end.procs[p].unannounced ==>
        end.procs[p].commit == end.announced.value
  {
    RunKeeps(g, ss, steps, i);
    FollowingEnds(g, fs, follows, |follows|);
    var end := fs[|follows|];
    if (forall a :: !Works(end, a)) && end.announced.Some? && p < |end.procs| && !end.procs[p].unannounced {
      StuckMeansQuiet(end);
      QuietMeansAgreement(end, p);
    }
  }

  /** The head of the branch is announced, and nobody is about to announce anything else. */
  ghost predicate HeadAnnounced(s: System) {
    && s.announced == Some(s.head)
    && forall p :: 0 <= p < |s.procs| && s.procs[p].pc.Announcing? ==> s.procs[p].commit == s.head
  }

  lemma HeadStaysAnnounced(g: Graph, s: System, a: Action)
    requires HeadAnnounced(s) && IsFollowing(a) && Enabled(s, a)
    ensures var s' := Next(g, s, a);
      && HeadAnnounced(s') && s'.head == s.head && |s'.procs| == |s.procs|
      && forall q :: 0 <= q < |s.procs| && s'.procs[q].unannounced ==> s.procs[q].unannounced
  {
  }

  lemma {:induction false} HeadAnnouncedThroughout(g: Graph, ss: seq<System>, steps: seq<Action>, i: nat, q: nat)
    requires FollowingRun(g, ss, steps) && HeadAnnounced(ss[0]) && i <= |steps| && q < |ss[0].procs|
    ensures HeadAnnounced(ss[i]) && ss[i].head == ss[0].head && |ss[i].procs| == |ss[0].procs|
    ensures ss[i].procs[q].unannounced ==> ss[0].procs[q].unannounced
  {
    if i > 0 {
      HeadAnnouncedThroughout(g, ss, steps, i - 1, q);
      HeadStaysAnnounced(g, ss[i - 1], steps[i - 1]);
    }
  }

  /** A process that refreshes and announces what it loaded. */
  function Refreshed(g: Graph, s: System, p: nat): System
    requires p < |s.procs| && s.procs[p].pc == Idle
  {
    Next(g, Next(g, Next(g, s, Update(p)), Announce(p)), AnnounceSet(p))
  }

  /** A refresh reaches everyone: once one process has loaded the head of the branch and announced it,
      following, in any interleaving, ends with every process on that commit, except others that
      had loaded something they did not announce. */
  lemma RefreshReachesEveryone(g: Graph, s: System, p: nat, ss: seq<System>, steps: seq<Action>, q: nat)
    requires Inv(s) && p < |s.procs| && s.procs[p].pc == Idle
    requires forall r :: 0 <= r < |s.procs| && s.procs[r].pc.Announcing? ==> s.procs[r].commit == s.head
    requires FollowingRun(g, ss, steps) && ss[0] == Refreshed(g, s, p)
    requires q < |s.procs| && (q == p || !s.procs[q].unannounced)
    ensures var end := ss[|steps|];
      && end.announced == Some(s.head) && |end.procs| == |s.procs|
      && ((forall a :: !Works(end, a)) ==> end.procs[q].commit == s.head)
  {
    StepKeeps(g, s, Update(p));
    StepKeeps(g, Next(g, s, Update(p)), Announce(p));
    StepKeeps(g, Next(g, Next(g, s, Update(p)), Announce(p)), AnnounceSet(p));
    HeadAnnouncedThroughout(g, ss, steps, |steps|, q);
    FollowingEnds(g, ss, steps, |steps|);
    var end := ss[|steps|];
    if forall a :: !Works(end, a) {
      StuckMeansQuiet(end);
      QuietMeansAgreement(end, q);
    }
  }

  // One call at a time ----------------------------------------------------------------------

  /** A whole `follow_once`. */
  function FollowOnce(g: Graph, s: System, p: nat): System
    requires p < |s.procs| && s.procs[p].pc in {Idle, MustFollow}
  {
    var read := Next(g, s, FollowRead(p));
    if !read.procs[p].pc.Following? then read
    else
      var loaded := Next(g, read, FollowLoad(p));
      if loaded.procs[p].pc.Announcing? then Next(g, loaded, AnnounceSet(p)) else loaded
  }

  function Missing(g: Graph, s: System): nat {
    if s.announced.Some? && s.announced.value in g.History(s.head) then 0 else 1
  }

  function Off(s: System, x: Process): nat {
    if s.announced == Some(x.commit) then 0 else 1
  }

  /** An effective `follow_once` either leaves fewer processes off the announced commit, or
      replaces one that is not in the repository by one that is. */
  lemma FollowOnceDecreases(g: Graph, s: System, p: nat)
    requires p < |s.procs| && s.procs[p].pc == Idle && Effective(s, s.procs[p])
    ensures var s' := FollowOnce(g, s, p);
      || Missing(g, s') < Missing(g, s)
      || (Missing(g, s') == Missing(g, s) && Sum(s', Off, |s.procs|) < Sum(s, Off, |s.procs|))
  {
    var s' := FollowOnce(g, s, p);
    if s'.announced == s.announced {
      SumChange(s, s', Off, p, |s.procs|);
    }
  }

  /** A whole `join_other_processes`. */
  function JoinOnce(g: Graph, s: System, p: nat): System
    requires p < |s.procs| && s.procs[p].pc == Idle
  {
    var read := Next(g, s, Join(p));
    if read.procs[p].pc.MustFollow? then FollowOnce(g, read, p)
    else if read.procs[p].pc.Announcing? then Next(g, read, AnnounceSet(p))
    else read
  }

  /** A process that has just started replaces the announced commit by one of its ancestors in
      one case only: the announced commit is not in its checkout after fetching, and the branch
      is now at that ancestor. */
  lemma JoinGoesBackOnlyWithTheBranch(g: Graph, s: System, p: nat, announced: Commit)
    requires g.Acyclic() && Inv(s) && p < |s.procs| && s.procs[p].pc == Idle && s.procs[p].seen == None
    requires s.announced == Some(announced)
    ensures JoinOnce(g, s, p).announced.Some?
    ensures JoinOnce(g, s, p).announced.value in g.Anc(announced)
       <==> announced !in s.procs[p].store + g.History(s.head) && s.head in g.Anc(announced)
  {
    assert ProcessOk(s.procs[p]);
  }

  // Joining while others announce ---------------------------------------------------------------

  ghost predicate GoesBack(g: Graph, s: System, s': System) {
    s.announced.Some? && s'.announced.Some? && s'.announced.value in g.Anc(s.announced.value)
  }

  predicate NoneAnnounced(steps: seq<Action>, i: nat, j: nat)
    requires j <= |steps|
  {
    forall n :: i <= n < j ==> !steps[n].AnnounceSet?
  }

  /** Step `m` is the last announcement before `j`, and it is of `c`. */
  predicate LastAnnounced(ss: seq<System>, steps: seq<Action>, m: nat, j: nat, c: Commit)
    requires m < j <= |steps| < |ss|
  {
    && steps[m].AnnounceSet? && steps[m].p < |ss[m].procs| && ss[m].procs[steps[m].p].commit == c
    && NoneAnnounced(steps, m + 1, j)
  }

  lemma {:induction false} AnnouncedSince(g: Graph, ss: seq<System>, steps: seq<Action>, i: nat, j: nat)
    requires Run(g, ss, steps) && i <= j < |ss|
    ensures NoneAnnounced(steps, i, j) ==> ss[j].announced == ss[i].announced
    ensures !NoneAnnounced(steps, i, j) ==> exists m: nat, c: Commit ::
      i <= m < j && LastAnnounced(ss, steps, m, j, c) && ss[j].announced == Some(c)
    decreases j
  {
    if i < j {
      AnnouncedSince(g, ss, steps, i, j - 1);
      if steps[j - 1].AnnounceSet? {
        assert LastAnnounced(ss, steps, j - 1, j, ss[j - 1].procs[steps[j - 1].p].commit);
      } else if !NoneAnnounced(steps, i, j) {
        assert !NoneAnnounced(steps, i, j - 1);
        var m: nat, c: Commit :|
          i <= m < j - 1 && LastAnnounced(ss, steps, m, j - 1, c) && ss[j - 1].announced == Some(c);
        assert LastAnnounced(ss, steps, m, j, c);
      }
    }
  }

  predicate OfProcess(a: Action, p: nat) {
    !a.Push? && !a.Start? && a.p == p
  }

  /** Between steps `i` and `j` only other processes do anything. */
  ghost predicate OthersOnly(steps: seq<Action>, p: nat, i: nat, j: nat)
    requires j <= |steps|
  {
    forall n :: i < n < j ==> !OfProcess(steps[n], p)
  }

  lemma {:induction false} StaysPut(g: Graph, ss: seq<System>, steps: seq<Action>, p: nat, i: nat, j: nat, n: nat)
    requires Run(g, ss, steps) && i < n <= j <= |steps| && OthersOnly(steps, p, i, j) && p < |ss[i + 1].procs|
    ensures p < |ss[n].procs| && ss[n].procs[p] == ss[i + 1].procs[p]
    decreases n
  {
    if n > i + 1 { StaysPut(g, ss, steps, p, i, j, n - 1); }
  }

  /** Another process announced after step `i`, and last of all a commit with `mine` among its
      ancestors. */
  ghost predicate NewerAnnounced(g: Graph, ss: seq<System>, steps: seq<Action>, i: nat, j: nat, mine: Commit)
    requires j <= |steps| < |ss|
  {
    exists m: nat, c: Commit :: i < m < j && LastAnnounced(ss, steps, m, j, c) && mine in g.Anc(c)
  }

  lemma WriteGoesBackExactly(g: Graph, ss: seq<System>, steps: seq<Action>, p: nat, r: nat, j: nat)
    requires Run(g, ss, steps) && r < j < |steps| && steps[j] == AnnounceSet(p)
    requires ss[r + 1].announced == ss[r].announced
    ensures p < |ss[j].procs|
    ensures GoesBack(g, ss[j], ss[j + 1]) <==>
      || NewerAnnounced(g, ss, steps, r, j, ss[j].procs[p].commit)
      || (NoneAnnounced(steps, r + 1, j) && ss[r].announced.Some?
          && ss[j].procs[p].commit in g.Anc(ss[r].announced.value))
  {
    AnnouncedSince(g, ss, steps, r + 1, j);
    var mine := ss[j].procs[p].commit;
    assert ss[j + 1] == Next(g, ss[j], steps[j]);
    if !NoneAnnounced(steps, r + 1, j) {
      var m: nat, c: Commit :| r < m < j && LastAnnounced(ss, steps, m, j, c) && ss[j].announced == Some(c);
      forall m': nat, c': Commit | r < m' < j && LastAnnounced(ss, steps, m', j, c') ensures c' == c {}
    }
  }

  /** A process that joins, finds one of its ancestors announced, and announces its own commit takes
      the announcement back exactly when others announced in between, last of all a commit that has
      the joining one among its ancestors. */
  lemma JoinWriteGoesBackExactly(g: Graph, ss: seq<System>, steps: seq<Action>, p: nat, r: nat, j: nat)
    requires g.Acyclic() && Run(g, ss, steps) && r < j < |steps| && OthersOnly(steps, p, r, j)
    requires steps[r] == Join(p) && steps[j] == AnnounceSet(p)
    ensures p < |ss[r].procs|
    ensures GoesBack(g, ss[j], ss[j + 1]) <==> NewerAnnounced(g, ss, steps, r, j, ss[r].procs[p].commit)
  {
    assert ss[r + 1] == Next(g, ss[r], steps[r]);
    StaysPut(g, ss, steps, p, r, j, j);
    WriteGoesBackExactly(g, ss, steps, p, r, j);
    var mine := ss[r].procs[p].commit;
    assert ss[r].announced.Some? ==> ss[r].announced.value in g.Anc(mine);
  }

  /** And when it does not know the announced commit: it looks again, loads the head of the branch
      because the checkout does not have what it wants, and announces that. That goes back exactly
      when others announced something newer than the head it loaded since its look, or nobody did and
      the head is an ancestor of what it looked for. */
  lemma FollowWriteGoesBackExactly(g: Graph, ss: seq<System>, steps: seq<Action>, p: nat, r: nat, l: nat, j: nat)
    requires Run(g, ss, steps) && r < l < j < |steps|
    requires OthersOnly(steps, p, r, l) && OthersOnly(steps, p, l, j)
    requires steps[r] == FollowRead(p) && steps[l] == FollowLoad(p) && steps[j] == AnnounceSet(p)
    ensures ss[r].announced.Some? && p < |ss[l].procs|
    ensures ss[r].announced.value !in ss[l].procs[p].store + g.History(ss[l].head)
    ensures GoesBack(g, ss[j], ss[j + 1]) <==>
      || NewerAnnounced(g, ss, steps, r, j, ss[l].head)
      || (NoneAnnounced(steps, r + 1, j) && ss[l].head in g.Anc(ss[r].announced.value))
  {
    assert ss[r + 1] == Next(g, ss[r], steps[r]);
    StaysPut(g, ss, steps, p, r, l, l);
    assert ss[l + 1] == Next(g, ss[l], steps[l]);
    StaysPut(g, ss, steps, p, l, j, j);
    WriteGoesBackExactly(g, ss, steps, p, r, j);
  }

  // It happens ----------------------------------------------------------------------------------

  lemma Extend(g: Graph, ss: seq<System>, steps: seq<Action>, a: Action)
    returns (ss': seq<System>, steps': seq<Action>, end: System)
    requires Run(g, ss, steps) && Enabled(ss[|steps|], a)
    ensures Run(g, ss', steps') && end == Next(g, ss[|steps|], a)
    ensures steps' == steps + [a] && ss' == ss + [end]
  {
    end := Next(g, ss[|steps|], a);
    ss', steps' := ss + [end], steps + [a];
    forall i | 0 <= i < |steps'| ensures Enabled(ss'[i], steps'[i]) && ss'[i + 1] == Next(g, ss'[i], steps'[i]) {
      if i < |steps| { assert ss'[i + 1] == ss[i + 1]; }
    }
  }

  /** One process announced `oldest`, and another was started at `mine`. */
  lemma StartsLater(g: Graph, oldest: Commit, mine: Commit) returns (ss: seq<System>, steps: seq<Action>)
    ensures Run(g, ss, steps)
    ensures var s := ss[|steps|];
      && s.announced == Some(oldest) && |s.procs| == 2 && s.procs[0].pc == Idle
      && s.procs[1] == Process(mine, None, g.History(mine), false, Idle)
  {
    ss, steps := [System(oldest, None, [])], [];
    assert Run(g, ss, steps);
    var s;
    ss, steps, s := Extend(g, ss, steps, Start);
    ss, steps, s := Extend(g, ss, steps, Announce(0));
    ss, steps, s := Extend(g, ss, steps, AnnounceSet(0));
    ss, steps, s := Extend(g, ss, steps, Push(mine));
    ss, steps, s := Extend(g, ss, steps, Start);
  }

  lemma AnnouncesNewer(g: Graph, ss: seq<System>, steps: seq<Action>, newest: Commit)
    returns (ss': seq<System>, steps': seq<Action>)
    requires Run(g, ss, steps) && |ss[|steps|].procs| == 2 && ss[|steps|].procs[0].pc == Idle
    ensures Run(g, ss', steps') && steps' == steps + [Push(newest), Update(0), Announce(0), AnnounceSet(0)]
    ensures var s, s' := ss[|steps|], ss'[|steps'|];
      s'.announced == Some(newest) && |s'.procs| == 2 && s'.procs[1] == s.procs[1]
  {
    var s;
    ss', steps', s := Extend(g, ss, steps, Push(newest));
    ss', steps', s := Extend(g, ss', steps', Update(0));
    ss', steps', s := Extend(g, ss', steps', Announce(0));
    ss', steps', s := Extend(g, ss', steps', AnnounceSet(0));
  }

  /** A process that was started at `mine` finds an ancestor of it announced; before it gets to
      announce `mine`, the other one refreshes and announces `newest`, which `mine` then replaces. */
  lemma StaleJoinOverwrites(g: Graph, oldest: Commit, mine: Commit, newest: Commit)
    returns (ss: seq<System>, steps: seq<Action>)
    requires g.Acyclic() && oldest in g.Anc(mine) && mine in g.Anc(newest)
    ensures Run(g, ss, steps) && |steps| > 5
    ensures var r, j := |steps| - 6, |steps| - 1;
      && steps[r] == Join(1) && steps[j] == AnnounceSet(1) && OthersOnly(steps, 1, r, j)
      && ss[j].announced == Some(newest) && ss[j + 1].announced == Some(mine) && GoesBack(g, ss[j], ss[j + 1])
  {
    var ss0, steps0 := StartsLater(g, oldest, mine);
    var s6;
    var ss1, steps1, joined := Extend(g, ss0, steps0, Join(1));
    assert joined.procs[1].pc == Announcing && joined.procs[1].commit == mine;
    var ss2, steps2 := AnnouncesNewer(g, ss1, steps1, newest);
    ss, steps, s6 := Extend(g, ss2, steps2, AnnounceSet(1));
    assert steps == steps0 + [Join(1)] + [Push(newest), Update(0), Announce(0), AnnounceSet(0)] + [AnnounceSet(1)];
  }
}
