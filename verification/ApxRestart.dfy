/** Admin overrides of a room and how they survive a restart (apx/api.go, apx/db.go). For the two
    features that a room flag switches off, what is stored is the difference from the default. */
module ApxRestart {
  import opened Prelude
  import opened ApxBounce

  const DEATHLINK := "DeathLink"

  datatype Flags = Flags(deathlinkDisabled: bool, reducedAccess: bool)

  /** The rows kept for one room. */
  datatype Rows = Rows(
    flags: Flags,
    probability: real,
    fullFeed: set<int>,
    slotLimits: set<int>,
    tagExclusions: set<(int, string)>,
    altNames: set<(string, string)>,
    deaths: map<int, nat>)

  /** The room as it runs. */
  datatype Memory = Memory(
    fullFeed: set<int>,
    slotLimits: set<int>,
    tagExclusions: set<(int, string)>,
    altNames: map<string, string>,
    deaths: map<int, nat>,
    probability: real)

  ghost predicate OnePerName(altNames: set<(string, string)>) {
    forall a, b :: a in altNames && b in altNames && a.0 == b.0 ==> a == b
  }

  ghost predicate Maps(m: map<string, string>, a: string, s: string) { a in m && m[a] == s }

  ghost function NamesOf(altNames: set<(string, string)>): (m: map<string, string>)
    requires OnePerName(altNames)
    ensures forall a, s :: Maps(m, a, s) <==> (a, s) in altNames
  {
    var names := set r | r in altNames :: r.0;
    var m := map a | a in names :: var r :| r in altNames && r.0 == a; r.1;
    assert forall r :: r in altNames ==> r.0 in names;
    assert forall a :: a in names ==> (a, m[a]) in altNames;
    assert forall a, s :: (a, s) in altNames ==> (a, s).0 in names;
    m
  }

  lemma SameMap(m: map<string, string>, n: map<string, string>)
    requires forall a, s :: Maps(m, a, s) <==> Maps(n, a, s)
    ensures m == n
  {
    assert forall a :: a in m ==> Maps(m, a, m[a]);
    assert forall a :: a in n ==> Maps(n, a, n[a]);
  }

  // Starting ----------------------------------------------------------------------------------

  /** A room as `startNewHostedRoom` makes it. */
  function FreshMemory(slots: set<int>, flags: Flags, probability: real): Memory {
    Memory(if flags.reducedAccess then {} else slots, {},
           if flags.deathlinkDisabled then set s | s in slots :: (s, DEATHLINK) else {},
           map[], map[], probability)
  }

  /** A row for a tag that is excluded by default says that it is not. */
  function LayTags(tags: set<(int, string)>, rows: set<(int, string)>, flags: Flags): set<(int, string)> {
    var flipped := set r | r in rows && r.1 == DEATHLINK && flags.deathlinkDisabled;
    tags - flipped + (rows - flipped)
  }

  /** The stored rows laid over it. */
  ghost function Restore(m: Memory, rows: Rows): Memory
    requires OnePerName(rows.altNames)
  {
    Memory(if rows.flags.reducedAccess then m.fullFeed + rows.fullFeed else m.fullFeed - rows.fullFeed,
           m.slotLimits + rows.slotLimits,
           LayTags(m.tagExclusions, rows.tagExclusions, rows.flags),
           m.altNames + NamesOf(rows.altNames),
           m.deaths + rows.deaths,
           m.probability)
  }

  ghost function Rebuild(slots: set<int>, rows: Rows): Memory
    requires OnePerName(rows.altNames)
  {
    Restore(FreshMemory(slots, rows.flags, rows.probability), rows)
  }

  /** A start that asks for other flags first drops the rows that say how to differ from the old
      default. */
  function Reflag(rows: Rows, flags: Flags): Rows {
    rows.(tagExclusions := if flags.deathlinkDisabled != rows.flags.deathlinkDisabled
                           then set r | r in rows.tagExclusions && r.1 != DEATHLINK else rows.tagExclusions,
          fullFeed := if flags.reducedAccess != rows.flags.reducedAccess then {} else rows.fullFeed,
          flags := flags)
  }

  // Admin operations --------------------------------------------------------------------------

  datatype Op =
    | FullFeed(slot: int, on: bool)
    | ExcludeTag(slot: int, tag: string, on: bool)
    | LimitSlot(slot: int, on: bool)
    | Probability(p: real)
    | AddAltName(alt: string, slotName: string)
    | RemoveAltName(alt: string)
    | Death(slot: int)

  function Toggle<T>(s: set<T>, x: T, on: bool): set<T> { if on then s + {x} else s - {x} }

  predicate Accepts(names: set<string>, m: Memory, op: Op) {
    && (op.Probability? ==> 0.0 <= op.p <= 1.0)
    && (op.AddAltName? ==> op.slotName in names && op.alt !in names && op.alt !in m.altNames)
  }

  function ApplyInMemory(m: Memory, op: Op): Memory {
    match op
    case FullFeed(slot, on) => m.(fullFeed := Toggle(m.fullFeed, slot, on))
    case ExcludeTag(slot, tag, on) => m.(tagExclusions := Toggle(m.tagExclusions, (slot, tag), on))
    case LimitSlot(slot, on) => m.(slotLimits := Toggle(m.slotLimits, slot, on))
    case Probability(p) => m.(probability := p)
    case AddAltName(alt, slotName) => m.(altNames := m.altNames[alt := slotName])
    case RemoveAltName(alt) => m.(altNames := m.altNames - {alt})
    case Death(slot) => m.(deaths := m.deaths[slot := Count(m.deaths, slot) + 1])
  }

  /** What an operation asks for, and nothing else: the setting of its slot, tag or name is as asked, and
      that of every other one is as it was. */
  ghost predicate AsAsked(op: Op, was: Memory, now: Memory) {
    match op
    case FullFeed(slot, on) =>
      && now == was.(fullFeed := now.fullFeed)
      && (forall s :: s in now.fullFeed <==> if s == slot then on else s in was.fullFeed)
    case ExcludeTag(slot, tag, on) =>
      && now == was.(tagExclusions := now.tagExclusions)
      && (forall e :: e in now.tagExclusions <==> if e == (slot, tag) then on else e in was.tagExclusions)
    case LimitSlot(slot, on) =>
      && now == was.(slotLimits := now.slotLimits)
      && (forall s :: s in now.slotLimits <==> if s == slot then on else s in was.slotLimits)
    case Probability(p) => now.probability == p && was == now.(probability := was.probability)
    case AddAltName(alt, slotName) =>
      && now == was.(altNames := now.altNames)
      && (forall a, s :: Maps(now.altNames, a, s) <==> if a == alt then s == slotName else Maps(was.altNames, a, s))
    case RemoveAltName(alt) =>
      && now == was.(altNames := now.altNames)
      && (forall a, s :: Maps(now.altNames, a, s) <==> a != alt && Maps(was.altNames, a, s))
    case Death(slot) =>
      && now == was.(deaths := now.deaths) && now.deaths.Keys == was.deaths.Keys + {slot}
      && (forall s :: Count(now.deaths, s) == Count(was.deaths, s) + if s == slot then 1 else 0)
  }

  lemma AppliesAsAsked(m: Memory, op: Op, m': Memory)
    ensures AsAsked(op, m, m') <==> m' == ApplyInMemory(m, op)
  {
    var now := ApplyInMemory(m, op);
    assert AsAsked(op, m, now);
    if AsAsked(op, m, m') {
      if op.AddAltName? || op.RemoveAltName? {
        SameMap(m'.altNames, now.altNames);
      }
      if op.Death? {
        assert now.deaths.Keys == m'.deaths.Keys;
        forall s | s in m'.deaths ensures m'.deaths[s] == now.deaths[s] {
          assert Count(m'.deaths, s) == Count(now.deaths, s);
        }
      }
      assert forall s :: s in m'.fullFeed <==> s in now.fullFeed;
      assert forall s :: s in m'.slotLimits <==> s in now.slotLimits;
      assert m'.deaths == now.deaths && m'.fullFeed == now.fullFeed && m'.slotLimits == now.slotLimits;
      assert m'.tagExclusions == now.tagExclusions && m'.altNames == now.altNames;
    }
  }

  /** What is written for an operation: the opposite of it when the flag makes it the default. */
  function InRows(rows: Rows, op: Op): Rows {
    match op
    case FullFeed(slot, on) =>
      rows.(fullFeed := Toggle(rows.fullFeed, slot, on == rows.flags.reducedAccess))
    case ExcludeTag(slot, tag, on) =>
      var isDefault := tag == DEATHLINK && rows.flags.deathlinkDisabled;
      rows.(tagExclusions := Toggle(rows.tagExclusions, (slot, tag), on != isDefault))
    case LimitSlot(slot, on) => rows.(slotLimits := Toggle(rows.slotLimits, slot, on))
    case Probability(p) => rows.(probability := p)
    case AddAltName(alt, slotName) => rows.(altNames := rows.altNames + {(alt, slotName)})
    case RemoveAltName(alt) => rows.(altNames := set r | r in rows.altNames && r.0 != alt)
    case Death(slot) => rows.(deaths := rows.deaths[slot := Count(rows.deaths, slot) + 1])
  }

  /** The operations that a restart keeps. The only ones it does not are those that turn on, for
      a slot that the room does not have, what is on by default. */
  predicate Survives(slots: set<int>, flags: Flags, op: Op) {
    && (op.FullFeed? && op.on && !flags.reducedAccess ==> op.slot in slots)
    && (op.ExcludeTag? && op.on && op.tag == DEATHLINK && flags.deathlinkDisabled ==> op.slot in slots)
  }

  lemma AltNamesKeep(rows: Rows, m: Memory, names: set<string>, op: Op)
    requires OnePerName(rows.altNames) && m.altNames == NamesOf(rows.altNames) && Accepts(names, m, op)
    ensures OnePerName(InRows(rows, op).altNames)
    ensures ApplyInMemory(m, op).altNames == NamesOf(InRows(rows, op).altNames)
  {
    if op.AddAltName? {
      forall s ensures (op.alt, s) !in rows.altNames { assert !Maps(m.altNames, op.alt, s); }
    }
    assert OnePerName(InRows(rows, op).altNames);
    var now, then' := NamesOf(rows.altNames), NamesOf(InRows(rows, op).altNames);
    var m' := ApplyInMemory(m, op).altNames;
    forall a, s ensures Maps(m', a, s) <==> Maps(then', a, s) {
      assert Maps(now, a, s) <==> (a, s) in rows.altNames;
      assert Maps(then', a, s) <==> (a, s) in InRows(rows, op).altNames;
    }
    SameMap(m', then');
  }

  /** While a room runs, what it has in memory is what a restart would rebuild; an admin operation
      keeps it so exactly when `Survives` holds. */
  lemma AdminRefines(slots: set<int>, names: set<string>, rows: Rows, m: Memory, op: Op)
    requires OnePerName(rows.altNames) && m == Rebuild(slots, rows) && Accepts(names, m, op)
    ensures OnePerName(InRows(rows, op).altNames)
    ensures ApplyInMemory(m, op) == Rebuild(slots, InRows(rows, op)) <==> Survives(slots, rows.flags, op)
  {
    PlainFields(slots, rows);
    AltNamesKeep(rows, m, names, op);
    FullFeedRefines(slots, rows, m, op);
    TagsRefine(slots, rows, m, op);
    OthersRefine(slots, rows, m, op);
  }

  lemma OthersRefine(slots: set<int>, rows: Rows, m: Memory, op: Op)
    requires OnePerName(rows.altNames) && m == Rebuild(slots, rows) && OnePerName(InRows(rows, op).altNames)
    ensures var m', rebuilt := ApplyInMemory(m, op), Rebuild(slots, InRows(rows, op));
      && m'.slotLimits == rebuilt.slotLimits
      && m'.deaths == rebuilt.deaths && m'.probability == rebuilt.probability
      && rebuilt.altNames == NamesOf(InRows(rows, op).altNames)
  {
    PlainFields(slots, rows);
    PlainFields(slots, InRows(rows, op));
  }

  /** What no flag has a say in is just what the rows say. */
  lemma PlainFields(slots: set<int>, rows: Rows)
    requires OnePerName(rows.altNames)
    ensures var m := Rebuild(slots, rows);
      m.slotLimits == rows.slotLimits && m.deaths == rows.deaths && m.probability == rows.probability
      && m.altNames == NamesOf(rows.altNames)
  {
    var m := Rebuild(slots, rows);
    assert m.deaths == rows.deaths;
    assert m.altNames == NamesOf(rows.altNames);
  }

  lemma FullFeedRefines(slots: set<int>, rows: Rows, m: Memory, op: Op)
    requires OnePerName(rows.altNames) && m == Rebuild(slots, rows) && OnePerName(InRows(rows, op).altNames)
    ensures ApplyInMemory(m, op).fullFeed == Rebuild(slots, InRows(rows, op)).fullFeed
       <==> (op.FullFeed? && op.on && !rows.flags.reducedAccess ==> op.slot in slots)
  {
    var m', rebuilt := ApplyInMemory(m, op), Rebuild(slots, InRows(rows, op));
    if op.FullFeed? {
      forall s | s != op.slot ensures s in m'.fullFeed <==> s in rebuilt.fullFeed {
        assert s in m.fullFeed <==> s in m'.fullFeed;
      }
      assert op.slot in m'.fullFeed <==> op.on;
    }
  }

  lemma TagsRefine(slots: set<int>, rows: Rows, m: Memory, op: Op)
    requires OnePerName(rows.altNames) && m == Rebuild(slots, rows) && OnePerName(InRows(rows, op).altNames)
    ensures ApplyInMemory(m, op).tagExclusions == Rebuild(slots, InRows(rows, op)).tagExclusions
       <==> (op.ExcludeTag? && op.on && op.tag == DEATHLINK && rows.flags.deathlinkDisabled ==> op.slot in slots)
  {
    var m', rebuilt := ApplyInMemory(m, op), Rebuild(slots, InRows(rows, op));
    if op.ExcludeTag? {
      var x := (op.slot, op.tag);
      forall e | e != x ensures e in m'.tagExclusions <==> e in rebuilt.tagExclusions {
        assert e in m.tagExclusions <==> e in m'.tagExclusions;
      }
      assert x in m'.tagExclusions <==> op.on;
      assert x in InRows(rows, op).tagExclusions <==> op.on != (op.tag == DEATHLINK && rows.flags.deathlinkDisabled);
    } else {
      assert m'.tagExclusions == m.tagExclusions == rebuilt.tagExclusions;
    }
  }

  /** A slot's setting is its default, flipped if a row says so. */
  lemma MemoryIsDefaultXorRow(slots: set<int>, rows: Rows, s: int)
    requires OnePerName(rows.altNames) && s in slots
    ensures var m := Rebuild(slots, rows);
      && (s in m.fullFeed <==> !rows.flags.reducedAccess != (s in rows.fullFeed))
      && ((s, DEATHLINK) in m.tagExclusions <==> rows.flags.deathlinkDisabled != ((s, DEATHLINK) in rows.tagExclusions))
  {
  }

  /** Starting with other flags puts just the features they switch back to their new default. */
  lemma ReflaggingResetsOneFeature(slots: set<int>, rows: Rows, flags: Flags)
    requires OnePerName(rows.altNames)
    ensures var was, now, default := Rebuild(slots, rows), Rebuild(slots, Reflag(rows, flags)),
                                     FreshMemory(slots, flags, rows.probability);
      && now.fullFeed == (if flags.reducedAccess != rows.flags.reducedAccess then default.fullFeed else was.fullFeed)
      && now.tagExclusions == (if flags.deathlinkDisabled != rows.flags.deathlinkDisabled
           then default.tagExclusions + (set e | e in was.tagExclusions && e.1 != DEATHLINK) else was.tagExclusions)
      && now == was.(fullFeed := now.fullFeed, tagExclusions := now.tagExclusions)
  {
    var was, now := Rebuild(slots, rows), Rebuild(slots, Reflag(rows, flags));
    var default := FreshMemory(slots, flags, rows.probability);
    if flags.deathlinkDisabled != rows.flags.deathlinkDisabled {
      forall e ensures e in now.tagExclusions <==>
          e in default.tagExclusions || (e in was.tagExclusions && e.1 != DEATHLINK) {}
    } else {
      assert Reflag(rows, flags).tagExclusions == rows.tagExclusions;
    }
  }

  // Whole runs --------------------------------------------------------------------------------

  /** `StartRoom` stands for `handleRoomStart` and, with the flags as they are, for the restart of
      the whole server; `Stop` for `handleRoomStop`, the idle killer and a crash. */
  datatype Event = Admin(op: Op) | Stop | StartRoom(flags: Flags)

  datatype State = State(memory: Option<Memory>, rows: Rows)

  ghost predicate Step(slots: set<int>, names: set<string>, s: State, e: Event, s': State) {
    match e
    case Admin(op) =>
      s.memory.Some? && s' == if Accepts(names, s.memory.value, op)
                              then State(Some(ApplyInMemory(s.memory.value, op)), InRows(s.rows, op)) else s
    case Stop => s.memory.Some? && s' == s.(memory := None)
    case StartRoom(flags) =>
      s.memory.None? && OnePerName(s.rows.altNames)
      && s' == State(Some(Rebuild(slots, Reflag(s.rows, flags))), Reflag(s.rows, flags))
  }

  ghost predicate Inv(slots: set<int>, s: State) {
    OnePerName(s.rows.altNames) && (s.memory.Some? ==> s.memory.value == Rebuild(slots, s.rows))
  }

  ghost predicate Run(slots: set<int>, names: set<string>, ss: seq<State>, es: seq<Event>) {
    && |ss| == |es| + 1
    && ss[0].rows.fullFeed == {} && ss[0].rows.slotLimits == {} && ss[0].rows.tagExclusions == {}
    && ss[0].rows.altNames == {} && ss[0].rows.deaths == map[]
    && ss[0].memory == Some(FreshMemory(slots, ss[0].rows.flags, ss[0].rows.probability))
    && forall i :: 0 <= i < |es| ==> Step(slots, names, ss[i], es[i], ss[i + 1])
  }

  lemma {:induction false} RunKeeps(slots: set<int>, names: set<string>, ss: seq<State>, es: seq<Event>, i: nat)
    requires Run(slots, names, ss, es) && i < |ss|
    requires forall j :: 0 <= j < i && es[j].Admin? ==> Survives(slots, ss[j].rows.flags, es[j].op)
    ensures Inv(slots, ss[i])
  {
    if i == 0 {
      assert NamesOf({}) == map[];
    } else {
      RunKeeps(slots, names, ss, es, i - 1);
      assert Step(slots, names, ss[i - 1], es[i - 1], ss[i]);
      if es[i - 1].Admin? && Accepts(names, ss[i - 1].memory.value, es[i - 1].op) {
        AdminRefines(slots, names, ss[i - 1].rows, ss[i - 1].memory.value, es[i - 1].op);
      }
    }
  }

  /** After any run of admin operations, stops and starts, stopping the room and starting it with
      its flags unchanged brings back exactly the memory it had. */
  lemma RestartRestoresMemory(slots: set<int>, names: set<string>, ss: seq<State>, es: seq<Event>, i: nat)
    requires Run(slots, names, ss, es) && i + 2 <= |es|
    requires forall j :: 0 <= j < i && es[j].Admin? ==> Survives(slots, ss[j].rows.flags, es[j].op)
    requires es[i] == Stop && es[i + 1] == StartRoom(ss[i].rows.flags)
    ensures ss[i + 2] == ss[i]
  {
    RunKeeps(slots, names, ss, es, i);
    assert Step(slots, names, ss[i], es[i], ss[i + 1]) && Step(slots, names, ss[i + 1], es[i + 1], ss[i + 2]);
    assert Reflag(ss[i].rows, ss[i].rows.flags) == ss[i].rows;
  }

  ghost predicate Accepted(names: set<string>, s: State, e: Event) {
    e.Admin? && s.memory.Some? && Accepts(names, s.memory.value, e.op)
  }

  /** What an operation asked for is the case. */
  ghost predicate Holds(op: Op, m: Memory) {
    match op
    case FullFeed(slot, on) => slot in m.fullFeed <==> on
    case ExcludeTag(slot, tag, on) => (slot, tag) in m.tagExclusions <==> on
    case LimitSlot(slot, on) => slot in m.slotLimits <==> on
    case Probability(p) => m.probability == p
    case AddAltName(alt, slotName) => Maps(m.altNames, alt, slotName)
    case RemoveAltName(alt) => alt !in m.altNames
    case Death(slot) => true
  }

  predicate SameSubject(a: Op, b: Op) {
    match a
    case FullFeed(slot, _) => b.FullFeed? && b.slot == slot
    case ExcludeTag(slot, tag, _) => b.ExcludeTag? && b.slot == slot && b.tag == tag
    case LimitSlot(slot, _) => b.LimitSlot? && b.slot == slot
    case Probability(_) => b.Probability?
    case AddAltName(alt, _) => (b.AddAltName? || b.RemoveAltName?) && b.alt == alt
    case RemoveAltName(alt) => (b.AddAltName? || b.RemoveAltName?) && b.alt == alt
    case Death(slot) => false
  }

  /** Starting with other flags does not touch what the operation set. */
  predicate LeftBy(op: Op, was: Flags, flags: Flags) {
    && (op.FullFeed? ==> flags.reducedAccess == was.reducedAccess)
    && (op.ExcludeTag? && op.tag == DEATHLINK ==> flags.deathlinkDisabled == was.deathlinkDisabled)
  }

  lemma OthersLeaveIt(op: Op, other: Op, was: Memory, now: Memory)
    requires Holds(op, was) && AsAsked(other, was, now) && !SameSubject(op, other)
    ensures Holds(op, now)
  {
    if op.RemoveAltName? && op.alt in now.altNames {
      assert Maps(now.altNames, op.alt, now.altNames[op.alt]);
    }
  }

  lemma DoneAsAsked(op: Op, was: Memory, now: Memory)
    requires AsAsked(op, was, now)
    ensures Holds(op, now)
  {
    if op.RemoveAltName? && op.alt in now.altNames {
      assert Maps(now.altNames, op.alt, now.altNames[op.alt]);
    }
  }

  /** The last thing asked about a slot, tag or name is what holds, over any run of other operations,
      stops and starts that leave it alone. */
  lemma {:induction false} LastAskedHolds(slots: set<int>, names: set<string>, ss: seq<State>, es: seq<Event>, k: nat,
                                          i: nat)
    requires Run(slots, names, ss, es) && k < i < |ss|
    requires forall j :: 0 <= j < i && es[j].Admin? ==> Survives(slots, ss[j].rows.flags, es[j].op)
    requires Accepted(names, ss[k], es[k])
    requires forall j :: k < j < i && Accepted(names, ss[j], es[j]) ==> !SameSubject(es[k].op, es[j].op)
    requires forall j :: k < j < i && es[j].StartRoom? ==> LeftBy(es[k].op, ss[j].rows.flags, es[j].flags)
    ensures OnePerName(ss[i].rows.altNames) && Holds(es[k].op, Rebuild(slots, ss[i].rows))
    ensures ss[i].memory.Some? ==> Holds(es[k].op, ss[i].memory.value)
  {
    RunKeeps(slots, names, ss, es, i - 1);
    RunKeeps(slots, names, ss, es, i);
    assert Step(slots, names, ss[i - 1], es[i - 1], ss[i]);
    if i - 1 == k {
      AppliesAsAsked(ss[k].memory.value, es[k].op, ss[i].memory.value);
      DoneAsAsked(es[k].op, ss[k].memory.value, ss[i].memory.value);
    } else {
      LastAskedHolds(slots, names, ss, es, k, i - 1);
      StillHolds(slots, names, ss[i - 1], es[i - 1], ss[i], es[k].op);
    }
  }

  lemma StillHolds(slots: set<int>, names: set<string>, s: State, e: Event, s': State, op: Op)
    requires Step(slots, names, s, e, s') && Inv(slots, s) && Inv(slots, s') && Holds(op, Rebuild(slots, s.rows))
    requires Accepted(names, s, e) ==> !SameSubject(op, e.op)
    requires e.StartRoom? ==> LeftBy(op, s.rows.flags, e.flags)
    ensures Holds(op, Rebuild(slots, s'.rows))
  {
    if Accepted(names, s, e) {
      AppliesAsAsked(s.memory.value, e.op, s'.memory.value);
      OthersLeaveIt(op, e.op, s.memory.value, s'.memory.value);
    } else if e.StartRoom? {
      ReflagLeaves(slots, s.rows, e.flags, op);
    }
  }

  lemma ReflagLeaves(slots: set<int>, rows: Rows, flags: Flags, op: Op)
    requires OnePerName(rows.altNames) && Holds(op, Rebuild(slots, rows)) && LeftBy(op, rows.flags, flags)
    ensures Holds(op, Rebuild(slots, Reflag(rows, flags)))
  {
    ReflaggingResetsOneFeature(slots, rows, flags);
  }

  function Deaths(es: seq<Event>, slot: int): nat {
    if es == [] then 0
    else Deaths(es[..|es| - 1], slot) + if es[|es| - 1] == Admin(Death(slot)) then 1 else 0
  }

  /** Deaths are counted over the whole run, across stops and starts. */
  lemma {:induction false} DeathsAreCounted(slots: set<int>, names: set<string>, ss: seq<State>, es: seq<Event>, i: nat,
                                            slot: int)
    requires Run(slots, names, ss, es) && i < |ss|
    ensures Count(ss[i].rows.deaths, slot) == Deaths(es[..i], slot)
  {
    if i > 0 {
      DeathsAreCounted(slots, names, ss, es, i - 1, slot);
      StepCounts(slots, names, ss[i - 1], es[i - 1], ss[i], slot);
      assert es[..i][..i - 1] == es[..i - 1];
    }
  }

  lemma StepCounts(slots: set<int>, names: set<string>, s: State, e: Event, s': State, slot: int)
    requires Step(slots, names, s, e, s')
    ensures Count(s'.rows.deaths, slot) == Count(s.rows.deaths, slot) + if e == Admin(Death(slot)) then 1 else 0
  {
  }

  /** And the room in memory knows the count. */
  lemma DeathsAreKnown(slots: set<int>, names: set<string>, ss: seq<State>, es: seq<Event>, i: nat, slot: int)
    requires Run(slots, names, ss, es) && i < |ss| && ss[i].memory.Some?
    requires forall j :: 0 <= j < i && es[j].Admin? ==> Survives(slots, ss[j].rows.flags, es[j].op)
    ensures Count(ss[i].memory.value.deaths, slot) == Deaths(es[..i], slot)
  {
    RunKeeps(slots, names, ss, es, i);
    PlainFields(slots, ss[i].rows);
    DeathsAreCounted(slots, names, ss, es, i, slot);
  }

  lemma LayOneTag(tags: set<(int, string)>, rows: set<(int, string)>, todo: set<(int, string)>, row: (int, string),
                  flags: Flags)
    requires todo <= rows && row in todo
    ensures LayTags(tags, rows - (todo - {row}), flags) ==
              Toggle(LayTags(tags, rows - todo, flags), row, !(row.1 == DEATHLINK && flags.deathlinkDisabled))
  {
    assert rows - (todo - {row}) == rows - todo + {row};
  }

  lemma NamesWithOneMore(done: set<(string, string)>, row: (string, string))
    requires OnePerName(done + {row}) && row !in done
    ensures OnePerName(done) && NamesOf(done + {row}) == NamesOf(done)[row.0 := row.1]
  {
    var was, now := NamesOf(done), NamesOf(done + {row});
    forall a, s ensures Maps(now, a, s) <==> Maps(was[row.0 := row.1], a, s) {
      assert Maps(was, a, s) <==> (a, s) in done;
      assert Maps(now, a, s) <==> (a, s) in done + {row};
      assert row == (row.0, row.1);
    }
    SameMap(now, was[row.0 := row.1]);
  }

  method LoadAltConnectNames(altNames: set<(string, string)>) returns (names: map<string, string>)
    requires OnePerName(altNames)
    ensures names == NamesOf(altNames)
  {
    names := map[];
    var todo := altNames;
    ghost var done: set<(string, string)> := {};
    while todo != {}
      invariant todo <= altNames && done == altNames - todo && OnePerName(done)
      invariant names == NamesOf(done)
      decreases todo
    {
      var row :| row in todo;
      NamesWithOneMore(done, row);
      todo := todo - {row};
      done := done + {row};
      names := names[row.0 := row.1];
    }
    assert done == altNames;
  }

  // The handlers ------------------------------------------------------------------------------

  class HostedRoom {
    const slots: set<int>
    const names: set<string>
    var fullFeed: set<int>
    var bounceInfo: BounceInfoStore
    var altNames: map<string, string>
    var flags: Flags
    var rows: Rows

    ghost predicate Valid()
      reads this, bounceInfo
    {
      bounceInfo.Tidy() && flags == rows.flags
    }

    function InMemory(): Memory
      reads this, bounceInfo
    {
      Memory(fullFeed, bounceInfo.ownSlotOnly, bounceInfo.Exclusions(), altNames, bounceInfo.counts,
             bounceInfo.probability)
    }

    /** `handleRoomStart` on a stopped room: drops the rows that other flags make stale, makes the
        room anew and restores what is stored. */
    constructor (slots: set<int>, names: set<string>, stored: Rows, flags: Flags, now: int)
      requires OnePerName(stored.altNames)
      ensures Valid() && this.slots == slots && this.names == names
      ensures rows == Reflag(stored, flags) && InMemory() == Rebuild(slots, rows)
    {
      this.slots, this.names, this.flags := slots, names, flags;
      fullFeed, altNames, rows := {}, map[], Reflag(stored, flags);
      bounceInfo := new BounceInfoStore(now);
      new;
      MakeFresh(stored.probability);
      RestoreTagExclusions();
      RestoreFullFeed();
      bounceInfo.ownSlotOnly := bounceInfo.ownSlotOnly + rows.slotLimits;
      bounceInfo.counts := bounceInfo.counts + rows.deaths;
      RestoreAltNames();
    }

    method MakeFresh(probability: real)
      requires Valid() && InMemory() == Memory({}, {}, {}, map[], map[], 1.0)
      modifies this`fullFeed, bounceInfo
      ensures Valid() && InMemory() == FreshMemory(slots, flags, probability)
    {
      bounceInfo.SetProbability(probability);
      if flags.deathlinkDisabled {
        var todo := slots;
        while todo != {}
          invariant todo <= slots && bounceInfo.Tidy()
          invariant bounceInfo.Exclusions() == set s | s in slots - todo :: (s, DEATHLINK)
          invariant InMemory().(tagExclusions := {}) == Memory({}, {}, {}, map[], map[], probability)
          decreases todo
        {
          SomeMember(todo);
          var s :| s in todo;
          todo := todo - {s};
          bounceInfo.ExcludeByTag(s, DEATHLINK);
        }
      }
      if !flags.reducedAccess {
        fullFeed := fullFeed + slots;
      }
    }

    method RestoreTagExclusions()
      requires Valid()
      modifies bounceInfo
      ensures Valid()
      ensures InMemory() == old(InMemory()).(tagExclusions :=
                LayTags(old(InMemory()).tagExclusions, rows.tagExclusions, flags))
    {
      var todo := rows.tagExclusions;
      ghost var was := InMemory();
      while todo != {}
        invariant todo <= rows.tagExclusions && bounceInfo.Tidy()
        invariant InMemory() == was.(tagExclusions := LayTags(was.tagExclusions, rows.tagExclusions - todo, flags))
        decreases todo
      {
        var row: (int, string) :| row in todo;
        LayOneTag(was.tagExclusions, rows.tagExclusions, todo, row, flags);
        todo := todo - {row};
        if row.1 == DEATHLINK && flags.deathlinkDisabled {
          bounceInfo.UnexcludeByTag(row.0, row.1);
        } else {
          bounceInfo.ExcludeByTag(row.0, row.1);
        }
        assert row == (row.0, row.1);
      }
      assert rows.tagExclusions - todo == rows.tagExclusions;
    }

    method RestoreFullFeed()
      requires Valid()
      modifies this`fullFeed
      ensures Valid()
      ensures InMemory() == old(InMemory()).(fullFeed :=
                if flags.reducedAccess then old(fullFeed) + rows.fullFeed else old(fullFeed) - rows.fullFeed)
    {
      var todo := rows.fullFeed;
      while todo != {}
        invariant todo <= rows.fullFeed
        invariant fullFeed == if flags.reducedAccess then old(fullFeed) + (rows.fullFeed - todo)
                              else old(fullFeed) - (rows.fullFeed - todo)
        decreases todo
      {
        SomeMember(todo);
        var slotId :| slotId in todo;
        todo := todo - {slotId};
        if !flags.reducedAccess {
          fullFeed := fullFeed - {slotId};
        } else {
          fullFeed := fullFeed + {slotId};
        }
      }
      assert rows.fullFeed - todo == rows.fullFeed;
    }

    method RestoreAltNames()
      requires Valid() && OnePerName(rows.altNames)
      modifies this`altNames
      ensures Valid() && InMemory() == old(InMemory()).(altNames := old(altNames) + NamesOf(rows.altNames))
    {
      var names := LoadAltConnectNames(rows.altNames);
      altNames := altNames + names;
    }

    method HandleFullFeedUser(slotId: int, on: bool)
      requires Valid()
      modifies this
      ensures Valid() && this.rows == InRows(old(rows), Op.FullFeed(slotId, on))
      ensures bounceInfo == old(bounceInfo)
      ensures InMemory() == ApplyInMemory(old(InMemory()), Op.FullFeed(slotId, on))
      ensures forall s :: s in fullFeed <==> if s == slotId then on else s in old(fullFeed)
    {
      var isDefaultEnabled := !flags.reducedAccess;
      if on {
        fullFeed := fullFeed + {slotId};
        rows := rows.(fullFeed := if isDefaultEnabled then rows.fullFeed - {slotId} else rows.fullFeed + {slotId});
      } else {
        fullFeed := fullFeed - {slotId};
        rows := rows.(fullFeed := if isDefaultEnabled then rows.fullFeed + {slotId} else rows.fullFeed - {slotId});
      }
    }

    method HandleBounceExclusions(slotId: int, tag: string, on: bool)
      requires Valid()
      modifies this, bounceInfo
      ensures Valid() && this.rows == InRows(old(rows), ExcludeTag(slotId, tag, on))
      ensures bounceInfo == old(bounceInfo)
      ensures InMemory() == ApplyInMemory(old(InMemory()), ExcludeTag(slotId, tag, on))
      ensures forall s, t :: bounceInfo.Excluded(s, t) <==>
                if s == slotId && t == tag then on else old(bounceInfo.Excluded(s, t))
    {
      var isDefaultExcluded := tag == DEATHLINK && flags.deathlinkDisabled;
      if on {
        bounceInfo.ExcludeByTag(slotId, tag);
        rows := rows.(tagExclusions := if isDefaultExcluded then rows.tagExclusions - {(slotId, tag)}
                                       else rows.tagExclusions + {(slotId, tag)});
      } else {
        bounceInfo.UnexcludeByTag(slotId, tag);
        rows := rows.(tagExclusions := if isDefaultExcluded then rows.tagExclusions + {(slotId, tag)}
                                       else rows.tagExclusions - {(slotId, tag)});
      }
    }

    method HandleSlotBounceExclusions(slotId: int, on: bool)
      requires Valid()
      modifies this, bounceInfo
      ensures Valid() && this.rows == InRows(old(rows), LimitSlot(slotId, on))
      ensures bounceInfo == old(bounceInfo)
      ensures InMemory() == ApplyInMemory(old(InMemory()), LimitSlot(slotId, on))
      ensures forall s :: bounceInfo.Limited(s) <==> if s == slotId then on else old(bounceInfo.Limited(s))
    {
      if on {
        bounceInfo.LimitToOwnSlot(slotId);
        rows := rows.(slotLimits := rows.slotLimits + {slotId});
      } else {
        bounceInfo.RemoveLimitToOwnSlot(slotId);
        rows := rows.(slotLimits := rows.slotLimits - {slotId});
      }
    }

    method HandleDeathlinkProbability(p: real) returns (ok: bool)
      requires Valid()
      modifies this, bounceInfo
      ensures Valid() && bounceInfo == old(bounceInfo)
      ensures ok <==> Accepts(names, old(InMemory()), Op.Probability(p))
      ensures this.rows == if ok then InRows(old(rows), Op.Probability(p)) else old(rows)
      ensures InMemory() == if ok then ApplyInMemory(old(InMemory()), Op.Probability(p)) else old(InMemory())
      ensures bounceInfo.probability == if 0.0 <= p <= 1.0 then p else old(bounceInfo.probability)
    {
      if p < 0.0 || p > 1.0 {
        return false;
      }
      bounceInfo.SetProbability(p);
      rows := rows.(probability := p);
      return true;
    }

    method HandleAltConnectName(altName: string, slotName: Option<string>) returns (ok: bool)
      requires Valid()
      modifies this
      ensures Valid() && bounceInfo == old(bounceInfo)
      ensures var op := if slotName.Some? then AddAltName(altName, slotName.value) else RemoveAltName(altName);
        && (ok <==> Accepts(names, old(InMemory()), op))
        && this.rows == (if ok then InRows(old(rows), op) else old(rows))
        && InMemory() == if ok then ApplyInMemory(old(InMemory()), op) else old(InMemory())
      ensures ok ==> forall a, s :: Maps(altNames, a, s) <==>
                if a == altName then slotName == Some(s) else Maps(old(altNames), a, s)
    {
      if slotName.None? {
        altNames := altNames - {altName};
        rows := rows.(altNames := set r | r in rows.altNames && r.0 != altName);
        return true;
      }
      if slotName.value !in names || altName in names || altName in altNames {
        return false;
      }
      altNames := altNames[altName := slotName.value];
      rows := rows.(altNames := rows.altNames + {(altName, slotName.value)});
      return true;
    }

    /** A deathlink is counted in memory and in the rows. */
    method LogDeath(slotId: int)
      requires Valid()
      modifies this, bounceInfo
      ensures Valid() && this.rows == InRows(old(rows), Death(slotId))
      ensures bounceInfo == old(bounceInfo)
      ensures InMemory() == ApplyInMemory(old(InMemory()), Death(slotId))
      ensures forall s :: Count(bounceInfo.counts, s) == old(Count(bounceInfo.counts, s)) + if s == slotId then 1 else 0
    {
      bounceInfo.Add(slotId);
      rows := rows.(deaths := rows.deaths[slotId := Count(rows.deaths, slotId) + 1]);
    }
  }
}
