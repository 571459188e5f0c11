/** The file names a generation gives its slots (lobby/src/generation.rs:45-72,
    lobby/src/db/yaml.rs:420-428). */
module SlotNames {
  import opened Prelude

  datatype Yaml = Yaml(playerName: string, id: int)

  datatype Slot = Slot(fileName: string, id: int)

  // Names -----------------------------------------------------------------------------------------

  const UNSAFE := {'/', '\\', '<', '>', ':', '?', '*', '|', '"'}

  function Replaced(name: string): (r: string)
    ensures |r| == |name|
  {
    seq(|name|, i requires 0 <= i < |name| => if name[i] in UNSAFE then '_' else name[i])
  }

  function Sanitized(name: string): (r: string) {
    var r := Replaced(name);
    if r != "" && r[0] == '.' then "_" + r[1..] else r
  }

  function Decimal(n: nat): (r: string)
    ensures r != "" && forall i :: 0 <= i < |r| ==> '0' <= r[i] <= '9'
  {
    var digit := [('0' as int + n % 10) as char];
    if n < 10 then digit else Decimal(n / 10) + digit
  }

  function PlainName(name: string): string { name + ".yaml" }

  function SuffixedName(name: string, k: nat): string { name + "_" + Decimal(k) + ".yaml" }

  /** A file name that stays in its directory and shows up in it. */
  predicate SafeFileName(f: string) {
    f != "" && (forall i :: 0 <= i < |f| ==> f[i] !in UNSAFE) && (f[0] == '.' ==> f == ".yaml")
  }

  /** What a suffix is to lower-casing: it is kept as it is, and it does not change what comes
      before its underscore. */
  ghost predicate KeepsSuffixes(lower: string -> string) {
    forall name: string, k: nat :: lower(SuffixedName(name, k)) == lower(name + "_") + Decimal(k) + ".yaml"
  }

  lemma {:induction false} DecimalInjective(m: nat, n: nat)
    requires Decimal(m) == Decimal(n)
    ensures m == n
  {
    var a, b := Decimal(m), Decimal(n);
    assert a[|a| - 1] == ('0' as int + m % 10) as char && b[|b| - 1] == ('0' as int + n % 10) as char;
    if m >= 10 && n >= 10 {
      assert a[..|a| - 1] == Decimal(m / 10) && b[..|b| - 1] == Decimal(n / 10);
      DecimalInjective(m / 10, n / 10);
    }
  }

  lemma SuffixesApart(lower: string -> string, name: string, j: nat, k: nat)
    requires KeepsSuffixes(lower) && lower(SuffixedName(name, j)) == lower(SuffixedName(name, k))
    ensures j == k
  {
    var head := lower(name + "_");
    var a, b := Decimal(j), Decimal(k);
    assert |head + a + ".yaml"| == |head + b + ".yaml"|;
    assert a == (head + a + ".yaml")[|head|..|head| + |a|] && b == (head + b + ".yaml")[|head|..|head| + |a|];
    DecimalInjective(j, k);
  }

  predicate Harmless(name: string) {
    (forall i :: 0 <= i < |name| ==> name[i] !in UNSAFE) && (name != "" ==> name[0] != '.')
  }

  /** Only what is unsafe about a name is changed: it keeps its length and every other character, so
      exactly the harmless names are kept as they are, and doing it again changes nothing. */
  lemma OnlyUnsafeChanges(name: string)
    ensures |Sanitized(name)| == |name|
    ensures forall i :: 0 <= i < |name| ==>
              Sanitized(name)[i] == if name[i] in UNSAFE || (i == 0 && name[i] == '.') then '_' else name[i]
    ensures Sanitized(name) == name <==> Harmless(name)
    ensures Sanitized(Sanitized(name)) == Sanitized(name)
  {
    KeptIfHarmless(name);
    KeptIfHarmless(Sanitized(name));
  }

  lemma KeptIfHarmless(name: string)
    ensures Harmless(name) ==> Sanitized(name) == name
    ensures Harmless(Sanitized(name))
  {
    if Harmless(name) {
      assert Replaced(name) == name;
    }
  }

  lemma NamesAreSafe(name: string, k: nat)
    ensures SafeFileName(PlainName(Sanitized(name))) && SafeFileName(SuffixedName(Sanitized(name), k))
  {
    var r := Sanitized(name);
    assert forall i :: 0 <= i < |r| ==> r[i] !in UNSAFE;
    assert r != "" ==> r[0] != '.';
    var digits := Decimal(k);
    assert forall i :: 0 <= i < |digits| ==> digits[i] !in UNSAFE;
  }

  /** At most as many suffixes as names can be taken. */
  lemma {:induction false} TakenSuffixes(lower: string -> string, name: string, taken: set<string>, k: nat)
    returns (tried: set<string>)
    requires KeepsSuffixes(lower) && forall j: nat :: j < k ==> lower(SuffixedName(name, j)) in taken
    ensures tried <= taken && |tried| == k
    ensures forall s :: s in tried ==> exists j: nat :: j < k && lower(SuffixedName(name, j)) == s
  {
    tried := {};
    if k > 0 {
      var before := TakenSuffixes(lower, name, taken, k - 1);
      var last := lower(SuffixedName(name, k - 1));
      if last in before {
        var j: nat :| j < k - 1 && lower(SuffixedName(name, j)) == last;
        SuffixesApart(lower, name, j, k - 1);
      }
      tried := before + {last};
    }
  }

  // Order -----------------------------------------------------------------------------------------

  predicate LexLe(a: string, b: string) {
    a == "" || (b != "" && (a[0] < b[0] || (a[0] == b[0] && LexLe(a[1..], b[1..]))))
  }

  lemma {:induction false} LexTotal(a: string, b: string)
    ensures LexLe(a, b) || LexLe(b, a)
    ensures LexLe(a, b) && LexLe(b, a) ==> a == b
  {
    if a != "" && b != "" {
      LexTotal(a[1..], b[1..]);
      assert a == [a[0]] + a[1..] && b == [b[0]] + b[1..];
    }
  }

  lemma {:induction false} LexTrans(a: string, b: string, c: string)
    requires LexLe(a, b) && LexLe(b, c)
    ensures LexLe(a, c)
  {
    if a != "" && a[0] == b[0] == c[0] { LexTrans(a[1..], b[1..], c[1..]); }
  }

  ghost predicate SortedBy(slots: seq<Slot>, lower: string -> string) {
    forall i, j :: 0 <= i < j < |slots| ==> LexLe(lower(slots[i].fileName), lower(slots[j].fileName))
  }

  function InsertSlot(s: Slot, slots: seq<Slot>, lower: string -> string): seq<Slot> {
    if slots == [] then [s]
    else if LexLe(lower(s.fileName), lower(slots[0].fileName)) then [s] + slots
    else [slots[0]] + InsertSlot(s, slots[1..], lower)
  }

  /** The library's stable sort. */
  function SortSlots(slots: seq<Slot>, lower: string -> string): seq<Slot> {
    if slots == [] then [] else InsertSlot(slots[0], SortSlots(slots[1..], lower), lower)
  }

  lemma {:induction false} InsertAdds(s: Slot, slots: seq<Slot>, lower: string -> string)
    ensures multiset(InsertSlot(s, slots, lower)) == multiset(slots) + multiset{s}
  {
    if slots != [] {
      assert slots == [slots[0]] + slots[1..];
      if !LexLe(lower(s.fileName), lower(slots[0].fileName)) { InsertAdds(s, slots[1..], lower); }
    }
  }

  lemma InsertMembers(s: Slot, slots: seq<Slot>, lower: string -> string)
    ensures forall x :: x in InsertSlot(s, slots, lower) ==> x == s || x in slots
  {
    InsertAdds(s, slots, lower);
    forall x | x in InsertSlot(s, slots, lower) ensures x == s || x in slots {
      assert x in multiset(InsertSlot(s, slots, lower));
    }
  }

  lemma {:induction false} InsertSorts(s: Slot, slots: seq<Slot>, lower: string -> string)
    requires SortedBy(slots, lower)
    ensures SortedBy(InsertSlot(s, slots, lower), lower)
  {
    if slots != [] && !LexLe(lower(s.fileName), lower(slots[0].fileName)) {
      var rest := InsertSlot(s, slots[1..], lower);
      InsertSorts(s, slots[1..], lower);
      InsertMembers(s, slots[1..], lower);
      LexTotal(lower(s.fileName), lower(slots[0].fileName));
      SortedCons(slots[0], rest, lower);
    } else if slots != [] {
      forall x | x in slots ensures LexLe(lower(s.fileName), lower(x.fileName)) {
        if x != slots[0] { LexTrans(lower(s.fileName), lower(slots[0].fileName), lower(x.fileName)); }
      }
      SortedCons(s, slots, lower);
    }
  }

  lemma SortedCons(s: Slot, slots: seq<Slot>, lower: string -> string)
    requires SortedBy(slots, lower) && forall x :: x in slots ==> LexLe(lower(s.fileName), lower(x.fileName))
    ensures SortedBy([s] + slots, lower)
  {
    var all := [s] + slots;
    forall i, j | 0 <= i < j < |all| ensures LexLe(lower(all[i].fileName), lower(all[j].fileName)) {
      assert all[j] == slots[j - 1];
      if i > 0 { assert all[i] == slots[i - 1]; }
    }
  }

  lemma {:induction false} SortSlotsSorts(slots: seq<Slot>, lower: string -> string)
    ensures SortedBy(SortSlots(slots, lower), lower)
    ensures multiset(SortSlots(slots, lower)) == multiset(slots)
  {
    if slots != [] {
      SortSlotsSorts(slots[1..], lower);
      InsertSorts(slots[0], SortSlots(slots[1..], lower), lower);
      InsertAdds(slots[0], SortSlots(slots[1..], lower), lower);
      assert slots == [slots[0]] + slots[1..];
    }
  }

  // Slots -----------------------------------------------------------------------------------------

  /** The name for a player when `taken` are the lower-case names in use: the plain one when it is
      free, and otherwise the one with the first free suffix. */
  ghost predicate IsNameFor(taken: set<string>, name: string, fileName: string, lower: string -> string) {
    lower(fileName) !in taken &&
    if lower(PlainName(name)) !in taken then fileName == PlainName(name)
    else exists k: nat :: k <= |taken| && IsFirstFree(taken, name, k, lower) && fileName == SuffixedName(name, k)
  }

  ghost predicate IsFirstFree(taken: set<string>, name: string, k: nat, lower: string -> string) {
    lower(SuffixedName(name, k)) !in taken && forall j: nat :: j < k ==> lower(SuffixedName(name, j)) in taken
  }

  function Taken(slots: seq<Slot>, k: nat, lower: string -> string): set<string>
    requires k <= |slots|
  {
    if k == 0 then {} else Taken(slots, k - 1, lower) + {lower(slots[k - 1].fileName)}
  }

  ghost predicate IsNaming(yamls: seq<Yaml>, named: seq<Slot>, lower: string -> string) {
    |named| <= |yamls| && forall i: nat :: i < |named| ==> IsNamed(yamls, named, i, lower)
  }

  ghost predicate IsNamed(yamls: seq<Yaml>, named: seq<Slot>, i: nat, lower: string -> string)
    requires i < |named| <= |yamls|
  {
    && named[i].id == yamls[i].id
    && IsNameFor(Taken(named, i, lower), Sanitized(yamls[i].playerName), named[i].fileName, lower)
  }

  /** The search for a free suffix ends by pigeonhole. */
  method NextName(name: string, emitted: set<string>, lower: string -> string) returns (fileName: string)
    requires KeepsSuffixes(lower)
    ensures IsNameFor(emitted, name, fileName, lower)
  {
    fileName := PlainName(name);
    var suffix: nat := 0;
    if lower(fileName) in emitted {
      while lower(SuffixedName(name, suffix)) in emitted
        invariant forall j: nat :: j < suffix ==> lower(SuffixedName(name, j)) in emitted
        invariant suffix <= |emitted|
        decreases |emitted| - suffix
      {
        suffix := suffix + 1;
        var tried := TakenSuffixes(lower, name, emitted, suffix);
        SubsetCardinality(tried, emitted);
      }
      fileName := SuffixedName(name, suffix);
      assert IsFirstFree(emitted, name, suffix, lower);
    }
  }

  method GetSlots(yamls: seq<Yaml>, lower: string -> string) returns (slots: seq<Slot>, ghost named: seq<Slot>)
    requires KeepsSuffixes(lower)
    ensures |named| == |yamls| && IsNaming(yamls, named, lower)
    ensures multiset(slots) == multiset(named) && SortedBy(slots, lower)
    ensures forall i, j :: 0 <= i < j < |slots| ==> lower(slots[i].fileName) != lower(slots[j].fileName)
    ensures forall s :: s in slots ==> SafeFileName(s.fileName)
  {
    slots := [];
    var emitted: set<string> := {};
    for i := 0 to |yamls|
      invariant |slots| == i && IsNaming(yamls, slots, lower) && emitted == Taken(slots, i, lower)
    {
      var fileName := NextName(Sanitized(yamls[i].playerName), emitted, lower);
      var s := Slot(fileName, yamls[i].id);
      TakenStays(slots, s, i, lower);
      NamingGrows(yamls, slots, s, lower);
      emitted := emitted + {lower(fileName)};
      slots := slots + [s];
    }
    named := slots;
    NamesDiffer(yamls, named, lower);
    slots := SortSlots(slots, lower);
    SortSlotsSorts(named, lower);
    DistinctPermutation(named, slots, lower);
    forall s | s in slots ensures SafeFileName(s.fileName) {
      assert s in multiset(named);
      NamesSafe(yamls, named, lower, s);
    }
  }

  lemma {:induction false} TakenStays(slots: seq<Slot>, s: Slot, k: nat, lower: string -> string)
    requires k <= |slots|
    ensures Taken(slots + [s], k, lower) == Taken(slots, k, lower)
    decreases k
  {
    if k > 0 { TakenStays(slots, s, k - 1, lower); }
  }

  lemma NamingGrows(yamls: seq<Yaml>, slots: seq<Slot>, s: Slot, lower: string -> string)
    requires |slots| < |yamls| && IsNaming(yamls, slots, lower)
    requires IsNamed(yamls, slots + [s], |slots|, lower)
    ensures IsNaming(yamls, slots + [s], lower)
  {
    var more := slots + [s];
    forall i: nat | i < |slots| ensures IsNamed(yamls, more, i, lower) {
      assert IsNamed(yamls, slots, i, lower);
      TakenStays(slots, s, i, lower);
      assert more[i] == slots[i];
    }
  }

  lemma {:induction false} EarlierIsTaken(named: seq<Slot>, i: nat, k: nat, lower: string -> string)
    requires i < k <= |named|
    ensures lower(named[i].fileName) in Taken(named, k, lower)
    decreases k
  {
    if i < k - 1 { EarlierIsTaken(named, i, k - 1, lower); }
  }

  lemma NamesDiffer(yamls: seq<Yaml>, named: seq<Slot>, lower: string -> string)
    requires IsNaming(yamls, named, lower)
    ensures forall i, j :: 0 <= i < j < |named| ==> lower(named[i].fileName) != lower(named[j].fileName)
  {
    forall i, j | 0 <= i < j < |named| ensures lower(named[i].fileName) != lower(named[j].fileName) {
      EarlierIsTaken(named, i, j, lower);
      assert IsNamed(yamls, named, j, lower);
    }
  }

  lemma NamesSafe(yamls: seq<Yaml>, named: seq<Slot>, lower: string -> string, s: Slot)
    requires IsNaming(yamls, named, lower) && s in named
    ensures SafeFileName(s.fileName)
  {
    var i: nat :| i < |named| && named[i] == s;
    var taken, name := Taken(named, i, lower), Sanitized(yamls[i].playerName);
    assert IsNamed(yamls, named, i, lower);
    if lower(PlainName(name)) !in taken {
      NamesAreSafe(yamls[i].playerName, 0);
    } else {
      var k: nat :| k <= |taken| && IsFirstFree(taken, name, k, lower) && s.fileName == SuffixedName(name, k);
      NamesAreSafe(yamls[i].playerName, k);
    }
  }

  lemma {:induction false} OnceAtMost(slots: seq<Slot>, x: Slot)
    requires NoDup(slots)
    ensures multiset(slots)[x] <= 1
  {
    if slots != [] {
      var rest := slots[1..];
      assert slots == [slots[0]] + rest;
      OnceAtMost(rest, x);
      if x == slots[0] { assert x !in rest; }
    }
  }

  lemma DistinctPermutation(named: seq<Slot>, slots: seq<Slot>, lower: string -> string)
    requires multiset(slots) == multiset(named)
    requires forall i, j :: 0 <= i < j < |named| ==> lower(named[i].fileName) != lower(named[j].fileName)
    ensures forall i, j :: 0 <= i < j < |slots| ==> lower(slots[i].fileName) != lower(slots[j].fileName)
  {
    forall i, j | 0 <= i < j < |slots| ensures lower(slots[i].fileName) != lower(slots[j].fileName) {
      var a, b := slots[i], slots[j];
      assert a in multiset(named) && b in multiset(named);
      var k :| 0 <= k < |named| && named[k] == a;
      var l :| 0 <= l < |named| && named[l] == b;
      if k == l {
        assert slots == slots[..j] + [b] + slots[j + 1..] && slots[..j][i] == a;
        assert multiset(slots)[a] >= 2;
        OnceAtMost(named, a);
      }
    }
  }

  /** Lower-casing one character at a time is an instance, whatever it does to other characters. */
  function LowerEach(s: string, lowerChar: char -> string): string {
    if s == "" then "" else lowerChar(s[0]) + LowerEach(s[1..], lowerChar)
  }

  lemma {:induction false} LowerEachSplits(s: string, t: string, lowerChar: char -> string)
    ensures LowerEach(s + t, lowerChar) == LowerEach(s, lowerChar) + LowerEach(t, lowerChar)
  {
    if s == "" {
      assert s + t == t;
    } else {
      assert (s + t)[1..] == s[1..] + t;
      LowerEachSplits(s[1..], t, lowerChar);
    }
  }

  lemma {:induction false} LowerEachFixes(s: string, lowerChar: char -> string)
    requires forall i :: 0 <= i < |s| ==> lowerChar(s[i]) == [s[i]]
    ensures LowerEach(s, lowerChar) == s
  {
    if s != "" { LowerEachFixes(s[1..], lowerChar); }
  }

  lemma LowerEachKeepsSuffixes(lowerChar: char -> string)
    requires forall c :: '0' <= c <= '9' || c in ".yaml" ==> lowerChar(c) == [c]
    ensures KeepsSuffixes(s => LowerEach(s, lowerChar))
  {
    forall name: string, k: nat
      ensures LowerEach(SuffixedName(name, k), lowerChar) == LowerEach(name + "_", lowerChar) + Decimal(k) + ".yaml"
    {
      var tail := Decimal(k) + ".yaml";
      assert SuffixedName(name, k) == name + "_" + tail;
      LowerEachSplits(name + "_", tail, lowerChar);
      LowerEachFixes(tail, lowerChar);
    }
  }
}
