/** The cached sphere pages of a room and its list of slots that are not done with sphere 1
    (apx/api.go:190-225, 1284-1353, 1417-1454, 1586-1592, 1635-1682). */
module ApxSpheres {
  import opened Prelude

  datatype LocationEntry = LocationEntry(id: int, name: string, checked: bool)

  datatype SphereResult = SphereResult(locations: seq<LocationEntry>, total: nat, checked: nat)

  type Sphere = map<int, seq<int>>

  function CheckedOf(checked: map<int, set<int>>, slot: int): set<int> {
    if slot in checked then checked[slot] else {}
  }

  function NameOf(names: map<int, string>, id: int): string {
    if id in names then names[id] else ""
  }

  /** The page of a slot, from scratch. */
  function Page(spheres: seq<Sphere>, names: map<int, string>, slot: int, checked: set<int>): seq<SphereResult> {
    if spheres == [] then []
    else
      var last := spheres[|spheres| - 1];
      Page(spheres[..|spheres| - 1], names, slot, checked)
        + if slot in last then [ResultFor(last[slot], names, checked)] else []
  }

  function ResultFor(ids: seq<int>, names: map<int, string>, checked: set<int>): SphereResult {
    SphereResult(Entries(ids, names, checked), |ids|, CountChecked(ids, checked))
  }

  function Entries(ids: seq<int>, names: map<int, string>, checked: set<int>): (r: seq<LocationEntry>)
    ensures |r| == |ids|
  {
    seq(|ids|, i requires 0 <= i < |ids| => LocationEntry(ids[i], NameOf(names, ids[i]), ids[i] in checked))
  }

  function CountChecked(ids: seq<int>, checked: set<int>): nat {
    if ids == [] then 0
    else CountChecked(ids[..|ids| - 1], checked) + if ids[|ids| - 1] in checked then 1 else 0
  }

  /** How many spheres list the slot. */
  function Listed(spheres: seq<Sphere>, slot: int): nat {
    if spheres == [] then 0
    else Listed(spheres[..|spheres| - 1], slot) + if slot in spheres[|spheres| - 1] then 1 else 0
  }

  function TrueFlags(locations: seq<LocationEntry>): set<int> {
    set i | 0 <= i < |locations| && locations[i].checked
  }

  /** An entry for each location, with its identifier, its name in the game, if it has one, and whether it
      is checked, and the numbers of entries and of those that are checked. */
  ghost predicate IsResult(r: SphereResult, ids: seq<int>, names: map<int, string>, checked: set<int>) {
    && |r.locations| == |ids| == r.total && r.checked == |TrueFlags(r.locations)|
    && forall i :: 0 <= i < |ids| ==>
         && r.locations[i].id == ids[i] && (r.locations[i].checked <==> ids[i] in checked)
         && (ids[i] in names ==> r.locations[i].name == names[ids[i]])
         && (ids[i] !in names ==> r.locations[i].name == "")
  }

  /** A result for each sphere that lists the slot, in their order. */
  ghost predicate IsPage(page: seq<SphereResult>, spheres: seq<Sphere>, names: map<int, string>, slot: int,
                         checked: set<int>)
  {
    && |page| == Listed(spheres, slot)
    && forall i :: 0 <= i < |spheres| && slot in spheres[i] ==>
         HasResult(page, Listed(spheres[..i], slot), spheres[i][slot], names, checked)
  }

  ghost predicate HasResult(page: seq<SphereResult>, k: nat, ids: seq<int>, names: map<int, string>,
                            checked: set<int>)
  {
    k < |page| && IsResult(page[k], ids, names, checked)
  }

  lemma {:induction false} CountIs(ids: seq<int>, names: map<int, string>, checked: set<int>)
    ensures CountChecked(ids, checked) == |TrueFlags(Entries(ids, names, checked))|
  {
    var all := TrueFlags(Entries(ids, names, checked));
    if ids == [] {
      assert all == {};
    } else {
      var n := |ids| - 1;
      var before := TrueFlags(Entries(ids[..n], names, checked));
      CountIs(ids[..n], names, checked);
      assert all == before + if ids[n] in checked then {n} else {};
    }
  }

  lemma ResultForIs(ids: seq<int>, names: map<int, string>, checked: set<int>)
    ensures IsResult(ResultFor(ids, names, checked), ids, names, checked)
  {
    CountIs(ids, names, checked);
  }

  /** The page has a result for each sphere that lists the slot, in order, and each result is right. */
  lemma {:induction false} PageIs(spheres: seq<Sphere>, names: map<int, string>, slot: int, checked: set<int>)
    ensures IsPage(Page(spheres, names, slot, checked), spheres, names, slot, checked)
  {
    if spheres != [] {
      var n := |spheres| - 1;
      var before, page := Page(spheres[..n], names, slot, checked), Page(spheres, names, slot, checked);
      PageIs(spheres[..n], names, slot, checked);
      if slot in spheres[n] {
        ResultForIs(spheres[n][slot], names, checked);
      }
      forall i | 0 <= i < |spheres| && slot in spheres[i]
        ensures HasResult(page, Listed(spheres[..i], slot), spheres[i][slot], names, checked)
      {
        if i < n {
          assert spheres[..n][..i] == spheres[..i] && spheres[..n][i] == spheres[i];
          assert HasResult(before, Listed(spheres[..i], slot), spheres[i][slot], names, checked);
        }
      }
    }
  }

  /** No other page is. */
  lemma {:induction false} PageIsOnly(spheres: seq<Sphere>, names: map<int, string>, slot: int, checked: set<int>,
                                      page: seq<SphereResult>)
    requires IsPage(page, spheres, names, slot, checked)
    ensures page == Page(spheres, names, slot, checked)
  {
    if spheres != [] {
      var n := |spheres| - 1;
      var m := Listed(spheres[..n], slot);
      forall i | 0 <= i < n && slot in spheres[..n][i]
        ensures HasResult(page[..m], Listed(spheres[..n][..i], slot), spheres[..n][i][slot], names, checked)
      {
        assert spheres[..n][..i] == spheres[..i] && spheres[..n][i] == spheres[i];
        ListedBelow(spheres[..n], slot, i);
      }
      PageIsOnly(spheres[..n], names, slot, checked, page[..m]);
      if slot in spheres[n] {
        assert HasResult(page, m, spheres[n][slot], names, checked);
        SameResult(page[m], spheres[n][slot], names, checked);
        assert page == page[..m] + [page[m]];
      } else {
        assert page == page[..m];
      }
    }
  }

  lemma {:induction false} ListedBelow(spheres: seq<Sphere>, slot: int, i: nat)
    requires i < |spheres| && slot in spheres[i]
    ensures Listed(spheres[..i], slot) < Listed(spheres, slot)
  {
    var n := |spheres| - 1;
    if i < n {
      assert spheres[..n][..i] == spheres[..i] && spheres[..n][i] == spheres[i];
      ListedBelow(spheres[..n], slot, i);
    }
  }

  lemma SameResult(r: SphereResult, ids: seq<int>, names: map<int, string>, checked: set<int>)
    requires IsResult(r, ids, names, checked)
    ensures r == ResultFor(ids, names, checked)
  {
    var entries := Entries(ids, names, checked);
    forall i | 0 <= i < |ids| ensures r.locations[i] == entries[i] {}
    assert r.locations == entries;
    CountIs(ids, names, checked);
  }

  predicate DoneWith(spheres: seq<Sphere>, slot: int, checked: set<int>) {
    spheres != [] && slot in spheres[0] && forall i :: 0 <= i < |spheres[0][slot]| ==> spheres[0][slot][i] in checked
  }

  /** Checked locations never become unchecked, and slots do not go away. */
  ghost predicate Grows(before: map<int, set<int>>, after: map<int, set<int>>) {
    forall slot :: CheckedOf(before, slot) <= CheckedOf(after, slot)
  }

  /** The slots that a poll invalidates: those it lists with another number of locations. */
  function Changed(before: map<int, set<int>>, after: map<int, set<int>>): set<int> {
    set slot | slot in after && |CheckedOf(before, slot)| != |after[slot]|
  }

  /** Comparing sizes is enough as long as the sets only grow. */
  lemma SizesTellGrowth(before: map<int, set<int>>, after: map<int, set<int>>, slot: int)
    requires Grows(before, after)
    ensures slot in Changed(before, after) <==> CheckedOf(before, slot) != CheckedOf(after, slot)
  {
    var b, a := CheckedOf(before, slot), CheckedOf(after, slot);
    assert b <= a && a == b + (a - b);
    if |a| == |b| { assert a - b == {}; }
  }

  /** Every location that the spheres list for a slot is in both sets or in neither. */
  ghost predicate SameListed(spheres: seq<Sphere>, slot: int, a: set<int>, b: set<int>) {
    forall i :: 0 <= i < |spheres| && slot in spheres[i] ==> SameIn(spheres[i][slot], a, b)
  }

  ghost predicate SameIn(ids: seq<int>, a: set<int>, b: set<int>) {
    forall i :: 0 <= i < |ids| ==> (ids[i] in a <==> ids[i] in b)
  }

  lemma {:induction false} SameCount(ids: seq<int>, a: set<int>, b: set<int>)
    requires SameIn(ids, a, b)
    ensures CountChecked(ids, a) == CountChecked(ids, b)
  {
    if ids != [] { SameCount(ids[..|ids| - 1], a, b); }
  }

  lemma ResultsAgreeExactly(ids: seq<int>, names: map<int, string>, a: set<int>, b: set<int>)
    ensures ResultFor(ids, names, a) == ResultFor(ids, names, b) <==> SameIn(ids, a, b)
  {
    var ea, eb := Entries(ids, names, a), Entries(ids, names, b);
    if SameIn(ids, a, b) {
      SameCount(ids, a, b);
      assert ea == eb;
    } else {
      var i :| 0 <= i < |ids| && !(ids[i] in a <==> ids[i] in b);
      assert ea[i] != eb[i];
    }
  }

  lemma {:induction false} PageSize(spheres: seq<Sphere>, names: map<int, string>, slot: int, a: set<int>, b: set<int>)
    ensures |Page(spheres, names, slot, a)| == |Page(spheres, names, slot, b)|
  {
    if spheres != [] { PageSize(spheres[..|spheres| - 1], names, slot, a, b); }
  }

  /** A page depends on the checked state of the locations it lists, and on nothing else of the set. */
  lemma {:induction false} PagesAgreeExactly(spheres: seq<Sphere>, names: map<int, string>, slot: int, a: set<int>,
                                             b: set<int>)
    ensures Page(spheres, names, slot, a) == Page(spheres, names, slot, b) <==> SameListed(spheres, slot, a, b)
  {
    if spheres != [] {
      var n := |spheres| - 1;
      var last, pa, pb := spheres[n], Page(spheres[..n], names, slot, a), Page(spheres[..n], names, slot, b);
      PagesAgreeExactly(spheres[..n], names, slot, a, b);
      PageSize(spheres[..n], names, slot, a, b);
      SameListedSplits(spheres, slot, a, b);
      if slot in last {
        ResultsAgreeExactly(last[slot], names, a, b);
        SameEnds(pa, ResultFor(last[slot], names, a), pb, ResultFor(last[slot], names, b));
      } else {
        assert pa + [] == pa && pb + [] == pb;
      }
    }
  }

  lemma SameEnds(pa: seq<SphereResult>, ra: SphereResult, pb: seq<SphereResult>, rb: SphereResult)
    requires |pa| == |pb|
    ensures pa + [ra] == pb + [rb] <==> pa == pb && ra == rb
  {
    assert (pa + [ra])[..|pa|] == pa && (pb + [rb])[..|pa|] == pb;
    assert (pa + [ra])[|pa|] == ra && (pb + [rb])[|pa|] == rb;
  }

  lemma SameListedSplits(spheres: seq<Sphere>, slot: int, a: set<int>, b: set<int>)
    requires spheres != []
    ensures var n := |spheres| - 1;
      SameListed(spheres, slot, a, b) <==>
        SameListed(spheres[..n], slot, a, b) && (slot in spheres[n] ==> SameIn(spheres[n][slot], a, b))
  {
    var n := |spheres| - 1;
    if SameListed(spheres[..n], slot, a, b) && (slot in spheres[n] ==> SameIn(spheres[n][slot], a, b)) {
      forall i | 0 <= i < |spheres| && slot in spheres[i] ensures SameIn(spheres[i][slot], a, b) {
        if i < n { assert spheres[..n][i] == spheres[i]; }
      }
    }
    if SameListed(spheres, slot, a, b) {
      forall i | 0 <= i < n && slot in spheres[..n][i] ensures SameIn(spheres[..n][i][slot], a, b) {
        assert spheres[..n][i] == spheres[i];
      }
    }
  }

  class HostedRoom {
    const spheres: seq<Sphere>
    /** The location names of each slot's game; `None` when its datapackage is missing. */
    const slots: map<int, Option<map<int, string>>>
    var checked: map<int, set<int>>
    var data: map<int, seq<SphereResult>>
    var dirty: map<int, bool>
    var completeSphere1: set<int>

    constructor (spheres: seq<Sphere>, slots: map<int, Option<map<int, string>>>)
      ensures this.spheres == spheres && this.slots == slots && Coherent() && Sticky()
    {
      this.spheres, this.slots := spheres, slots;
      checked, data, dirty, completeSphere1 := map[], map[], map[], {};
    }

    predicate Clean(slot: int)
      reads this
    {
      slot in data && !(slot in dirty && dirty[slot])
    }

    /** A clean entry is what would be computed now. */
    predicate Fresh(slot: int)
      reads this
    {
      slot in slots && slots[slot].Some? && data.Keys >= {slot}
      && data[slot] == Page(spheres, slots[slot].value, slot, CheckedOf(checked, slot))
    }

    ghost predicate Coherent()
      reads this
    {
      forall slot :: Clean(slot) ==> Fresh(slot)
    }

    ghost predicate Sticky()
      reads this
    {
      forall slot :: slot in completeSphere1 ==> DoneWith(spheres, slot, CheckedOf(checked, slot))
    }

    /** One poll of the checked locations. What it invalidates depends on sizes alone: a clean entry
        that was right is wrong afterwards exactly when it was not invalidated and a location listed
        for its slot changed state, which does not happen while sets only grow. */
    method RefreshCheckedLocations(newChecked: map<int, set<int>>)
      modifies this
      ensures checked == newChecked && data == old(data) && completeSphere1 == old(completeSphere1)
      ensures forall slot :: Clean(slot) <==> old(Clean(slot)) && slot !in Changed(old(checked), newChecked)
      ensures forall slot :: old(Clean(slot)) && old(Fresh(slot)) ==>
                (Clean(slot) && !Fresh(slot) <==>
                  && slot !in Changed(old(checked), newChecked)
                  && !SameListed(spheres, slot, CheckedOf(old(checked), slot), CheckedOf(newChecked, slot)))
      ensures old(Coherent()) && Grows(old(checked), newChecked) ==> Coherent()
      ensures old(Sticky()) && Grows(old(checked), newChecked) ==> Sticky()
    {
      var todo := newChecked.Keys;
      while todo != {}
        invariant todo <= newChecked.Keys
        invariant checked == old(checked) && data == old(data) && completeSphere1 == old(completeSphere1)
        invariant forall slot :: Clean(slot) <==>
                    old(Clean(slot)) && (slot in todo || slot !in Changed(old(checked), newChecked))
        decreases todo
      {
        SomeMember(todo);
        var slot :| slot in todo;
        todo := todo - {slot};
        if |CheckedOf(checked, slot)| != |newChecked[slot]| {
          dirty := dirty[slot := true];
        }
      }
      checked := newChecked;
      forall slot | old(Clean(slot)) && old(Fresh(slot))
        ensures Fresh(slot) <==> SameListed(spheres, slot, CheckedOf(old(checked), slot), CheckedOf(newChecked, slot))
      {
        PagesAgreeExactly(spheres, slots[slot].value, slot, CheckedOf(old(checked), slot), CheckedOf(newChecked, slot));
      }
      if old(Coherent()) && Grows(old(checked), newChecked) {
        forall slot | Clean(slot) ensures Fresh(slot) {
          SizesTellGrowth(old(checked), newChecked, slot);
          assert old(Clean(slot)) && old(Fresh(slot));
        }
      }
      if old(Sticky()) && Grows(old(checked), newChecked) {
        forall slot | slot in completeSphere1 ensures DoneWith(spheres, slot, CheckedOf(checked, slot)) {
          assert CheckedOf(old(checked), slot) <= CheckedOf(checked, slot);
        }
      }
    }

    /** The page of a slot, from the cache if that is clean. `None` is the 404 of an unknown slot or
        a missing datapackage. */
    method HandleSpheresForSlot(slot: int) returns (page: Option<seq<SphereResult>>)
      requires Coherent()
      modifies this`data, this`dirty
      ensures Coherent()
      ensures page == if slot in slots && slots[slot].Some?
                      then Some(Page(spheres, slots[slot].value, slot, CheckedOf(checked, slot))) else None
      ensures page.Some? ==> IsPage(page.value, spheres, slots[slot].value, slot, CheckedOf(checked, slot))
    {
      if slot in slots && slots[slot].Some? {
        PageIs(spheres, slots[slot].value, slot, CheckedOf(checked, slot));
      }
      if Clean(slot) {
        assert Fresh(slot);
        return Some(data[slot]);
      }
      if slot !in slots || slots[slot].None? {
        return None;
      }
      var names, locations := slots[slot].value, CheckedOf(checked, slot);
      var result: seq<SphereResult> := [];
      for i := 0 to |spheres|
        invariant result == Page(spheres[..i], names, slot, locations)
        invariant data == old(data) && dirty == old(dirty)
      {
        assert spheres[..i + 1][..i] == spheres[..i];
        if slot !in spheres[i] {
          continue;
        }
        var one := SphereOf(spheres[i][slot], names, locations);
        result := result + [one];
      }
      assert spheres[..|spheres|] == spheres;
      data := data[slot := result];
      dirty := dirty[slot := false];
      assert Fresh(slot);
      forall other | Clean(other) ensures Fresh(other) {
        if other != slot { assert old(Clean(other)) && old(Fresh(other)); }
      }
      return Some(result);
    }

    static method SphereOf(ids: seq<int>, names: map<int, string>, checked: set<int>) returns (r: SphereResult)
      ensures r == ResultFor(ids, names, checked)
    {
      var entries: seq<LocationEntry> := [];
      var count := 0;
      for i := 0 to |ids|
        invariant entries == Entries(ids[..i], names, checked) && count == CountChecked(ids[..i], checked)
      {
        assert ids[..i + 1][..i] == ids[..i];
        var isChecked := ids[i] in checked;
        if isChecked {
          count := count + 1;
        }
        entries := entries + [LocationEntry(ids[i], NameOf(names, ids[i]), isChecked)];
      }
      assert ids[..|ids|] == ids;
      return SphereResult(entries, |entries|, count);
    }

    /** The slots with something of sphere 1 left to check, though the finished ones are only ever
        looked at once. A slot that sphere 1 does not mention counts as unfinished. The answer is
        right exactly when every slot marked as finished still is. */
    method HandleIncompleteSphere1() returns (incomplete: set<int>)
      modifies this`completeSphere1
      ensures old(Sticky()) ==> Sticky()
      ensures incomplete == Unfinished() <==>
                spheres == [] || forall slot :: slot in old(completeSphere1) && slot in slots ==>
                  DoneWith(spheres, slot, CheckedOf(checked, slot))
      ensures old(Sticky()) ==> incomplete == Unfinished()
    {
      if spheres == [] {
        return {};
      }
      var sphere1 := spheres[0];
      var todo := sphere1.Keys;
      while todo != {}
        invariant todo <= sphere1.Keys && old(completeSphere1) <= completeSphere1
        invariant forall slot :: slot in completeSphere1 ==>
                    slot in old(completeSphere1) || DoneWith(spheres, slot, CheckedOf(checked, slot))
        invariant forall slot ::
          slot in sphere1 && slot !in todo && DoneWith(spheres, slot, CheckedOf(checked, slot)) ==>
            slot in completeSphere1
        decreases todo
      {
        SomeMember(todo);
        var slot :| slot in todo;
        todo := todo - {slot};
        if slot in completeSphere1 {
          continue;
        }
        var unfinished := IsSphere1Incomplete(sphere1[slot], CheckedOf(checked, slot));
        if !unfinished {
          completeSphere1 := completeSphere1 + {slot};
        }
      }
      incomplete := set slot | slot in slots && slot !in completeSphere1;
      if incomplete == Unfinished() {
        forall slot | slot in old(completeSphere1) && slot in slots
          ensures DoneWith(spheres, slot, CheckedOf(checked, slot))
        {
          assert slot !in incomplete;
        }
      }
    }

    /** The slots of the room that are not done with sphere 1, when it has spheres. */
    function Unfinished(): set<int>
      reads this
    {
      if spheres == [] then {} else set slot | slot in slots && !DoneWith(spheres, slot, CheckedOf(checked, slot))
    }

    static method IsSphere1Incomplete(ids: seq<int>, checked: set<int>) returns (r: bool)
      ensures r <==> exists i :: 0 <= i < |ids| && ids[i] !in checked
    {
      for i := 0 to |ids|
        invariant forall j :: 0 <= j < i ==> ids[j] in checked
      {
        if ids[i] !in checked {
          return true;
        }
      }
      return false;
    }
  }

  /** Without growth sizes are not enough: when one location is unchecked while another is checked,
      the entry stays clean and the page is another one. */
  lemma SwappedLocationsAreMissed(names: map<int, string>, slot: int, a: int, b: int)
    requires a != b
    ensures var spheres, before, after := [map[slot := [a]]], map[slot := {a}], map[slot := {b}];
      && slot !in Changed(before, after)
      && Page(spheres, names, slot, CheckedOf(before, slot)) != Page(spheres, names, slot, CheckedOf(after, slot))
  {
    var spheres: seq<Sphere> := [map[slot := [a]]];
    assert spheres[..0] == [];
    assert Page(spheres, names, slot, {a}) == [ResultFor([a], names, {a})];
    assert Page(spheres, names, slot, {b}) == [ResultFor([a], names, {b})];
    assert Entries([a], names, {a})[0].checked && !Entries([a], names, {b})[0].checked;
  }
}
