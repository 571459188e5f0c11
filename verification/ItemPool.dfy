/** Taking start inventories out of the item pool (ap-worker/checker.py:243-279). */
module ItemPool {
  import opened Prelude

  /** Two items are equal when name and player are. */
  datatype Item = Item(player: int, name: string)

  datatype Entry = Entry(name: string, count: nat)

  /** A dictionary of counts, in its order. */
  type Counts = seq<Entry>

  function Get(counts: Counts, name: string): nat {
    if counts == [] then 0 else if counts[0].name == name then counts[0].count else Get(counts[1..], name)
  }

  function Decremented(counts: Counts, name: string): Counts
    requires Get(counts, name) > 0
  {
    if counts[0].name == name then [Entry(name, counts[0].count - 1)] + counts[1..]
    else [counts[0]] + Decremented(counts[1..], name)
  }

  function Sum(counts: Counts): nat {
    if counts == [] then 0 else counts[0].count + Sum(counts[1..])
  }

  function WithoutZeros(counts: Counts): Counts {
    if counts == [] then []
    else if counts[0].count > 0 then [counts[0]] + WithoutZeros(counts[1..])
    else WithoutZeros(counts[1..])
  }

  function SumAll(players: seq<int>, wanted: map<int, Counts>): nat
    requires forall k :: 0 <= k < |players| ==> players[k] in wanted
  {
    if players == [] then 0 else Sum(wanted[players[0]]) + SumAll(players[1..], wanted)
  }

  /** How many items a player has. */
  function Of(items: seq<Item>, player: int): nat {
    if items == [] then 0 else (if items[0].player == player then 1 else 0) + Of(items[1..], player)
  }

  function Wanted(wanted: map<int, Counts>, x: Item): nat {
    if x.player in wanted then Get(wanted[x.player], x.name) else 0
  }

  function Min(a: nat, b: nat): nat { if a < b then a else b }

  // Taking items, item by item and without stopping early ------------------------------------------

  function Taken(wanted: map<int, Counts>, x: Item): map<int, Counts>
    requires Wanted(wanted, x) > 0
  {
    wanted[x.player := Decremented(wanted[x.player], x.name)]
  }

  /** What stays in the pool, and what is still wanted afterwards. */
  function Deplete(items: seq<Item>, wanted: map<int, Counts>): (r: (seq<Item>, map<int, Counts>))
    ensures r.1.Keys == wanted.Keys
    decreases |items|
  {
    if items == [] then ([], wanted)
    else if Wanted(wanted, items[0]) > 0 then Deplete(items[1..], Taken(wanted, items[0]))
    else var (kept, left) := Deplete(items[1..], wanted); ([items[0]] + kept, left)
  }

  lemma {:induction false} DecrementedBy(counts: Counts, name: string)
    requires Get(counts, name) > 0
    ensures Sum(Decremented(counts, name)) == Sum(counts) - 1
    ensures forall other :: Get(Decremented(counts, name), other) == Get(counts, other) - if other == name then 1 else 0
  {
    if counts[0].name != name { DecrementedBy(counts[1..], name); }
  }

  lemma {:induction false} SumBoundsGet(counts: Counts, name: string)
    ensures Get(counts, name) <= Sum(counts)
  {
    if counts != [] { SumBoundsGet(counts[1..], name); }
  }

  lemma {:induction false} SumWithoutZeros(counts: Counts)
    ensures Sum(WithoutZeros(counts)) == Sum(counts)
    ensures WithoutZeros(counts) == [] <==> Sum(counts) == 0
  {
    if counts != [] { SumWithoutZeros(counts[1..]); }
  }

  /** Of every item, as many copies go as are wanted and there are. */
  lemma {:induction false} ExactCopiesGo(items: seq<Item>, wanted: map<int, Counts>, x: Item)
    ensures var (kept, left) := Deplete(items, wanted);
      var gone := Min(Wanted(wanted, x), multiset(items)[x]);
      multiset(kept)[x] == multiset(items)[x] - gone && Wanted(left, x) == Wanted(wanted, x) - gone
    decreases |items|
  {
    if items != [] {
      assert items == [items[0]] + items[1..];
      if Wanted(wanted, items[0]) > 0 {
        DecrementedBy(wanted[items[0].player], items[0].name);
        ExactCopiesGo(items[1..], Taken(wanted, items[0]), x);
      } else {
        ExactCopiesGo(items[1..], wanted, x);
      }
    }
  }

  lemma {:induction false} PlayerLosesWhatWasFound(items: seq<Item>, wanted: map<int, Counts>, player: int)
    requires player in wanted
    ensures var (kept, left) := Deplete(items, wanted);
      Sum(left[player]) <= Sum(wanted[player]) &&
        Of(kept, player) + Sum(wanted[player]) == Of(items, player) + Sum(left[player])
    decreases |items|
  {
    if items != [] {
      if Wanted(wanted, items[0]) > 0 {
        DecrementedBy(wanted[items[0].player], items[0].name);
        PlayerLosesWhatWasFound(items[1..], Taken(wanted, items[0]), player);
      } else {
        PlayerLosesWhatWasFound(items[1..], wanted, player);
      }
    }
  }

  ghost predicate PlayersOk(players: seq<int>, wanted: map<int, Counts>) {
    && NoDup(players)
    && (forall k :: 0 <= k < |players| ==> players[k] in wanted)
    && (forall p :: p in wanted ==> p in players)
  }

  lemma {:induction false} SumAllParts(players: seq<int>, wanted: map<int, Counts>, player: int)
    requires player in players && forall k :: 0 <= k < |players| ==> players[k] in wanted
    ensures Sum(wanted[player]) <= SumAll(players, wanted)
    decreases |players|
  {
    if player != players[0] { SumAllParts(players[1..], wanted, player); }
  }

  lemma {:induction false} SumAllSame(players: seq<int>, wanted: map<int, Counts>, other: map<int, Counts>)
    requires forall k :: 0 <= k < |players| ==>
      players[k] in wanted && players[k] in other && wanted[players[k]] == other[players[k]]
    ensures SumAll(players, wanted) == SumAll(players, other)
    decreases |players|
  {
    if players != [] {
      SumAllSame(players[1..], wanted, other);
    }
  }

  lemma {:induction false} SumAllTaken(players: seq<int>, wanted: map<int, Counts>, x: Item)
    requires NoDup(players) && x.player in players && Wanted(wanted, x) > 0
    requires forall k :: 0 <= k < |players| ==> players[k] in wanted
    ensures SumAll(players, Taken(wanted, x)) == SumAll(players, wanted) - 1
    decreases |players|
  {
    DecrementedBy(wanted[x.player], x.name);
    if x.player == players[0] {
      SumAllSame(players[1..], wanted, Taken(wanted, x));
    } else {
      SumAllTaken(players[1..], wanted, x);
    }
  }

  lemma {:induction false} NothingWantedNothingTaken(players: seq<int>, items: seq<Item>, wanted: map<int, Counts>)
    requires PlayersOk(players, wanted) && SumAll(players, wanted) == 0
    ensures Deplete(items, wanted) == (items, wanted)
    decreases |items|
  {
    if items != [] {
      assert items == [items[0]] + items[1..];
      if items[0].player in wanted {
        SumAllParts(players, wanted, items[0].player);
        SumBoundsGet(wanted[items[0].player], items[0].name);
      }
      NothingWantedNothingTaken(players, items[1..], wanted);
    }
  }

  // Fillers -----------------------------------------------------------------------------------------

  lemma {:induction false} OfSplits(a: seq<Item>, b: seq<Item>, player: int)
    ensures Of(a + b, player) == Of(a, player) + Of(b, player)
  {
    if a == [] {
      assert a + b == b;
    } else {
      assert (a + b)[1..] == a[1..] + b;
      OfSplits(a[1..], b, player);
    }
  }

  lemma {:induction false} OfAll(items: seq<Item>, player: int)
    requires forall x :: x in items ==> x.player == player
    ensures forall q :: Of(items, q) == if q == player then |items| else 0
  {
    if items != [] { OfAll(items[1..], player); }
  }

  /** One that was created for its player in place of an item asked for. */
  ghost predicate IsFiller(x: Item, wanted: map<int, Counts>, filler: (int, nat) -> string) {
    x.player in wanted && exists k: nat :: k < Sum(wanted[x.player]) && x.name == filler(x.player, k)
  }

  /** One filler for each item a player asks for. */
  method CreateFillers(player: int, counts: Counts, filler: (int, nat) -> string) returns (fillers: seq<Item>)
    ensures |fillers| == Sum(counts) && forall k :: 0 <= k < |fillers| ==> fillers[k] == Item(player, filler(player, k))
  {
    fillers := [];
    for i := 0 to |counts|
      invariant |fillers| + Sum(counts[i..]) == Sum(counts)
      invariant forall k :: 0 <= k < |fillers| ==> fillers[k] == Item(player, filler(player, k))
    {
      assert counts[i..][1..] == counts[i + 1..];
      for k := 0 to counts[i].count
        invariant |fillers| + (counts[i].count - k) + Sum(counts[i + 1..]) == Sum(counts)
        invariant forall j :: 0 <= j < |fillers| ==> fillers[j] == Item(player, filler(player, j))
      {
        fillers := fillers + [Item(player, filler(player, |fillers|))];
      }
    }
  }

  function OfPlayer(items: seq<Item>, player: int): (r: seq<Item>)
    ensures |r| == Of(items, player) && forall x :: x in r ==> x.player == player
  {
    if items == [] then [] else (if items[0].player == player then [items[0]] else []) + OfPlayer(items[1..], player)
  }

  lemma {:induction false} OfPlayerCounts(items: seq<Item>, player: int, x: Item)
    requires x.player == player
    ensures multiset(OfPlayer(items, player))[x] == multiset(items)[x]
  {
    if items != [] {
      OfPlayerCounts(items[1..], player, x);
      assert items == [items[0]] + items[1..];
    }
  }

  /** Without the first item equal to `x`. */
  function Remove(items: seq<Item>, x: Item): (r: seq<Item>)
    requires x in items
    ensures |r| == |items| - 1
  {
    if items[0] == x then items[1..] else [items[0]] + Remove(items[1..], x)
  }

  lemma {:induction false} RemoveOne(items: seq<Item>, x: Item)
    requires x in items
    ensures multiset(Remove(items, x)) == multiset(items) - multiset{x}
    ensures forall q :: Of(Remove(items, x), q) == Of(items, q) - if q == x.player then 1 else 0
  {
    assert items == [items[0]] + items[1..];
    if items[0] != x { RemoveOne(items[1..], x); }
  }

  /** Takes back `n` fillers of a player. There is always one to pop, and always one to remove. */
  method RemoveFillers(items: seq<Item>, player: int, n: nat) returns (rest: seq<Item>)
    requires n <= Of(items, player)
    ensures multiset(rest) <= multiset(items)
    ensures forall q :: Of(rest, q) == Of(items, q) - if q == player then n else 0
  {
    var removables := OfPlayer(items, player);
    rest := items;
    forall x: Item | x.player == player ensures multiset(removables)[x] == multiset(items)[x] {
      OfPlayerCounts(items, player, x);
    }
    for k := 0 to n
      invariant |removables| == Of(items, player) - k && forall x :: x in removables ==> x.player == player
      invariant forall x: Item :: x.player == player ==> multiset(removables)[x] == multiset(rest)[x]
      invariant multiset(rest) <= multiset(items)
      invariant forall q :: Of(rest, q) == Of(items, q) - if q == player then k else 0
    {
      var last := removables[|removables| - 1];
      assert removables == removables[..|removables| - 1] + [last];
      assert last in multiset(rest);
      removables := removables[..|removables| - 1];
      RemoveOne(rest, last);
      rest := Remove(rest, last);
    }
  }

  // Sizes -------------------------------------------------------------------------------------------

  function OfEach(items: seq<Item>, players: seq<int>): nat {
    if players == [] then 0 else Of(items, players[0]) + OfEach(items, players[1..])
  }

  lemma {:induction false} OfEachGrows(x: Item, items: seq<Item>, players: seq<int>)
    requires NoDup(players)
    ensures OfEach([x] + items, players) == OfEach(items, players) + if x.player in players then 1 else 0
    decreases |players|
  {
    assert ([x] + items)[1..] == items;
    if players != [] { OfEachGrows(x, items, players[1..]); }
  }

  lemma {:induction false} OfEachIsAll(items: seq<Item>, players: seq<int>)
    requires NoDup(players) && forall x :: x in items ==> x.player in players
    ensures OfEach(items, players) == |items|
  {
    if items == [] {
      OfEachNone(players);
    } else {
      assert items == [items[0]] + items[1..];
      OfEachIsAll(items[1..], players);
      OfEachGrows(items[0], items[1..], players);
    }
  }

  lemma {:induction false} OfEachNone(players: seq<int>)
    ensures OfEach([], players) == 0
  {
    if players != [] { OfEachNone(players[1..]); }
  }

  lemma {:induction false} OfEachSame(a: seq<Item>, b: seq<Item>, players: seq<int>)
    requires forall p :: p in players ==> Of(a, p) == Of(b, p)
    ensures OfEach(a, players) == OfEach(b, players)
    decreases |players|
  {
    if players != [] { OfEachSame(a, b, players[1..]); }
  }

  // The block ---------------------------------------------------------------------------------------

  /** After `i` items: `kept` stayed, and `left` is what is still wanted. */
  ghost predicate OnTheWay(pool: seq<Item>, wanted: map<int, Counts>, i: nat, kept: seq<Item>, left: map<int, Counts>) {
    i <= |pool| && Deplete(pool, wanted) == (kept + Deplete(pool[i..], left).0, Deplete(pool[i..], left).1)
  }

  lemma TakesNext(pool: seq<Item>, wanted: map<int, Counts>, i: nat, kept: seq<Item>, left: map<int, Counts>)
    requires OnTheWay(pool, wanted, i, kept, left) && i < |pool| && Wanted(left, pool[i]) > 0
    ensures OnTheWay(pool, wanted, i + 1, kept, Taken(left, pool[i]))
  {
    assert pool[i..][1..] == pool[i + 1..];
  }

  lemma KeepsNext(pool: seq<Item>, wanted: map<int, Counts>, i: nat, kept: seq<Item>, left: map<int, Counts>)
    requires OnTheWay(pool, wanted, i, kept, left) && i < |pool| && Wanted(left, pool[i]) == 0
    ensures OnTheWay(pool, wanted, i + 1, kept + [pool[i]], left)
  {
    assert pool[i..][1..] == pool[i + 1..];
    Assoc(kept, [pool[i]], Deplete(pool[i + 1..], left).0);
  }

  lemma TakenOk(players: seq<int>, wanted: map<int, Counts>, x: Item)
    requires PlayersOk(players, wanted) && Wanted(wanted, x) > 0
    ensures PlayersOk(players, Taken(wanted, x)) && SumAll(players, Taken(wanted, x)) == SumAll(players, wanted) - 1
  {
    SumAllTaken(players, wanted, x);
  }

  /** The items kept, stopping at the last one wanted, and what is still wanted. */
  method TakeFromPool(pool: seq<Item>, players: seq<int>, wanted: map<int, Counts>)
    returns (kept: seq<Item>, left: map<int, Counts>, target: nat)
    requires PlayersOk(players, wanted) && forall x :: x in pool ==> x.player in wanted
    ensures (kept, left) == Deplete(pool, wanted)
    ensures PlayersOk(players, left) && target == SumAll(players, left)
  {
    kept, left := [], wanted;
    target := SumAll(players, wanted);
    assert pool[0..] == pool && [] + Deplete(pool, left).0 == Deplete(pool, left).0;
    for i := 0 to |pool|
      invariant PlayersOk(players, left) && left.Keys == wanted.Keys && target == SumAll(players, left)
      invariant OnTheWay(pool, wanted, i, kept, left)
    {
      var x := pool[i];
      if Get(left[x.player], x.name) > 0 {
        TakesNext(pool, wanted, i, kept, left);
        TakenOk(players, left, x);
        target := target - 1;
        left := Taken(left, x);
        if target == 0 {
          NothingWantedNothingTaken(players, pool[i + 1..], left);
          kept := kept + pool[i + 1..];
          return;
        }
      } else {
        KeepsNext(pool, wanted, i, kept, left);
        kept := kept + [x];
      }
    }
    assert pool[|pool|..] == [] && kept + [] == kept;
  }

  method Replenish(pool: seq<Item>, players: seq<int>, wanted: map<int, Counts>, filler: (int, nat) -> string)
    returns (result: seq<Item>, ghost fillers: seq<Item>)
    requires PlayersOk(players, wanted) && forall x :: x in pool ==> x.player in wanted
    ensures |result| == |pool|
    ensures forall p :: p in players ==> Of(result, p) == Of(pool, p)
    ensures var kept := Deplete(pool, wanted).0;
      && result == fillers + kept
      && (forall p :: p in players ==> Of(fillers, p) == Of(pool, p) - Of(kept, p))
      && forall x :: x in fillers ==> IsFiller(x, wanted, filler)
  {
    var newItems: seq<Item> := [];
    for i := 0 to |players|
      invariant forall x :: x in newItems ==> x.player in players && IsFiller(x, wanted, filler)
      invariant forall k :: 0 <= k < i ==> Of(newItems, players[k]) == Sum(wanted[players[k]])
      invariant forall k :: i <= k < |players| ==> Of(newItems, players[k]) == 0
    {
      var more := CreateFillers(players[i], wanted[players[i]], filler);
      OfAll(more, players[i]);
      forall x | x in more ensures x.player == players[i] && IsFiller(x, wanted, filler) {
        var k: nat :| k < |more| && more[k] == x;
      }
      forall q ensures Of(newItems + more, q) == Of(newItems, q) + Of(more, q) { OfSplits(newItems, more, q); }
      newItems := newItems + more;
    }
    var kept, left, target := TakeFromPool(pool, players, wanted);
    forall p | p in players
      ensures Sum(left[p]) <= Sum(wanted[p]) && Of(kept, p) + Sum(wanted[p]) == Of(pool, p) + Sum(left[p])
    {
      PlayerLosesWhatWasFound(pool, wanted, p);
    }
    if target != 0 {
      var rest := TakeBack(newItems, players, wanted, left);
      forall x | x in rest ensures x in newItems { assert x in multiset(rest); }
      newItems := rest;
    } else {
      forall p | p in players ensures Sum(left[p]) == 0 { SumAllParts(players, left, p); }
    }
    result := newItems + kept;
    fillers := newItems;
    forall p ensures Of(result, p) == Of(newItems, p) + Of(kept, p) { OfSplits(newItems, kept, p); }
    KeptFromPool(pool, wanted);
    OfEachSame(result, pool, players);
    OfEachIsAll(result, players);
    OfEachIsAll(pool, players);
  }

  lemma {:induction false} KeptFromPool(items: seq<Item>, wanted: map<int, Counts>)
    ensures forall x :: x in Deplete(items, wanted).0 ==> x in items
    decreases |items|
  {
    if items != [] {
      if Wanted(wanted, items[0]) > 0 {
        KeptFromPool(items[1..], Taken(wanted, items[0]));
      } else {
        KeptFromPool(items[1..], wanted);
      }
    }
  }

  /** Every player's leftovers out of the fillers. */
  method TakeBack(newItems: seq<Item>, players: seq<int>, wanted: map<int, Counts>, left: map<int, Counts>)
    returns (rest: seq<Item>)
    requires PlayersOk(players, wanted) && PlayersOk(players, left)
    requires forall p :: p in players ==> Of(newItems, p) == Sum(wanted[p]) && Sum(left[p]) <= Sum(wanted[p])
    ensures forall p :: p in players ==> Of(rest, p) == Sum(wanted[p]) - Sum(left[p])
    ensures multiset(rest) <= multiset(newItems)
  {
    rest := newItems;
    for i := 0 to |players|
      invariant multiset(rest) <= multiset(newItems)
      invariant forall k :: 0 <= k < i ==> Of(rest, players[k]) == Sum(wanted[players[k]]) - Sum(left[players[k]])
      invariant forall k :: i <= k < |players| ==> Of(rest, players[k]) == Sum(wanted[players[k]])
    {
      var remaining := WithoutZeros(left[players[i]]);
      SumWithoutZeros(left[players[i]]);
      if remaining != [] {
        rest := RemoveFillers(rest, players[i], Sum(remaining));
      }
    }
  }
}
