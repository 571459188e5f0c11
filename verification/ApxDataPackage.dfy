/** Datapackages shared by rooms, counted on two levels (apx/datapackage.go): a wrapper for each
    checksum and game, and under it the datapackage of the checksum. */
module ApxDataPackage {
  import opened Prelude

  predicate NoColon(s: string) { ':' !in s }

  function GameKey(checksum: string, game: string): string { checksum + ":" + game }

  /** Checksums have no colon, so a key says which checksum and game it is for. */
  lemma GameKeyInjective(c1: string, g1: string, c2: string, g2: string)
    requires NoColon(c1) && NoColon(c2)
    ensures GameKey(c1, g1) == GameKey(c2, g2) <==> c1 == c2 && g1 == g2
  {
    var k1, k2 := GameKey(c1, g1), GameKey(c2, g2);
    if k1 == k2 {
      assert k1[|c1|] == ':' && k2[|c2|] == ':';
      assert forall i :: 0 <= i < |c1| ==> k1[i] == c1[i];
      assert forall i :: 0 <= i < |c2| ==> k2[i] == c2[i];
      assert c1 == k1[..|c1|] && c2 == k2[..|c2|];
      assert g1 == k1[|c1| + 1..] && g2 == k2[|c2| + 1..];
    }
  }

  /** Without that, two packages can meet under one key. */
  lemma ColonsCollide(a: string, b: string, game: string)
    ensures GameKey(a + ":" + b, game) == GameKey(a, b + ":" + game)
  {
    assert a + ":" + b + ":" + game == a + ":" + (b + ":" + game);
  }

  // The counts -------------------------------------------------------------------------------

  /** The wrappers on a checksum, given the checksum of each. */
  function Users(checksums: map<string, string>, checksum: string): set<string> {
    set k | k in checksums && checksums[k] == checksum
  }

  ghost predicate WrapperOk(held: multiset<string>, wrappers: map<string, int>, checksums: map<string, string>,
                            packages: map<string, int>, k: string)
  {
    && (k in wrappers <==> held[k] > 0)
    && (k in wrappers <==> k in checksums)
    && (k in wrappers ==>
          && wrappers[k] == held[k]
          && NoColon(checksums[k]) && checksums[k] + ":" <= k && checksums[k] in packages)
  }

  ghost predicate PackageOk(checksums: map<string, string>, packages: map<string, int>, c: string) {
    c in packages ==> packages[c] == |Users(checksums, c)| && Users(checksums, c) != {}
  }

  /** A wrapper's count is the number of times stores hold its key, a datapackage's count is the
      number of cached wrappers on it, and nothing is cached with a count of zero. */
  ghost predicate CountsOk(held: multiset<string>, wrappers: map<string, int>, checksums: map<string, string>,
                           packages: map<string, int>)
  {
    && (forall k :: WrapperOk(held, wrappers, checksums, packages, k))
    && (forall c :: PackageOk(checksums, packages, c))
  }

  lemma HoldAgain(held: multiset<string>, wrappers: map<string, int>, checksums: map<string, string>,
                  packages: map<string, int>, key: string)
    requires CountsOk(held, wrappers, checksums, packages) && key in wrappers
    ensures CountsOk(held + multiset{key}, wrappers[key := wrappers[key] + 1], checksums, packages)
  {
    var held', wrappers' := held + multiset{key}, wrappers[key := wrappers[key] + 1];
    forall k ensures WrapperOk(held', wrappers', checksums, packages, k) {
      assert WrapperOk(held, wrappers, checksums, packages, k);
    }
  }

  lemma HoldNew(held: multiset<string>, wrappers: map<string, int>, checksums: map<string, string>,
                packages: map<string, int>, checksum: string, game: string)
    requires CountsOk(held, wrappers, checksums, packages)
    requires NoColon(checksum) && GameKey(checksum, game) !in wrappers
    ensures var key := GameKey(checksum, game);
      CountsOk(held + multiset{key}, wrappers[key := 1], checksums[key := checksum],
               packages[checksum := 1 + if checksum in packages then packages[checksum] else 0])
  {
    var key := GameKey(checksum, game);
    var held', wrappers', checksums' := held + multiset{key}, wrappers[key := 1], checksums[key := checksum];
    var packages' := packages[checksum := 1 + if checksum in packages then packages[checksum] else 0];
    assert WrapperOk(held, wrappers, checksums, packages, key) && PackageOk(checksums, packages, checksum);
    forall k ensures WrapperOk(held', wrappers', checksums', packages', k) {
      assert WrapperOk(held, wrappers, checksums, packages, k);
    }
    forall c ensures PackageOk(checksums', packages', c) {
      assert PackageOk(checksums, packages, c);
      OneMoreUser(checksums, key, checksum, c);
      if c == checksum && c !in packages { NoUsers(held, wrappers, checksums, packages, c); }
    }
  }

  lemma OneMoreUser(checksums: map<string, string>, key: string, checksum: string, c: string)
    requires key !in checksums
    ensures Users(checksums[key := checksum], c) == Users(checksums, c) + if c == checksum then {key} else {}
    ensures key !in Users(checksums, c)
  {
  }

  lemma NoUsers(held: multiset<string>, wrappers: map<string, int>, checksums: map<string, string>,
                packages: map<string, int>, c: string)
    requires CountsOk(held, wrappers, checksums, packages) && c !in packages
    ensures Users(checksums, c) == {}
  {
    forall k ensures k !in Users(checksums, c) { assert WrapperOk(held, wrappers, checksums, packages, k); }
  }

  lemma LetGo(held: multiset<string>, wrappers: map<string, int>, checksums: map<string, string>,
              packages: map<string, int>, key: string)
    requires CountsOk(held, wrappers, checksums, packages) && key in wrappers && wrappers[key] > 1
    ensures CountsOk(held - multiset{key}, wrappers[key := wrappers[key] - 1], checksums, packages)
  {
    assert WrapperOk(held, wrappers, checksums, packages, key);
    var held', wrappers' := held - multiset{key}, wrappers[key := wrappers[key] - 1];
    forall k ensures WrapperOk(held', wrappers', checksums, packages, k) {
      assert WrapperOk(held, wrappers, checksums, packages, k);
    }
  }

  lemma LetGoLast(held: multiset<string>, wrappers: map<string, int>, checksums: map<string, string>,
                  packages: map<string, int>, key: string)
    requires CountsOk(held, wrappers, checksums, packages) && key in wrappers && wrappers[key] <= 1
    ensures key in checksums && checksums[key] in packages
    ensures var c := checksums[key];
      CountsOk(held - multiset{key}, wrappers - {key}, checksums - {key},
               if packages[c] <= 1 then packages - {c} else packages[c := packages[c] - 1])
  {
    assert WrapperOk(held, wrappers, checksums, packages, key);
    var checksum := checksums[key];
    assert PackageOk(checksums, packages, checksum) && key in Users(checksums, checksum);
    var held', wrappers', checksums' := held - multiset{key}, wrappers - {key}, checksums - {key};
    var packages' := if packages[checksum] <= 1 then packages - {checksum}
                     else packages[checksum := packages[checksum] - 1];
    forall c ensures PackageOk(checksums', packages', c)
                  && (c == checksum ==> |Users(checksums', c)| == packages[checksum] - 1) {
      assert PackageOk(checksums, packages, c);
      assert Users(checksums', c) == if c == checksum then Users(checksums, c) - {key} else Users(checksums, c);
    }
    forall k ensures WrapperOk(held', wrappers', checksums', packages', k) {
      assert WrapperOk(held, wrappers, checksums, packages, k);
      assert k in checksums' && checksums'[k] == checksum ==> k in Users(checksums', checksum);
    }
  }

  lemma LetGoNothing(held: multiset<string>, wrappers: map<string, int>, checksums: map<string, string>,
                     packages: map<string, int>, key: string)
    requires CountsOk(held, wrappers, checksums, packages) && key !in wrappers
    ensures held - multiset{key} == held
  {
    assert WrapperOk(held, wrappers, checksums, packages, key);
  }

  // The cache --------------------------------------------------------------------------------

  const HEADER := "[{\"cmd\":\"DataPackage\",\"data\":{\"games\":{"
  const FOOTER := "}}}]"

  class CachedDataPackage {
    const encoded: string
    var refCount: int

    constructor (encoded: string)
      ensures this.encoded == encoded && refCount == 0
    {
      this.encoded, refCount := encoded, 0;
    }
  }

  function Entry(name: string, encoded: string): string { name + ":" + encoded }

  class CachedGameDataPackage {
    const datapackage: CachedDataPackage
    const checksum: string
    const encodedGameName: string
    /** The response to a request for this game alone. */
    const singleResponse: string := HEADER + Entry(encodedGameName, datapackage.encoded) + FOOTER
    var refCount: int

    constructor (datapackage: CachedDataPackage, checksum: string, encodedGameName: string)
      ensures this.datapackage == datapackage && this.checksum == checksum && refCount == 1
      ensures this.encodedGameName == encodedGameName
    {
      this.datapackage, this.checksum, refCount := datapackage, checksum, 1;
      this.encodedGameName := encodedGameName;
    }
  }

  class GlobalDataPackageCache {
    var byChecksum: map<string, CachedDataPackage>
    var byGameKey: map<string, CachedGameDataPackage>
    /** The keys that stores hold, as often as they hold them. */
    ghost var held: multiset<string>
    ghost var repr: set<object>

    /** The cached objects are the cache's own, and no two entries share one. */
    ghost predicate Owned()
      reads this
    {
      && this !in repr
      && (forall k :: k in byGameKey ==> byGameKey[k] in repr)
      && (forall c :: c in byChecksum ==> byChecksum[c] in repr)
      && (forall k, l :: k in byGameKey && l in byGameKey && k != l ==> byGameKey[k] != byGameKey[l])
      && (forall c, d :: c in byChecksum && d in byChecksum && c != d ==> byChecksum[c] != byChecksum[d])
    }

    ghost function Wrappers(): map<string, int>
      requires Owned()
      reads this, repr
    {
      map k | k in byGameKey :: byGameKey[k].refCount
    }

    ghost function Checksums(): map<string, string>
      reads this
    {
      map k | k in byGameKey :: byGameKey[k].checksum
    }

    ghost function Packages(): map<string, int>
      requires Owned()
      reads this, repr
    {
      map c | c in byChecksum :: byChecksum[c].refCount
    }

    /** A wrapper is on the cached datapackage of its checksum. */
    ghost predicate Linked()
      reads this
    {
      forall k :: k in byGameKey && byGameKey[k].checksum in byChecksum ==>
        byChecksum[byGameKey[k].checksum] == byGameKey[k].datapackage
    }

    ghost predicate Valid()
      reads this, repr
    {
      Owned() && Linked() && CountsOk(held, Wrappers(), Checksums(), Packages())
    }

    constructor ()
      ensures Valid() && held == multiset{} && byChecksum == map[] && byGameKey == map[] && repr == {}
    {
      byChecksum, byGameKey, held, repr := map[], map[], multiset{}, {};
    }

    /** When stores hold nothing, nothing is cached. */
    lemma NothingHeldNothingCached()
      requires Valid() && held == multiset{}
      ensures byGameKey == map[] && byChecksum == map[]
    {
      forall k ensures k !in byGameKey { assert WrapperOk(held, Wrappers(), Checksums(), Packages(), k); }
      assert Checksums() == map[];
      forall c ensures c !in Packages() { assert PackageOk(Checksums(), Packages(), c); }
      assert byChecksum.Keys == Packages().Keys;
    }

    method GetOrAdd(checksum: string, game: string, encoded: string, encodedGameName: string)
      returns (wrapper: CachedGameDataPackage)
      requires Valid() && NoColon(checksum)
      modifies this, repr
      ensures Valid() && fresh(repr - old(repr)) && held == old(held) + multiset{GameKey(checksum, game)}
      ensures byGameKey == old(byGameKey)[GameKey(checksum, game) := wrapper]
      ensures wrapper.checksum == checksum
      ensures GameKey(checksum, game) in old(byGameKey) ==>
                wrapper == old(byGameKey)[GameKey(checksum, game)] && byChecksum == old(byChecksum)
      ensures GameKey(checksum, game) !in old(byGameKey) ==>
                && fresh(wrapper) && wrapper.encodedGameName == encodedGameName
                && byChecksum == old(byChecksum)[checksum := wrapper.datapackage]
                && (checksum in old(byChecksum) ==> wrapper.datapackage == old(byChecksum)[checksum])
                && (checksum !in old(byChecksum) ==>
                  fresh(wrapper.datapackage) && wrapper.datapackage.encoded == encoded)
    {
      var gameKey := checksum + ":" + game;
      ghost var h, w, cs, ps := held, Wrappers(), Checksums(), Packages();
      if gameKey in byGameKey {
        wrapper := byGameKey[gameKey];
        assert WrapperOk(h, w, cs, ps, gameKey);
        GameKeyInjective(checksum, game, wrapper.checksum, gameKey[|wrapper.checksum| + 1..]);
        wrapper.refCount := wrapper.refCount + 1;
        held := held + multiset{gameKey};
        assert Wrappers() == w[gameKey := w[gameKey] + 1];
        assert Checksums() == cs && Packages() == ps;
        HoldAgain(h, w, cs, ps, gameKey);
        return;
      }
      wrapper := AddWrapper(checksum, game, encoded, encodedGameName);
    }

    /** What `GetOrAdd` does when no wrapper is cached. */
    method AddWrapper(checksum: string, game: string, encoded: string, encodedGameName: string)
      returns (wrapper: CachedGameDataPackage)
      requires Valid() && NoColon(checksum) && GameKey(checksum, game) !in byGameKey
      modifies this, repr
      ensures Valid() && fresh(repr - old(repr)) && held == old(held) + multiset{GameKey(checksum, game)}
      ensures byGameKey == old(byGameKey)[GameKey(checksum, game) := wrapper]
      ensures fresh(wrapper) && wrapper.checksum == checksum && wrapper.encodedGameName == encodedGameName
      ensures byChecksum == old(byChecksum)[checksum := wrapper.datapackage]
      ensures checksum in old(byChecksum) ==> wrapper.datapackage == old(byChecksum)[checksum]
      ensures checksum !in old(byChecksum) ==> fresh(wrapper.datapackage) && wrapper.datapackage.encoded == encoded
    {
      var gameKey := checksum + ":" + game;
      ghost var h, w, cs, ps := held, Wrappers(), Checksums(), Packages();
      NoUsersYet(checksum);
      wrapper := MakeWrapper(checksum, encoded, encodedGameName);
      PutWrapper(gameKey, wrapper);
      HoldNew(h, w, cs, ps, checksum, game);
    }

    /** A wrapper that is not cached yet, on the datapackage of its checksum. */
    method MakeWrapper(checksum: string, encoded: string, encodedGameName: string)
      returns (wrapper: CachedGameDataPackage)
      requires Owned()
      modifies this`byChecksum, this`repr, repr
      ensures Owned() && fresh(repr - old(repr)) && fresh(wrapper) && wrapper !in repr && wrapper.refCount == 1
      ensures wrapper.checksum == checksum && wrapper.encodedGameName == encodedGameName
      ensures byChecksum == old(byChecksum)[checksum := wrapper.datapackage] && Wrappers() == old(Wrappers())
      ensures Packages() ==
        old(Packages())[checksum := 1 + if checksum in old(Packages()) then old(Packages())[checksum] else 0]
      ensures checksum in old(byChecksum) ==> wrapper.datapackage == old(byChecksum)[checksum]
      ensures checksum !in old(byChecksum) ==> fresh(wrapper.datapackage) && wrapper.datapackage.encoded == encoded
    {
      var datapackage := HoldPackage(checksum, encoded);
      wrapper := new CachedGameDataPackage(datapackage, checksum, encodedGameName);
    }

    lemma NoUsersYet(checksum: string)
      requires Valid()
      ensures checksum !in byChecksum ==> forall k :: k in byGameKey ==> byGameKey[k].checksum != checksum
    {
      forall k | k in byGameKey ensures byGameKey[k].checksum in byChecksum {
        assert WrapperOk(held, Wrappers(), Checksums(), Packages(), k);
      }
    }

    /** The datapackage of a checksum, put into the cache if it is new, with one more wrapper. */
    method HoldPackage(checksum: string, encoded: string) returns (datapackage: CachedDataPackage)
      requires Owned()
      modifies this`byChecksum, this`repr, repr
      ensures Owned() && fresh(repr - old(repr)) && byChecksum == old(byChecksum)[checksum := datapackage]
      ensures Packages() ==
        old(Packages())[checksum := 1 + if checksum in old(Packages()) then old(Packages())[checksum] else 0]
      ensures Wrappers() == old(Wrappers())
      ensures checksum in old(byChecksum) ==> datapackage == old(byChecksum)[checksum]
      ensures checksum !in old(byChecksum) ==> fresh(datapackage) && datapackage.encoded == encoded
    {
      if checksum in byChecksum {
        datapackage := byChecksum[checksum];
      } else {
        datapackage := new CachedDataPackage(encoded);
        byChecksum := byChecksum[checksum := datapackage];
        repr := repr + {datapackage};
      }
      datapackage.refCount := datapackage.refCount + 1;
    }

    method PutWrapper(gameKey: string, wrapper: CachedGameDataPackage)
      requires Owned() && gameKey !in byGameKey && wrapper !in repr
      modifies this`byGameKey, this`held, this`repr
      ensures Owned() && repr == old(repr) + {wrapper} && held == old(held) + multiset{gameKey}
      ensures byGameKey == old(byGameKey)[gameKey := wrapper]
      ensures Wrappers() == old(Wrappers())[gameKey := wrapper.refCount]
      ensures Checksums() == old(Checksums())[gameKey := wrapper.checksum]
      ensures Packages() == old(Packages())
    {
      NoteHold(gameKey, wrapper);
      Cache(gameKey, wrapper);
    }

    ghost method NoteHold(gameKey: string, wrapper: CachedGameDataPackage)
      requires Owned() && wrapper !in repr
      modifies this`held, this`repr
      ensures Owned() && held == old(held) + multiset{gameKey} && repr == old(repr) + {wrapper}
      ensures forall k :: k in byGameKey ==> byGameKey[k] != wrapper
      ensures Wrappers() == old(Wrappers()) && Checksums() == old(Checksums()) && Packages() == old(Packages())
    {
      held := held + multiset{gameKey};
      repr := repr + {wrapper};
    }

    static lemma NoneShared(m: map<string, CachedGameDataPackage>, owned: set<object>, key: string,
                            w: CachedGameDataPackage)
      requires (forall k :: k in m ==> m[k] in owned && m[k] != w) && w in owned
      requires forall k, l :: k in m && l in m && k != l ==> m[k] != m[l]
      ensures var m' := m[key := w]; forall k, l :: k in m' && l in m' && k != l ==> m'[k] != m'[l]
      ensures var m' := m[key := w]; forall k :: k in m' ==> m'[k] in owned
    {
    }

    method Cache(gameKey: string, wrapper: CachedGameDataPackage)
      requires Owned() && gameKey !in byGameKey && wrapper in repr
      requires forall k :: k in byGameKey ==> byGameKey[k] != wrapper
      modifies this`byGameKey
      ensures Owned() && byGameKey == old(byGameKey)[gameKey := wrapper]
      ensures Wrappers() == old(Wrappers())[gameKey := wrapper.refCount]
      ensures Checksums() == old(Checksums())[gameKey := wrapper.checksum]
      ensures Packages() == old(Packages())
    {
      ghost var w, cs, ps, was := Wrappers(), Checksums(), Packages(), byGameKey;
      NoneShared(was, repr, gameKey, wrapper);
      byGameKey := byGameKey[gameKey := wrapper];
      assert Wrappers() == w[gameKey := wrapper.refCount] by {
        assert byGameKey.Keys == was.Keys + {gameKey};
      }
      assert Checksums() == cs[gameKey := wrapper.checksum];
      assert Packages() == ps;
    }

    /** One wrapper less on the datapackage of a checksum, which goes with the last one. */
    method LetGoPackage(checksum: string)
      requires Owned() && checksum in byChecksum
      modifies this`byChecksum, byChecksum[checksum]
      ensures Owned()
      ensures byChecksum == if old(Packages())[checksum] <= 1 then old(byChecksum) - {checksum} else old(byChecksum)
      ensures Packages() == if old(Packages())[checksum] <= 1 then old(Packages()) - {checksum}
                            else old(Packages())[checksum := old(Packages())[checksum] - 1]
      ensures Wrappers() == old(Wrappers())
    {
      var datapackage := byChecksum[checksum];
      datapackage.refCount := datapackage.refCount - 1;
      if datapackage.refCount <= 0 {
        byChecksum := byChecksum - {checksum};
      }
    }

    /** One turn of the loop of `Release`. */
    method ReleaseOne(gameKey: string)
      requires Valid()
      modifies this, repr
      ensures Valid() && held == old(held) - multiset{gameKey} && repr == old(repr)
    {
      ghost var h, w, cs, ps := held, Wrappers(), Checksums(), Packages();
      if gameKey !in byGameKey {
        LetGoNothing(h, w, cs, ps, gameKey);
        return;
      }
      assert WrapperOk(h, w, cs, ps, gameKey);
      var left := LetGoWrapper(gameKey);
      if left <= 0 {
        RemoveWrapper(gameKey);
        assert Wrappers() == w - {gameKey};
        LetGoLast(h, w, cs, ps, gameKey);
      } else {
        LetGo(h, w, cs, ps, gameKey);
      }
    }

    method LetGoWrapper(gameKey: string) returns (left: int)
      requires Owned() && gameKey in byGameKey
      modifies this`held, byGameKey[gameKey]
      ensures held == old(held) - multiset{gameKey}
      ensures left == old(Wrappers())[gameKey] - 1 && Wrappers() == old(Wrappers())[gameKey := left]
      ensures Packages() == old(Packages())
    {
      var wrapper := byGameKey[gameKey];
      wrapper.refCount := wrapper.refCount - 1;
      held := held - multiset{gameKey};
      left := wrapper.refCount;
    }

    /** Takes out a wrapper, and with it its hold on its datapackage. */
    method RemoveWrapper(gameKey: string)
      requires Owned() && Linked() && gameKey in byGameKey && byGameKey[gameKey].checksum in byChecksum
      modifies this`byGameKey, this`byChecksum, repr
      ensures Owned() && Linked() && byGameKey == old(byGameKey) - {gameKey}
      ensures Wrappers() == old(Wrappers()) - {gameKey} && Checksums() == old(Checksums()) - {gameKey}
      ensures var c := old(byGameKey)[gameKey].checksum;
        Packages() == if old(Packages())[c] <= 1 then old(Packages()) - {c}
                      else old(Packages())[c := old(Packages())[c] - 1]
    {
      var wrapper := byGameKey[gameKey];
      Forget(gameKey);
      LetGoPackage(wrapper.checksum);
    }

    method Forget(gameKey: string)
      requires Owned() && gameKey in byGameKey
      modifies this`byGameKey
      ensures Owned() && byGameKey == old(byGameKey) - {gameKey}
      ensures Wrappers() == old(Wrappers()) - {gameKey} && Checksums() == old(Checksums()) - {gameKey}
      ensures Packages() == old(Packages())
    {
      ghost var w, cs, ps := Wrappers(), Checksums(), Packages();
      byGameKey := byGameKey - {gameKey};
      assert Wrappers() == w - {gameKey};
      assert Checksums() == cs - {gameKey};
      assert Packages() == ps;
    }

    /** Gives up one hold on each of `gameKeys`. */
    method Release(gameKeys: seq<string>)
      requires Valid()
      modifies this, repr
      ensures Valid() && held == old(held) - multiset(gameKeys) && repr == old(repr)
    {
      for i := 0 to |gameKeys|
        invariant Valid() && held == old(held) - multiset(gameKeys[..i]) && repr == old(repr)
      {
        assert gameKeys[..i + 1] == gameKeys[..i] + [gameKeys[i]];
        ReleaseOne(gameKeys[i]);
      }
      assert gameKeys[..|gameKeys|] == gameKeys;
    }
  }

  // A room's store ---------------------------------------------------------------------------

  function Entries(names: map<string, string>, packages: map<string, string>, games: seq<string>): string
    requires forall i :: 0 <= i < |games| ==> games[i] in packages && games[i] in names
  {
    if games == [] then ""
    else
      var last := games[|games| - 1];
      Entries(names, packages, games[..|games| - 1])
        + (if |games| > 1 then "," else "") + Entry(names[last], packages[last])
  }

  /** Where in the response the entry of a game begins. */
  function EntryStart(names: map<string, string>, packages: map<string, string>, games: seq<string>, i: nat): nat
    requires i <= |games| && forall j :: 0 <= j < |games| ==> games[j] in packages && games[j] in names
  {
    if i == 0 then 0
    else EntryStart(names, packages, games, i - 1) + |names[games[i - 1]]| + 1 + |packages[games[i - 1]]| + 1
  }

  /** What a text has from `o` on. */
  predicate HasAt(text: string, o: nat, part: string) {
    o + |part| <= |text| && text[o..o + |part|] == part
  }

  lemma {:induction false} StartInPrefix(names: map<string, string>, packages: map<string, string>,
                                         games: seq<string>, n: nat, i: nat)
    requires i <= n <= |games| && forall j :: 0 <= j < |games| ==> games[j] in packages && games[j] in names
    ensures EntryStart(names, packages, games[..n], i) == EntryStart(names, packages, games, i)
  {
    if i > 0 { StartInPrefix(names, packages, games, n, i - 1); }
  }

  lemma HasAtLonger(text: string, more: string, o: nat, part: string)
    requires HasAt(text, o, part)
    ensures HasAt(text + more, o, part)
  {
    assert (text + more)[o..o + |part|] == text[o..o + |part|];
  }

  lemma HasAtEnd(text: string, part: string, more: string)
    ensures HasAt(text + part + more, |text|, part)
  {
    assert (text + part + more)[|text|..|text| + |part|] == part;
  }

  /** The response has, for each game in turn, its name, a colon and its datapackage, with a comma between
      one game and the next. */
  lemma {:induction false} EachGameIsSent(names: map<string, string>, packages: map<string, string>,
                                          games: seq<string>, i: nat)
    requires i < |games| && forall j :: 0 <= j < |games| ==> games[j] in packages && games[j] in names
    ensures Sent(Entries(names, packages, games), EntryStart(names, packages, games, i), names[games[i]],
                 packages[games[i]], i == |games| - 1)
  {
    var n := |games| - 1;
    var before, entry := Entries(names, packages, games[..n]), Entry(names[games[n]], packages[games[n]]);
    if i < n {
      EachGameIsSent(names, packages, games[..n], i);
      StartInPrefix(names, packages, games, n, i);
      assert Entries(names, packages, games) == before + "," + entry;
      SentEarlier(before, EntryStart(names, packages, games, i), names[games[i]], packages[games[i]], i == n - 1,
                  entry);
    } else if n > 0 {
      EachGameIsSent(names, packages, games[..n], n - 1);
      StartInPrefix(names, packages, games, n, n - 1);
      assert EntryStart(names, packages, games, n) == |before| + 1;
      SentLast(before + ",", names[games[n]], packages[games[n]]);
    } else {
      assert Entries(names, packages, games) == "" + entry;
      SentLast("", names[games[n]], packages[games[n]]);
    }
  }

  /** `body` has the entry at `o`, and after it a comma, or nothing if it is the last. */
  predicate Sent(body: string, o: nat, name: string, package: string, last: bool) {
    && HasAt(body, o, name) && HasAt(body, o + |name|, ":") && HasAt(body, o + |name| + 1, package)
    && if last then o + |name| + 1 + |package| == |body| else HasAt(body, o + |name| + 1 + |package|, ",")
  }

  lemma SentLast(body: string, name: string, package: string)
    ensures Sent(body + Entry(name, package), |body|, name, package, true)
  {
    Assoc(name, ":", package);
    Assoc(body, name, ":" + package);
    Assoc(body + name, ":", package);
    var all := body + name + ":" + package;
    assert all + "" == all;
    HasAtEnd(body, name, ":" + package);
    HasAtEnd(body + name, ":", package);
    HasAtEnd(body + name + ":", package, "");
  }

  lemma SentEarlier(body: string, o: nat, name: string, package: string, last: bool, more: string)
    requires Sent(body, o, name, package, last)
    ensures Sent(body + "," + more, o, name, package, false)
  {
    Assoc(body, ",", more);
    HasAtLonger(body, "," + more, o, name);
    HasAtLonger(body, "," + more, o + |name|, ":");
    HasAtLonger(body, "," + more, o + |name| + 1, package);
    if last {
      HasAtEnd(body, ",", more);
    } else {
      HasAtLonger(body, "," + more, o + |name| + 1 + |package|, ",");
    }
  }

  class DataPackageStore {
    const globalCache: GlobalDataPackageCache
    var packages: map<string, string>
    var singleResponses: map<string, string>
    var encodedGameNameKeys: map<string, string>
    var gameKeys: seq<string>

    constructor (globalCache: GlobalDataPackageCache)
      ensures this.globalCache == globalCache && gameKeys == [] && packages == map[] && Consistent()
    {
      this.globalCache, gameKeys := globalCache, [];
      packages, singleResponses, encodedGameNameKeys := map[], map[], map[];
    }

    /** What the store copied out of the cache for each game. */
    ghost predicate Consistent()
      reads this
    {
      && packages.Keys == encodedGameNameKeys.Keys == singleResponses.Keys
      && forall game :: game in packages ==>
           singleResponses[game] == HEADER + Entry(encodedGameNameKeys[game], packages[game]) + FOOTER
    }

    method AddDataPackage(game: string, checksum: string, encoded: string, encodedGameName: string)
      requires Consistent() && globalCache.Valid() && NoColon(checksum) && this !in globalCache.repr
      modifies this, globalCache, globalCache.repr
      ensures Consistent() && globalCache.Valid() && fresh(globalCache.repr - old(globalCache.repr))
      ensures globalCache.held == old(globalCache.held) + multiset{GameKey(checksum, game)}
      ensures gameKeys == old(gameKeys) + [GameKey(checksum, game)]
      ensures GameKey(checksum, game) in globalCache.byGameKey
      ensures packages == old(packages)[game := globalCache.byGameKey[GameKey(checksum, game)].datapackage.encoded]
      ensures encodedGameNameKeys ==
                old(encodedGameNameKeys)[game := globalCache.byGameKey[GameKey(checksum, game)].encodedGameName]
    {
      var wrapper := globalCache.GetOrAdd(checksum, game, encoded, encodedGameName);
      AttachWrapper(game, wrapper);
    }

    method AttachWrapper(game: string, wrapper: CachedGameDataPackage)
      requires Consistent()
      modifies this
      ensures Consistent()
      ensures packages == old(packages)[game := wrapper.datapackage.encoded]
      ensures encodedGameNameKeys == old(encodedGameNameKeys)[game := wrapper.encodedGameName]
      ensures gameKeys == old(gameKeys) + [GameKey(wrapper.checksum, game)]
    {
      packages := packages[game := wrapper.datapackage.encoded];
      encodedGameNameKeys := encodedGameNameKeys[game := wrapper.encodedGameName];
      gameKeys := gameKeys + [wrapper.checksum + ":" + game];
      singleResponses := singleResponses[game := wrapper.singleResponse];
    }

    method Release()
      requires globalCache.Valid()
      modifies globalCache, globalCache.repr
      ensures globalCache.Valid() && globalCache.repr == old(globalCache.repr)
      ensures globalCache.held == old(globalCache.held) - multiset(old(gameKeys))
    {
      globalCache.Release(gameKeys);
    }

    ghost predicate Known(games: seq<string>)
      reads this
    {
      forall i :: 0 <= i < |games| ==> games[i] in packages
    }

    /** The size of the response, made ready before it is written. */
    method ResponseSize(games: seq<string>) returns (r: Result<int, string>)
      requires Consistent()
      ensures r.Ok? <==> Known(games)
      ensures r.Err? ==> r.error in games && r.error !in packages
      ensures r.Ok? ==> r.value == |HEADER| + |FOOTER| + |Entries(encodedGameNameKeys, packages, games)|
                                   - if games == [] then 1 else 0
    {
      var size := |HEADER| + |FOOTER| + |games| - 1;
      for i := 0 to |games|
        invariant Known(games[..i])
        invariant size == |HEADER| + |FOOTER| + |games| - 1
                          + |Entries(encodedGameNameKeys, packages, games[..i])| - (if i > 1 then i - 1 else 0)
      {
        if games[i] !in packages {
          return Err(games[i]);
        }
        assert games[..i + 1][..i] == games[..i];
        size := size + |encodedGameNameKeys[games[i]]| + 1 + |packages[games[i]]|;
      }
      assert games[..|games|] == games;
      return Ok(size);
    }

    /** The response for `games`, with the buffer size that was set aside for it. It is the exact
        size, except that for no games it is one short. */
    method BuildResponse(games: seq<string>) returns (r: Result<string, string>, size: int)
      requires Consistent()
      ensures r.Ok? <==> Known(games)
      ensures r.Err? ==> r.error in games && r.error !in packages
      ensures r.Ok? ==> r.value == HEADER + Entries(encodedGameNameKeys, packages, games) + FOOTER
      ensures r.Ok? ==> |r.value| == if games == [] then size + 1 else size
      ensures r.Ok? && |games| == 1 ==> r.value == singleResponses[games[0]]
    {
      var estimate := ResponseSize(games);
      if estimate.Err? {
        return Err(estimate.error), 0;
      }
      size := estimate.value;
      var body := "";
      for i := 0 to |games|
        invariant body == Entries(encodedGameNameKeys, packages, games[..i])
      {
        assert games[..i + 1][..i] == games[..i];
        if i > 0 {
          body := body + ",";
        }
        body := body + Entry(encodedGameNameKeys[games[i]], packages[games[i]]);
      }
      assert games[..|games|] == games;
      if |games| == 1 {
        OneEntry(games);
      }
      return Ok(HEADER + body + FOOTER), size;
    }

    lemma OneEntry(games: seq<string>)
      requires Consistent() && |games| == 1 && games[0] in packages
      ensures Entries(encodedGameNameKeys, packages, games) == Entry(encodedGameNameKeys[games[0]], packages[games[0]])
    {
      assert games[..0] == [];
      assert Entries(encodedGameNameKeys, packages, games[..0]) == "";
    }
  }

  // Stores over a run -------------------------------------------------------------------------

  /** Stores take keys one at a time, and being released leaves a store with none. */
  datatype Op = Take(store: nat, key: string) | Drop(store: nat)

  function Total(stores: seq<seq<string>>): multiset<string> {
    if stores == [] then multiset{} else Total(stores[..|stores| - 1]) + multiset(stores[|stores| - 1])
  }

  function StoresAfter(stores: seq<seq<string>>, op: Op): seq<seq<string>>
    requires op.store < |stores|
  {
    match op
    case Take(i, key) => stores[i := stores[i] + [key]]
    case Drop(i) => stores[i := []]
  }

  /** What `GetOrAdd` and `Release` do to the keys held. */
  function HeldAfter(held: multiset<string>, stores: seq<seq<string>>, op: Op): multiset<string>
    requires op.store < |stores|
  {
    match op
    case Take(i, key) => held + multiset{key}
    case Drop(i) => held - multiset(stores[i])
  }

  lemma {:induction false} TotalChange(stores: seq<seq<string>>, i: nat, x: seq<string>)
    requires i < |stores|
    ensures multiset(stores[i]) <= Total(stores)
    ensures Total(stores[i := x]) == Total(stores) - multiset(stores[i]) + multiset(x)
  {
    var n := |stores| - 1;
    if i < n {
      TotalChange(stores[..n], i, x);
      assert stores[i := x][..n] == stores[..n][i := x];
    } else {
      assert stores[i := x][..n] == stores[..n];
    }
  }

  /** Whatever stores take and release, the keys held are those of the stores that were not
      released; so once all are released, the cache, which is `Valid`, is empty
      (`GlobalDataPackageCache.NothingHeldNothingCached`). */
  lemma HeldIsTotal(held: multiset<string>, stores: seq<seq<string>>, op: Op)
    requires held == Total(stores) && op.store < |stores|
    ensures HeldAfter(held, stores, op) == Total(StoresAfter(stores, op))
  {
    match op
    case Take(i, key) => TotalChange(stores, i, stores[i] + [key]);
    case Drop(i) => TotalChange(stores, i, []);
  }

  lemma {:induction false} AllReleasedNothingHeld(stores: seq<seq<string>>)
    requires forall i :: 0 <= i < |stores| ==> stores[i] == []
    ensures Total(stores) == multiset{}
  {
    if stores != [] { AllReleasedNothingHeld(stores[..|stores| - 1]); }
  }

  /** Every store is released at most once, and not used afterwards. */
  ghost predicate OpsOk(ops: seq<Op>, n: nat) {
    && (forall k :: 0 <= k < |ops| ==> ops[k].store < n)
    && (forall k, l :: 0 <= k < l < |ops| && ops[k].Drop? ==> ops[l].store != ops[k].store)
  }

  function StoresAt(n: nat, ops: seq<Op>): (stores: seq<seq<string>>)
    requires OpsOk(ops, n)
    ensures |stores| == n
  {
    if ops == [] then seq(n, i => [])
    else
      var last := ops[|ops| - 1];
      assert OpsOk(ops[..|ops| - 1], n);
      StoresAfter(StoresAt(n, ops[..|ops| - 1]), last)
  }

  function HeldAt(n: nat, ops: seq<Op>): multiset<string>
    requires OpsOk(ops, n)
  {
    if ops == [] then multiset{}
    else
      var before := ops[..|ops| - 1];
      assert OpsOk(before, n);
      HeldAfter(HeldAt(n, before), StoresAt(n, before), ops[|ops| - 1])
  }

  /** Over any run of `n` rooms: what is held is what the unreleased stores list, and once all of
      them are released nothing is. */
  lemma {:induction false} HeldOverRun(n: nat, ops: seq<Op>)
    requires OpsOk(ops, n)
    ensures HeldAt(n, ops) == Total(StoresAt(n, ops))
    ensures (forall i :: 0 <= i < n ==> StoresAt(n, ops)[i] == []) ==> HeldAt(n, ops) == multiset{}
  {
    if ops == [] {
      AllReleasedNothingHeld(StoresAt(n, ops));
    } else {
      var before := ops[..|ops| - 1];
      HeldOverRun(n, before);
      HeldIsTotal(HeldAt(n, before), StoresAt(n, before), ops[|ops| - 1]);
      if forall i :: 0 <= i < n ==> StoresAt(n, ops)[i] == [] { AllReleasedNothingHeld(StoresAt(n, ops)); }
    }
  }

  // Rooms over one cache ------------------------------------------------------------------------

  /** A room learns a game's datapackage, or is closed. */
  datatype RoomOp =
    | Learn(room: nat, game: string, checksum: string, encoded: string, encodedGameName: string)
    | Close(room: nat)

  function KeyOp(op: RoomOp): Op {
    match op
    case Learn(room, game, checksum, _, _) => Take(room, GameKey(checksum, game))
    case Close(room) => Drop(room)
  }

  function KeyOps(ops: seq<RoomOp>): (r: seq<Op>)
    ensures |r| == |ops|
  {
    seq(|ops|, i requires 0 <= i < |ops| => KeyOp(ops[i]))
  }

  ghost predicate RoomsOk(ops: seq<RoomOp>, n: nat) {
    OpsOk(KeyOps(ops), n) && forall k :: 0 <= k < |ops| && ops[k].Learn? ==> NoColon(ops[k].checksum)
  }

  ghost predicate Closed(ops: seq<RoomOp>, room: nat) {
    exists k :: 0 <= k < |ops| && ops[k] == Close(room)
  }

  /** The cache serves the stores, each of which keeps its own keys. */
  ghost predicate Serving(cache: GlobalDataPackageCache, stores: seq<DataPackageStore>, ops: seq<RoomOp>)
    requires OpsOk(KeyOps(ops), |stores|)
    reads cache, cache.repr, stores
  {
    && cache.Valid() && cache.held == HeldAt(|stores|, KeyOps(ops))
    && (forall i, j :: 0 <= i < j < |stores| ==> stores[i] != stores[j])
    && forall i: nat :: i < |stores| ==>
         && stores[i].globalCache == cache && stores[i] !in cache.repr && stores[i].Consistent()
         && (Closed(ops, i) || stores[i].gameKeys == StoresAt(|stores|, KeyOps(ops))[i])
  }

  lemma OneMoreOp(n: nat, ops: seq<RoomOp>, op: RoomOp)
    requires RoomsOk(ops + [op], n)
    ensures RoomsOk(ops, n) && KeyOp(op).store < n && !Closed(ops, KeyOp(op).store)
    ensures StoresAt(n, KeyOps(ops + [op])) == StoresAfter(StoresAt(n, KeyOps(ops)), KeyOp(op))
    ensures HeldAt(n, KeyOps(ops + [op])) == HeldAfter(HeldAt(n, KeyOps(ops)), StoresAt(n, KeyOps(ops)), KeyOp(op))
    ensures forall i :: Closed(ops + [op], i) <==> Closed(ops, i) || op == Close(i)
  {
    var more, before := KeyOps(ops + [op]), KeyOps(ops);
    assert more[..|more| - 1] == before && more[|more| - 1] == KeyOp(op);
    assert forall k :: 0 <= k < |ops| ==> (ops + [op])[k] == ops[k] && more[k] == before[k];
    forall i ensures Closed(ops + [op], i) <==> Closed(ops, i) || op == Close(i) {
      if Closed(ops, i) {
        var k :| 0 <= k < |ops| && ops[k] == Close(i);
        assert (ops + [op])[k] == Close(i);
      }
      if op == Close(i) { assert (ops + [op])[|ops|] == Close(i); }
    }
    assert more[|ops|] == KeyOp(op);
  }

  method Perform(cache: GlobalDataPackageCache, stores: seq<DataPackageStore>, ghost before: seq<RoomOp>, op: RoomOp)
    requires RoomsOk(before + [op], |stores|) && RoomsOk(before, |stores|) && Serving(cache, stores, before)
    modifies cache, cache.repr, stores
    ensures Serving(cache, stores, before + [op]) && fresh(cache.repr - old(cache.repr))
  {
    OneMoreOp(|stores|, before, op);
    match op {
      case Learn(room, game, checksum, encoded, encodedGameName) =>
        assert (before + [op])[|before|] == op;
        stores[room].AddDataPackage(game, checksum, encoded, encodedGameName);
      case Close(room) =>
        stores[room].Release();
    }
  }

  /** Over any run of any number of rooms that share a cache: a wrapper is cached exactly when some
      store that was not released holds its key, and counts how often; a datapackage counts the
      wrappers on it; and once all stores are released nothing is cached. */
  method ServeRooms(n: nat, ops: seq<RoomOp>) returns (cache: GlobalDataPackageCache)
    requires RoomsOk(ops, n)
    ensures fresh(cache) && cache.Valid()
    ensures CountsOk(Total(StoresAt(n, KeyOps(ops))), cache.Wrappers(), cache.Checksums(), cache.Packages())
    ensures (forall i :: 0 <= i < n ==> StoresAt(n, KeyOps(ops))[i] == []) ==>
      cache.byGameKey == map[] && cache.byChecksum == map[]
  {
    cache := new GlobalDataPackageCache();
    var stores: seq<DataPackageStore> := [];
    for i := 0 to n
      invariant |stores| == i && cache.Valid() && cache.held == multiset{} && cache.repr == {} && fresh(cache)
      invariant forall j :: 0 <= j < i ==> fresh(stores[j])
      invariant forall j, k :: 0 <= j < k < i ==> stores[j] != stores[k]
      invariant forall j :: 0 <= j < i ==>
        stores[j].globalCache == cache && stores[j].Consistent() && stores[j].gameKeys == []
    {
      var store := new DataPackageStore(cache);
      stores := stores + [store];
    }
    assert KeyOps([]) == [];
    for i := 0 to |ops|
      invariant |stores| == n && RoomsOk(ops[..i], n) && Serving(cache, stores, ops[..i])
      invariant fresh(cache) && fresh(cache.repr) && forall j :: 0 <= j < n ==> fresh(stores[j])
    {
      assert ops[..i + 1] == ops[..i] + [ops[i]];
      PrefixOk(n, ops, i + 1);
      Perform(cache, stores, ops[..i], ops[i]);
    }
    assert ops[..|ops|] == ops;
    HeldOverRun(n, KeyOps(ops));
    if forall i :: 0 <= i < n ==> StoresAt(n, KeyOps(ops))[i] == [] { cache.NothingHeldNothingCached(); }
  }

  lemma PrefixOk(n: nat, ops: seq<RoomOp>, i: nat)
    requires RoomsOk(ops, n) && i <= |ops|
    ensures RoomsOk(ops[..i], n)
  {
    assert forall k :: 0 <= k < i ==> KeyOps(ops[..i])[k] == KeyOps(ops)[k];
  }
}
