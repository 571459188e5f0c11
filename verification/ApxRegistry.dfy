/** The registry of connected clients and the routing of bounces over it (apx/server.go). A
    client is immutable and told apart by `ref`, its address. */
module ApxRegistry {
  import opened Prelude
  import opened ApxBounce

  datatype Client = Client(ref: nat, slotId: int, game: string)

  datatype Bounce = Bounce(tags: Option<seq<string>>, games: Option<seq<string>>, slots: Option<seq<int>>)

  function Lookup<K, V>(m: map<K, seq<V>>, k: K): seq<V> {
    if k in m then m[k] else []
  }

  function TagsOf(tags: map<Client, seq<string>>, c: Client): seq<string> {
    Lookup(tags, c)
  }

  /** `removeClient`: without the first occurrence. */
  function Without(s: seq<Client>, c: Client): seq<Client> {
    if s == [] then []
    else if s[0] == c then s[1..] else [s[0]] + Without(s[1..], c)
  }

  function Times<T(==)>(s: seq<T>, x: T): nat { multiset(s)[x] }

  lemma {:induction false} WithoutCounts(s: seq<Client>, c: Client, d: Client)
    ensures Times(Without(s, c), d) == if d == c && Times(s, d) > 0 then Times(s, d) - 1 else Times(s, d)
  {
    if s != [] {
      assert s == [s[0]] + s[1..];
      if s[0] != c { WithoutCounts(s[1..], c, d); }
    }
  }

  // What the three indexes say about the tag table, which lists the live clients ------------

  ghost predicate TagAgrees(tags: map<Client, seq<string>>, byTag: map<string, seq<Client>>, tag: string, c: Client) {
    Times(Lookup(byTag, tag), c) == Times(TagsOf(tags, c), tag)
  }

  ghost predicate TagsAgree(tags: map<Client, seq<string>>, byTag: map<string, seq<Client>>) {
    forall tag, c :: TagAgrees(tags, byTag, tag, c)
  }

  ghost predicate GameAgrees(tags: map<Client, seq<string>>, byGame: map<string, seq<Client>>, game: string,
                             c: Client)
  {
    Times(Lookup(byGame, game), c) == if c in tags && c.game == game then 1 else 0
  }

  ghost predicate GamesAgree(tags: map<Client, seq<string>>, byGame: map<string, seq<Client>>) {
    forall game, c :: GameAgrees(tags, byGame, game, c)
  }

  ghost predicate SlotAgrees(tags: map<Client, seq<string>>, clients: map<int, seq<Client>>, slot: int, c: Client) {
    Times(Lookup(clients, slot), c) == if c in tags && c.slotId == slot then 1 else 0
  }

  ghost predicate SlotsAgree(tags: map<Client, seq<string>>, clients: map<int, seq<Client>>) {
    && (forall slot, c :: SlotAgrees(tags, clients, slot, c))
    && (forall slot :: slot in clients ==> clients[slot] != [])
  }

  /** A map with one list replaced, or removed when it is empty and `prune` is set. */
  function Replace<K>(m: map<K, seq<Client>>, k: K, list: seq<Client>, prune: bool): map<K, seq<Client>> {
    if prune && list == [] then m - {k} else m[k := list]
  }

  lemma LookupReplaced<K>(m: map<K, seq<Client>>, k: K, list: seq<Client>, prune: bool)
    ensures forall x :: Lookup(Replace(m, k, list, prune), x) == if x == k then list else Lookup(m, x)
  {
  }

  lemma AppendTag(tags: map<Client, seq<string>>, byTag: map<string, seq<Client>>, client: Client,
                  done: seq<string>, tag: string)
    requires TagsAgree(tags[client := done], byTag)
    ensures TagsAgree(tags[client := done + [tag]], byTag[tag := Lookup(byTag, tag) + [client]])
  {
    var tags', byTag' := tags[client := done + [tag]], byTag[tag := Lookup(byTag, tag) + [client]];
    forall t, c ensures TagAgrees(tags', byTag', t, c) {
      assert TagAgrees(tags[client := done], byTag, t, c);
    }
  }

  lemma RemoveTag(tags: map<Client, seq<string>>, byTag: map<string, seq<Client>>, client: Client,
                  todo: seq<string>, prune: bool)
    requires todo != [] && TagsAgree(tags[client := todo], byTag)
    ensures TagsAgree(tags[client := todo[1..]],
                      Replace(byTag, todo[0], Without(Lookup(byTag, todo[0]), client), prune))
  {
    var list := Without(Lookup(byTag, todo[0]), client);
    var tags', byTag' := tags[client := todo[1..]], Replace(byTag, todo[0], list, prune);
    LookupReplaced(byTag, todo[0], list, prune);
    forall t, c ensures TagAgrees(tags', byTag', t, c) {
      assert TagAgrees(tags[client := todo], byTag, t, c);
      HeadCounts(todo, t);
      WithoutCounts(Lookup(byTag, todo[0]), client, c);
    }
  }

  lemma HeadCounts(todo: seq<string>, t: string)
    requires todo != []
    ensures Times(todo, t) == Times(todo[1..], t) + if t == todo[0] then 1 else 0
  {
    assert todo == [todo[0]] + todo[1..];
  }

  lemma SameTags(tags: map<Client, seq<string>>, tags': map<Client, seq<string>>, byTag: map<string, seq<Client>>)
    requires TagsAgree(tags, byTag) && forall c :: TagsOf(tags', c) == TagsOf(tags, c)
    ensures TagsAgree(tags', byTag)
  {
    forall t, c ensures TagAgrees(tags', byTag, t, c) { assert TagAgrees(tags, byTag, t, c); }
  }

  lemma AddGame(tags: map<Client, seq<string>>, byGame: map<string, seq<Client>>, client: Client, mine: seq<string>)
    requires GamesAgree(tags, byGame) && client !in tags
    ensures GamesAgree(tags[client := mine], byGame[client.game := Lookup(byGame, client.game) + [client]])
  {
    var tags', byGame' := tags[client := mine], byGame[client.game := Lookup(byGame, client.game) + [client]];
    forall g, c ensures GameAgrees(tags', byGame', g, c) { assert GameAgrees(tags, byGame, g, c); }
  }

  lemma RemoveGame(tags: map<Client, seq<string>>, byGame: map<string, seq<Client>>, client: Client, prune: bool)
    requires GamesAgree(tags, byGame)
    ensures GamesAgree(tags - {client},
                       Replace(byGame, client.game, Without(Lookup(byGame, client.game), client), prune))
  {
    var list := Without(Lookup(byGame, client.game), client);
    var tags', byGame' := tags - {client}, Replace(byGame, client.game, list, prune);
    LookupReplaced(byGame, client.game, list, prune);
    forall g, c ensures GameAgrees(tags', byGame', g, c) {
      assert GameAgrees(tags, byGame, g, c);
      WithoutCounts(Lookup(byGame, client.game), client, c);
    }
  }

  lemma AddSlot(tags: map<Client, seq<string>>, clients: map<int, seq<Client>>, client: Client, mine: seq<string>)
    requires SlotsAgree(tags, clients) && client !in tags
    ensures SlotsAgree(tags[client := mine], clients[client.slotId := Lookup(clients, client.slotId) + [client]])
  {
    var tags', clients' := tags[client := mine], clients[client.slotId := Lookup(clients, client.slotId) + [client]];
    forall s, c ensures SlotAgrees(tags', clients', s, c) { assert SlotAgrees(tags, clients, s, c); }
  }

  lemma RemoveSlot(tags: map<Client, seq<string>>, clients: map<int, seq<Client>>, client: Client)
    requires SlotsAgree(tags, clients)
    ensures SlotsAgree(tags - {client},
                       Replace(clients, client.slotId, Without(Lookup(clients, client.slotId), client), true))
  {
    var list := Without(Lookup(clients, client.slotId), client);
    var tags', clients' := tags - {client}, Replace(clients, client.slotId, list, true);
    LookupReplaced(clients, client.slotId, list, true);
    forall s, c ensures SlotAgrees(tags', clients', s, c) {
      assert SlotAgrees(tags, clients, s, c);
      WithoutCounts(Lookup(clients, client.slotId), client, c);
    }
    forall s | s in clients' ensures clients'[s] != [] {
      assert s != client.slotId ==> clients'[s] == clients[s];
    }
  }

  /** A slot's list has each of its live clients once. */
  lemma OfSlot(tags: map<Client, seq<string>>, clients: map<int, seq<Client>>, slotId: int)
    requires SlotsAgree(tags, clients)
    ensures NoDup(Lookup(clients, slotId))
    ensures forall c :: c in Lookup(clients, slotId) <==> c in tags && c.slotId == slotId
  {
    var s := Lookup(clients, slotId);
    forall c ensures multiset(s)[c] <= 1 && (c in s <==> c in tags && c.slotId == slotId) {
      assert SlotAgrees(tags, clients, slotId, c);
      assert c in s <==> c in multiset(s);
    }
    OncePerMember(s);
  }

  lemma OncePerMember(s: seq<Client>)
    requires forall c :: multiset(s)[c] <= 1
    ensures NoDup(s)
  {
    forall i, j | 0 <= i < j < |s| ensures s[i] != s[j] {
      assert s == s[..j] + [s[j]] + s[j + 1..];
      assert s[..j][i] in multiset(s[..j]);
      assert multiset(s)[s[j]] == multiset(s[..j])[s[j]] + 1 + multiset(s[j + 1..])[s[j]];
    }
  }

  /** Why `UpdateTags` is only for registered clients: giving tags to one that was kicked leaves
      it in the tag index, where bounces find it, while its slot does not list it any more. */
  lemma TaggingAKickedClientBreaksAgreement(tags: map<Client, seq<string>>, clients: map<int, seq<Client>>,
                                            client: Client, newTags: seq<string>)
    requires SlotsAgree(tags, clients)
    ensures SlotsAgree(tags[client := newTags], clients) <==> client in tags
  {
    assert SlotAgrees(tags, clients, client.slotId, client);
    var tags' := tags[client := newTags];
    if client in tags {
      forall s, c ensures SlotAgrees(tags', clients, s, c) { assert SlotAgrees(tags, clients, s, c); }
    } else {
      assert !SlotAgrees(tags', clients, client.slotId, client);
    }
  }

  function SlotClients(tags: map<Client, seq<string>>, slotId: int): set<Client> {
    set c | c in tags && c.slotId == slotId
  }

  lemma NoneLeft(tags: map<Client, seq<string>>, clients: map<int, seq<Client>>, slotId: int)
    requires SlotsAgree(tags, clients)
    ensures SlotsAgree(tags - SlotClients(tags, slotId), clients - {slotId})
  {
    var tags', clients' := tags - SlotClients(tags, slotId), clients - {slotId};
    forall s, c ensures SlotAgrees(tags', clients', s, c) { assert SlotAgrees(tags, clients, s, c); }
  }

  /** What a bounce asks of the clients that should get it. */
  predicate Matches(msg: Bounce, c: Client, tags: seq<string>) {
    || (msg.tags.Some? && exists i :: 0 <= i < |msg.tags.value| && msg.tags.value[i] in tags)
    || (msg.games.Some? && c.game in msg.games.value)
    || (msg.slots.Some? && c.slotId in msg.slots.value)
  }

  function StripTags(tags: seq<string>, excluded: set<string>): (r: seq<string>)
    ensures forall t :: t in r <==> t in tags && t !in excluded
  {
    if tags == [] then []
    else (if tags[0] in excluded then [] else [tags[0]]) + StripTags(tags[1..], excluded)
  }

  lemma CountsMatchMembers(s: seq<Client>, t: seq<string>, c: Client, tag: string)
    requires multiset(s)[c] == multiset(t)[tag]
    ensures c in s <==> tag in t
  {
    assert c in s <==> c in multiset(s);
    assert tag in t <==> tag in multiset(t);
  }

  class ConnectionRegistry {
    var clients: map<int, seq<Client>>
    var tags: map<Client, seq<string>>
    var clientsByGame: map<string, seq<Client>>
    var clientsByTag: map<string, seq<Client>>
    ghost var cancelled: set<Client>

    ghost predicate Valid()
      reads this
    {
      && TagsAgree(tags, clientsByTag)
      && GamesAgree(tags, clientsByGame)
      && SlotsAgree(tags, clients)
    }

    constructor ()
      ensures Valid() && tags == map[] && cancelled == {}
    {
      clients, tags, clientsByGame, clientsByTag, cancelled := map[], map[], map[], map[], {};
    }

    method AppendToTags(client: Client, newTags: seq<string>)
      requires TagsAgree(tags - {client}, clientsByTag)
      modifies this`clientsByTag
      ensures TagsAgree(tags[client := newTags], clientsByTag)
    {
      SameTags(tags - {client}, tags[client := []], clientsByTag);
      assert newTags[..0] == [];
      for i := 0 to |newTags|
        invariant TagsAgree(tags[client := newTags[..i]], clientsByTag)
      {
        assert newTags[..i + 1] == newTags[..i] + [newTags[i]];
        AppendTag(tags, clientsByTag, client, newTags[..i], newTags[i]);
        clientsByTag := clientsByTag[newTags[i] := Lookup(clientsByTag, newTags[i]) + [client]];
      }
      assert newTags[..|newTags|] == newTags;
    }

    /** Takes a client out of the lists of its tags, once for each time it has the tag; `prune`
        says whether lists that become empty go too. */
    method RemoveFromTags(client: Client, prune: bool)
      requires TagsAgree(tags, clientsByTag)
      modifies this`clientsByTag
      ensures TagsAgree(tags - {client}, clientsByTag)
    {
      var mine := TagsOf(tags, client);
      SameTags(tags, tags[client := mine[0..]], clientsByTag);
      for i := 0 to |mine|
        invariant TagsAgree(tags[client := mine[i..]], clientsByTag)
      {
        assert mine[i..][1..] == mine[i + 1..];
        RemoveTag(tags, clientsByTag, client, mine[i..], prune);
        ghost var before := clientsByTag;
        clientsByTag := clientsByTag[mine[i] := Without(Lookup(clientsByTag, mine[i]), client)];
        if prune && clientsByTag[mine[i]] == [] {
          clientsByTag := clientsByTag - {mine[i]};
        }
        assert clientsByTag == Replace(before, mine[i], Without(Lookup(before, mine[i]), client), prune);
      }
      SameTags(tags[client := mine[|mine|..]], tags - {client}, clientsByTag);
    }

    method Register(slotId: int, client: Client, game: string, newTags: seq<string>)
      requires Valid() && client !in tags && client.slotId == slotId && client.game == game
      modifies this
      ensures Valid() && cancelled == old(cancelled)
      ensures tags == old(tags)[client := newTags]
      ensures Lookup(clients, slotId) == Lookup(old(clients), slotId) + [client]
      ensures Lookup(clientsByGame, game) == Lookup(old(clientsByGame), game) + [client]
    {
      AddSlot(tags, clients, client, newTags);
      AddGame(tags, clientsByGame, client, newTags);
      SameTags(tags, tags[client := newTags] - {client}, clientsByTag);
      clients := clients[slotId := Lookup(clients, slotId) + [client]];
      tags := tags[client := newTags];
      clientsByGame := clientsByGame[game := Lookup(clientsByGame, game) + [client]];
      AppendToTags(client, newTags);
      assert tags == tags[client := newTags];
    }

    /** Replaces a client's tags. All indexes stay in agreement exactly when the client is registered:
        one that was kicked gets back into the tag index alone. */
    method UpdateTags(client: Client, newTags: seq<string>)
      requires Valid()
      modifies this`tags, this`clientsByTag
      ensures tags == old(tags)[client := newTags] && TagsAgree(tags, clientsByTag)
      ensures Valid() <==> client in old(tags)
    {
      RemoveFromTags(client, true);
      SameTags(tags - {client}, tags[client := newTags] - {client}, clientsByTag);
      tags := tags[client := newTags];
      AppendToTags(client, newTags);
      assert tags == tags[client := newTags];
      TaggingAKickedClientBreaksAgreement(old(tags), clients, client, newTags);
      if client in old(tags) {
        forall g, c ensures GameAgrees(tags, clientsByGame, g, c) { assert GameAgrees(old(tags), clientsByGame, g, c); }
      }
    }

    /** One turn of the loop of `Kick`. */
    method Disconnect(client: Client)
      requires TagsAgree(tags, clientsByTag) && GamesAgree(tags, clientsByGame)
      modifies this`cancelled, this`tags, this`clientsByTag, this`clientsByGame
      ensures TagsAgree(tags, clientsByTag) && GamesAgree(tags, clientsByGame)
      ensures tags == old(tags) - {client} && cancelled == old(cancelled) + {client}
    {
      cancelled := cancelled + {client};
      RemoveGame(tags, clientsByGame, client, false);
      clientsByGame := clientsByGame[client.game := Without(Lookup(clientsByGame, client.game), client)];
      RemoveFromTags(client, false);
      tags := tags - {client};
    }

    /** Disconnects every client of a slot. Lists of games and tags may be left empty. */
    method Kick(slotId: int)
      requires Valid()
      modifies this
      ensures Valid()
      ensures tags == old(tags) - SlotClients(old(tags), slotId)
      ensures cancelled == old(cancelled) + SlotClients(old(tags), slotId)
    {
      var kicked := Lookup(clients, slotId);
      OfSlot(tags, clients, slotId);
      for i := 0 to |kicked|
        invariant clients == old(clients)
        invariant tags == old(tags) - (set c | c in kicked[..i])
        invariant cancelled == old(cancelled) + set c | c in kicked[..i]
        invariant TagsAgree(tags, clientsByTag) && GamesAgree(tags, clientsByGame)
      {
        assert kicked[..i + 1] == kicked[..i] + [kicked[i]];
        Disconnect(kicked[i]);
      }
      assert kicked[..|kicked|] == kicked;
      assert (set c | c in kicked) == SlotClients(old(tags), slotId);
      clients := clients - {slotId};
      NoneLeft(old(tags), old(clients), slotId);
    }

    /** Does nothing for a client that is not there any more, such as one that was kicked. */
    method Unregister(client: Client)
      requires Valid()
      modifies this
      ensures Valid() && cancelled == old(cancelled)
      ensures tags == old(tags) - {client}
      ensures client !in old(tags) ==>
                (clients, clientsByGame, clientsByTag) == old((clients, clientsByGame, clientsByTag))
      ensures client in old(tags) ==>
                && Lookup(clients, client.slotId) == Without(Lookup(old(clients), client.slotId), client)
                && Lookup(clientsByGame, client.game) == Without(Lookup(old(clientsByGame), client.game), client)
    {
      OfSlot(tags, clients, client.slotId);
      if client !in Lookup(clients, client.slotId) {
        return;
      }
      RemoveSlot(tags, clients, client);
      RemoveGame(tags, clientsByGame, client, true);
      LookupReplaced(clients, client.slotId, Without(Lookup(clients, client.slotId), client), true);
      LookupReplaced(clientsByGame, client.game, Without(Lookup(clientsByGame, client.game), client), true);
      clients := clients[client.slotId := Without(clients[client.slotId], client)];
      if clients[client.slotId] == [] {
        clients := clients - {client.slotId};
      }
      assert clients ==
        Replace(old(clients), client.slotId, Without(Lookup(old(clients), client.slotId), client), true);
      var game := client.game;
      clientsByGame := clientsByGame[game := Without(Lookup(clientsByGame, game), client)];
      if clientsByGame[game] == [] {
        clientsByGame := clientsByGame - {game};
      }
      assert clientsByGame ==
        Replace(old(clientsByGame), game, Without(Lookup(old(clientsByGame), game), client), true);
      RemoveFromTags(client, true);
      tags := tags - {client};
    }

    /** The number of slots with a live client. */
    method ConnectedSlotCount() returns (n: nat)
      requires Valid()
      ensures n == |set c | c in tags :: c.slotId|
    {
      n := |clients|;
      forall slot ensures slot in clients <==> exists c :: c in tags && c.slotId == slot {
        OfSlot(tags, clients, slot);
        if slot in clients { assert clients[slot][0] in Lookup(clients, slot); }
      }
      assert clients.Keys == set c | c in tags :: c.slotId;
    }

    // Bounces -------------------------------------------------------------------------------

    /** The clients a list contributes: those on the right side of the sender that are not there
        already. Whoever is limited to its own slot is skipped for good. */
    method AddTargets(list: seq<Client>, senderSlot: int, own: bool, info: BounceInfoStore,
                      targets: seq<Client>, seen: set<Client>)
      returns (targets': seq<Client>, seen': set<Client>)
      requires NoDup(targets) && forall c :: c in targets <==> c in seen && (own || !info.Limited(c.slotId))
      ensures NoDup(targets') && forall c :: c in targets' <==> c in seen' && (own || !info.Limited(c.slotId))
      ensures forall c :: c in seen' <==> c in seen || (c in list && (c.slotId == senderSlot) == own)
    {
      targets', seen' := targets, seen;
      for i := 0 to |list|
        invariant NoDup(targets') && forall c :: c in targets' <==> c in seen' && (own || !info.Limited(c.slotId))
        invariant forall c :: c in seen' <==> c in seen || (c in list[..i] && (c.slotId == senderSlot) == own)
      {
        var c := list[i];
        assert list[..i + 1] == list[..i] + [c];
        if (c.slotId == senderSlot) != own || c in seen' {
          continue;
        }
        seen' := seen' + {c};
        if own || !info.Limited(c.slotId) {
          targets' := targets' + [c];
        }
      }
      assert list[..|list|] == list;
    }

    /** The targets of `broadcastBounceToSlot` (`own`) and of `broadcastBounce`: exactly the live
        clients on that side of the sender that match and are not limited, each once, however
        often the message repeats a tag, a game or a slot. */
    method Targets(msg: Bounce, senderSlot: int, own: bool, info: BounceInfoStore) returns (targets: seq<Client>)
      requires Valid()
      ensures NoDup(targets)
      ensures forall c :: c in targets <==>
                && c in tags && (c.slotId == senderSlot) == own
                && (own || !info.Limited(c.slotId))
                && Matches(msg, c, tags[c])
    {
      targets := [];
      var seen: set<Client> := {};
      if msg.tags.Some? {
        for i := 0 to |msg.tags.value|
          invariant NoDup(targets) && forall c :: c in targets <==> c in seen && (own || !info.Limited(c.slotId))
          invariant forall c :: c in seen <==>
                      c in tags && (c.slotId == senderSlot) == own
                      && exists j :: 0 <= j < i && msg.tags.value[j] in tags[c]
        {
          ghost var tag := msg.tags.value[i];
          forall c ensures c in Lookup(clientsByTag, tag) <==> c in tags && tag in tags[c] {
            assert TagAgrees(tags, clientsByTag, tag, c);
            CountsMatchMembers(Lookup(clientsByTag, tag), TagsOf(tags, c), c, tag);
          }
          targets, seen := AddTargets(Lookup(clientsByTag, msg.tags.value[i]), senderSlot, own, info, targets, seen);
        }
      }
      ghost var tagged := seen;
      if msg.games.Some? {
        for i := 0 to |msg.games.value|
          invariant NoDup(targets) && forall c :: c in targets <==> c in seen && (own || !info.Limited(c.slotId))
          invariant forall c :: c in seen <==>
                      c in tagged || (c in tags && (c.slotId == senderSlot) == own && c.game in msg.games.value[..i])
        {
          ghost var game := msg.games.value[i];
          forall c ensures c in Lookup(clientsByGame, game) <==> c in tags && c.game == game {
            assert GameAgrees(tags, clientsByGame, game, c);
            assert c in Lookup(clientsByGame, game) <==> c in multiset(Lookup(clientsByGame, game));
          }
          assert msg.games.value[..i + 1] == msg.games.value[..i] + [game];
          targets, seen := AddTargets(Lookup(clientsByGame, msg.games.value[i]), senderSlot, own, info, targets, seen);
        }
        assert msg.games.value[..|msg.games.value|] == msg.games.value;
      }
      ghost var gamed := seen;
      if msg.slots.Some? {
        for i := 0 to |msg.slots.value|
          invariant NoDup(targets) && forall c :: c in targets <==> c in seen && (own || !info.Limited(c.slotId))
          invariant forall c :: c in seen <==>
                      c in gamed || (c in tags && (c.slotId == senderSlot) == own && c.slotId in msg.slots.value[..i])
        {
          OfSlot(tags, clients, msg.slots.value[i]);
          assert msg.slots.value[..i + 1] == msg.slots.value[..i] + [msg.slots.value[i]];
          targets, seen := AddTargets(Lookup(clients, msg.slots.value[i]), senderSlot, own, info, targets, seen);
        }
        assert msg.slots.value[..|msg.slots.value|] == msg.slots.value;
      }
    }

    /** A bounce goes to the clients of the sender's own slot by what it asks for, and to those
        of other slots, unless one side is limited to its own slot, by what is left of it
        without the tags the sender may not use. Nobody gets it twice. */
    method BroadcastBounceFromSlot(msg: Bounce, senderSlot: int, info: BounceInfoStore)
      returns (own: seq<Client>, others: seq<Client>)
      requires Valid()
      ensures NoDup(own + others)
      ensures forall c :: c in own <==>
                c in tags && c.slotId == senderSlot && Matches(msg, c, tags[c])
      ensures forall c :: c in others <==>
                && c in tags && c.slotId != senderSlot
                && !info.Limited(senderSlot) && !info.Limited(c.slotId)
                && ( || (msg.tags.Some? && exists tag :: tag in msg.tags.value && tag in tags[c]
                                                        && !info.Excluded(senderSlot, tag))
                     || (msg.games.Some? && c.game in msg.games.value)
                     || (msg.slots.Some? && c.slotId in msg.slots.value))
    {
      own := Targets(msg, senderSlot, true, info);
      others := [];
      if info.Limited(senderSlot) {
        assert own + others == own;
        return;
      }
      var stripped := msg;
      if msg.tags.Some? {
        var excluded := if senderSlot in info.excludedByTag then info.excludedByTag[senderSlot] else {};
        stripped := msg.(tags := Some(StripTags(msg.tags.value, excluded)));
        forall c | c in tags
          ensures (exists i :: 0 <= i < |stripped.tags.value| && stripped.tags.value[i] in tags[c])
             <==> (exists tag :: tag in msg.tags.value && tag in tags[c] && !info.Excluded(senderSlot, tag))
        {
          SomeInBoth(stripped.tags.value, tags[c]);
        }
      }
      others := Targets(stripped, senderSlot, false, info);
      assert forall c :: c in own ==> c !in others;
    }
  }

  lemma SomeInBoth(a: seq<string>, b: seq<string>)
    ensures (exists i :: 0 <= i < |a| && a[i] in b) <==> (exists tag :: tag in a && tag in b)
  {
    if tag :| tag in a && tag in b {
      var i :| 0 <= i < |a| && a[i] == tag;
    }
  }
}
