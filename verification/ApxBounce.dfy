/** Who may send bounces to whom (apx/bounce.go). */
module ApxBounce {
  /** In milliseconds. */
  const DEATHLINK_THROTTLE := 2000

  class BounceInfoStore {
    var counts: map<int, nat>
    var probability: real
    var excludedByTag: map<int, set<string>>
    var ownSlotOnly: set<int>
    var lastDeathlink: int

    constructor (now: int)
      ensures counts == map[] && probability == 1.0 && excludedByTag == map[] && ownSlotOnly == {}
      ensures lastDeathlink == now - DEATHLINK_THROTTLE
      ensures Tidy()
    {
      counts, probability, excludedByTag, ownSlotOnly := map[], 1.0, map[], {};
      lastDeathlink := now - DEATHLINK_THROTTLE;
    }

    /** A slot without exclusions has no entry. */
    ghost predicate Tidy()
      reads this
    {
      forall slot :: slot in excludedByTag ==> excludedByTag[slot] != {}
    }

    function Exclusions(): (r: set<(int, string)>)
      reads this
      ensures forall slot, tag :: (slot, tag) in r <==> Excluded(slot, tag)
    {
      set slot, tag | slot in excludedByTag && tag in excludedByTag[slot] :: (slot, tag)
    }

    predicate Excluded(slotId: int, tag: string)
      reads this
    {
      slotId in excludedByTag && tag in excludedByTag[slotId]
    }

    predicate Limited(slotId: int)
      reads this
    {
      slotId in ownSlotOnly
    }

    method ExcludeByTag(slotId: int, tag: string)
      requires Tidy()
      modifies this`excludedByTag
      ensures Tidy() && Exclusions() == old(Exclusions()) + {(slotId, tag)}
    {
      if slotId !in excludedByTag {
        excludedByTag := excludedByTag[slotId := {}];
      }
      excludedByTag := excludedByTag[slotId := excludedByTag[slotId] + {tag}];
    }

    method UnexcludeByTag(slotId: int, tag: string)
      requires Tidy()
      modifies this`excludedByTag
      ensures Tidy() && Exclusions() == old(Exclusions()) - {(slotId, tag)}
    {
      if slotId in excludedByTag {
        excludedByTag := excludedByTag[slotId := excludedByTag[slotId] - {tag}];
      }
      assert forall s, t :: Excluded(s, t) <==> old(Excluded(s, t)) && (s, t) != (slotId, tag);
      if slotId !in excludedByTag || excludedByTag[slotId] == {} {
        assert forall t :: !Excluded(slotId, t);
        excludedByTag := excludedByTag - {slotId};
      }
    }

    method LimitToOwnSlot(slotId: int)
      modifies this`ownSlotOnly
      ensures ownSlotOnly == old(ownSlotOnly) + {slotId}
    {
      ownSlotOnly := ownSlotOnly + {slotId};
    }

    method RemoveLimitToOwnSlot(slotId: int)
      modifies this`ownSlotOnly
      ensures ownSlotOnly == old(ownSlotOnly) - {slotId}
    {
      ownSlotOnly := ownSlotOnly - {slotId};
    }

    method Add(slotId: int)
      modifies this`counts
      ensures counts == old(counts)[slotId := Count(old(counts), slotId) + 1]
    {
      counts := counts[slotId := Count(counts, slotId) + 1];
    }

    method SetProbability(p: real)
      modifies this`probability
      ensures probability == p
    {
      probability := p;
    }

    method CanSendDeathlink(now: int) returns (ok: bool)
      modifies this`lastDeathlink
      ensures (ok, lastDeathlink) == Throttle(old(lastDeathlink), now)
    {
      if now - lastDeathlink < DEATHLINK_THROTTLE {
        return false;
      }
      lastDeathlink := now;
      return true;
    }
  }

  function Count(counts: map<int, nat>, slotId: int): nat {
    if slotId in counts then counts[slotId] else 0
  }

  function Throttle(last: int, now: int): (bool, int) {
    if now - last < DEATHLINK_THROTTLE then (false, last) else (true, now)
  }

  /** The times, of those asked at, that were let through. */
  function LetThrough(last: int, asked: seq<int>): seq<int>
    decreases |asked|
  {
    if asked == [] then []
    else
      var (ok, next) := Throttle(last, asked[0]);
      (if ok then [asked[0]] else []) + LetThrough(next, asked[1..])
  }

  /** However the deathlinks come in, the ones let through are a throttle apart, and one that
      was refused came within a throttle of one let through. */
  lemma {:induction false} DeathlinksAreThrottled(last: int, asked: seq<int>)
    requires forall i :: 0 <= i < |asked| ==> last <= asked[i]
    requires forall i, j :: 0 <= i < j < |asked| ==> asked[i] <= asked[j]
    ensures var sent := LetThrough(last, asked);
      && (sent != [] ==> sent[0] - last >= DEATHLINK_THROTTLE)
      && (forall i :: 0 < i < |sent| ==> sent[i] - sent[i - 1] >= DEATHLINK_THROTTLE)
      && (forall t :: t in asked && t !in sent ==>
            exists u :: (u == last || u in sent) && Near(t, u))
    decreases |asked|
  {
    if asked != [] {
      var (ok, next) := Throttle(last, asked[0]);
      DeathlinksAreThrottled(next, asked[1..]);
      var rest := LetThrough(next, asked[1..]);
      var sent := LetThrough(last, asked);
      assert sent == if ok then [asked[0]] + rest else rest;
      forall t | t in asked && t !in sent ensures exists u :: (u == last || u in sent) && Near(t, u) {
        if t == asked[0] {
          assert Near(t, last);
        } else {
          assert t in asked[1..] && t !in rest;
          var u :| (u == next || u in rest) && Near(t, u);
          assert u == last || u in sent;
        }
      }
    }
  }

  predicate Near(t: int, u: int) {
    0 <= t - u < DEATHLINK_THROTTLE
  }
}
