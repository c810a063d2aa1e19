/** The LRU cache with expiry of internal/cache/lru.go. */
module LruCache {
  import opened Collections

  /** A stored value: nil or a string, and when it was stored. */
  datatype Entry = Entry(value: Option<string>, createdAt: int)

  /** `order` lists the keys from the most to the least recently used. */
  datatype Lru = Lru(maxSize: nat, ttl: int, entries: map<string, Entry>, order: seq<string>, hits: nat, misses: nat)

  const DEFAULT_TTL := 300_000_000_000

  function Fresh(maxSize: int, ttl: int): (c: Lru)
    ensures c.maxSize >= 1 && c.ttl > 0
    ensures c.maxSize == (if maxSize > 0 then maxSize else 100) && c.ttl == (if ttl > 0 then ttl else 5 * 60 * 1_000_000_000)
  {
    Lru(if maxSize <= 0 then 100 else maxSize, if ttl <= 0 then DEFAULT_TTL else ttl, map[], [], 0, 0)
  }

  function Remove(c: Lru, key: string): Lru {
    c.(entries := c.entries - {key}, order := Without(c.order, key))
  }

  function Expired(c: Lru, key: string, now: int): bool
    requires key in c.entries
  {
    now - c.entries[key].createdAt > c.ttl
  }

  function Lookup(c: Lru, key: string, now: int): (Lru, Option<string>) {
    if key !in c.entries then (c.(misses := c.misses + 1), None)
    else if Expired(c, key, now) then (Remove(c, key).(misses := c.misses + 1), None)
    else (c.(order := [key] + Without(c.order, key), hits := c.hits + 1), c.entries[key].value)
  }

  /** evictOldest until there is room. */
  function MakeRoom(c: Lru): (r: Lru)
    requires c.maxSize >= 1
    ensures |r.order| < c.maxSize && r.maxSize == c.maxSize && r.ttl == c.ttl
    ensures r.hits == c.hits && r.misses == c.misses
    decreases |c.order|
  {
    if |c.order| < c.maxSize then c
    else MakeRoom(c.(entries := c.entries - {c.order[|c.order| - 1]}, order := c.order[..|c.order| - 1]))
  }

  function Store(c: Lru, key: string, value: Option<string>, now: int): Lru
    requires c.maxSize >= 1
  {
    var e := Entry(value, now);
    if key in c.entries then c.(entries := c.entries[key := e], order := [key] + Without(c.order, key))
    else var r := MakeRoom(c); r.(entries := r.entries[key := e], order := [key] + r.order)
  }

  class LRUCache {
    const maxSize: nat
    const ttl: int
    var entries: map<string, Entry>
    var order: seq<string>
    var hits: nat
    var misses: nat

    function View(): Lru
      reads this
    {
      Lru(maxSize, ttl, entries, order, hits, misses)
    }

    constructor (maxSize: int, ttl: int)
      ensures View() == Fresh(maxSize, ttl)
    {
      this.maxSize := if maxSize <= 0 then 100 else maxSize;
      this.ttl := if ttl <= 0 then DEFAULT_TTL else ttl;
      entries, order, hits, misses := map[], [], 0, 0;
    }

    method MoveToFront(key: string)
      modifies `order
      ensures order == [key] + Without(old(order), key)
    {
      order := [key] + Without(order, key);
    }

    method RemoveElement(key: string)
      modifies `entries, `order
      ensures View() == Remove(old(View()), key)
    {
      entries := entries - {key};
      order := Without(order, key);
    }

    method Get(key: string, now: int) returns (value: Option<string>)
      modifies `entries, `order, `hits, `misses
      ensures (View(), value) == Lookup(old(View()), key, now)
    {
      if key !in entries {
        misses := misses + 1;
        return None;
      }
      var entry := entries[key];
      if now - entry.createdAt > ttl {
        RemoveElement(key);
        misses := misses + 1;
        return None;
      }
      MoveToFront(key);
      hits := hits + 1;
      return entry.value;
    }

    method Set(key: string, value: Option<string>, now: int)
      requires maxSize >= 1
      modifies `entries, `order
      ensures View() == Store(old(View()), key, value, now)
    {
      if key in entries {
        entries := entries[key := Entry(value, now)];
        MoveToFront(key);
        return;
      }
      while |order| >= maxSize
        invariant hits == old(hits) && misses == old(misses)
        invariant MakeRoom(View()) == MakeRoom(old(View()))
        decreases |order|
      {
        var oldest := order[|order| - 1];
        entries := entries - {oldest};
        order := order[..|order| - 1];
      }
      order := [key] + order;
      entries := entries[key := Entry(value, now)];
    }
  }

  // ---- Runs -------------------------------------------------------------------------------

  datatype Event = Getting(key: string, now: int) | Setting(key: string, value: Option<string>, now: int)

  function Step(c: Lru, e: Event): Lru
    requires c.maxSize >= 1
  {
    match e
    case Getting(key, now) => Lookup(c, key, now).0
    case Setting(key, value, now) => Store(c, key, value, now)
  }

  function After(c: Lru, events: seq<Event>): (r: Lru)
    requires c.maxSize >= 1
    ensures r.maxSize == c.maxSize && r.ttl == c.ttl
  {
    if events == [] then c else Step(After(c, events[..|events| - 1]), events[|events| - 1])
  }

  ghost function Gets(events: seq<Event>): nat {
    if events == [] then 0
    else Gets(events[..|events| - 1]) + (if events[|events| - 1].Getting? then 1 else 0)
  }

  /** The number of the last event that names the key, or 0. */
  ghost function LastUse(events: seq<Event>, key: string): nat {
    if events == [] then 0
    else if events[|events| - 1].key == key then |events|
    else LastUse(events[..|events| - 1], key)
  }

  /** The entry of the last event that set the key, if any did. */
  ghost function LastSet(events: seq<Event>, key: string): Option<Entry> {
    if events == [] then None
    else
      var e := events[|events| - 1];
      if e.Setting? && e.key == key then Some(Entry(e.value, e.now)) else LastSet(events[..|events| - 1], key)
  }

  /** Strictly decreasing last use, hence no key twice. */
  ghost predicate ByLastUse(events: seq<Event>, order: seq<string>) {
    order == [] || (
      && (forall k :: k in order[1..] ==> LastUse(events, k) < LastUse(events, order[0]))
      && ByLastUse(events, order[1..]))
  }

  /** The invariant of every run from a fresh cache. */
  ghost predicate Inv(events: seq<Event>, c: Lru) {
    && (forall k :: k in c.order <==> k in c.entries)
    && ByLastUse(events, c.order)
    && (forall k :: k in c.entries ==> LastSet(events, k) == Some(c.entries[k]))
    && |c.order| <= c.maxSize
    && c.hits + c.misses == Gets(events)
  }

  lemma {:induction false} LastUseBound(events: seq<Event>, key: string)
    ensures LastUse(events, key) <= |events|
  {
    if events != [] {
      LastUseBound(events[..|events| - 1], key);
    }
  }

  /** Removing a key keeps the order, and the key is gone. */
  lemma {:induction false} WithoutKeeps(events: seq<Event>, order: seq<string>, key: string)
    requires ByLastUse(events, order)
    ensures ByLastUse(events, Without(order, key))
    ensures forall k :: k in Without(order, key) <==> k in order && k != key
  {
    hide LastUse;
    if order != [] {
      WithoutKeeps(events, order[1..], key);
      assert order == [order[0]] + order[1..];
      if order[0] != key {
        assert Without(order, key)[1..] == Without(order[1..], key);
      }
    }
  }

  /** An event leaves the order of the other keys alone. */
  lemma {:induction false} EventKeeps(events: seq<Event>, e: Event, order: seq<string>)
    requires ByLastUse(events, order) && e.key !in order
    ensures ByLastUse(events + [e], order)
  {
    if order != [] {
      EventKeeps(events, e, order[1..]);
      forall k | k in order ensures LastUse(events + [e], k) == LastUse(events, k) {
        assert (events + [e])[..|events|] == events;
      }
      assert forall k :: k in order[1..] ==> k in order;
    }
  }

  /** The key of the latest event goes to the front. */
  lemma FrontKeeps(events: seq<Event>, e: Event, order: seq<string>)
    requires ByLastUse(events, order) && e.key !in order
    ensures ByLastUse(events + [e], [e.key] + order)
  {
    EventKeeps(events, e, order);
    var all := events + [e];
    assert all[..|events|] == events;
    assert ([e.key] + order)[1..] == order;
    forall k | k in order ensures LastUse(all, k) < LastUse(all, e.key) {
      LastUseBound(events, k);
    }
  }

  lemma {:induction false} PrefixKeeps(events: seq<Event>, order: seq<string>)
    requires ByLastUse(events, order) && order != []
    ensures ByLastUse(events, order[..|order| - 1])
    ensures forall k :: k in order <==> k in order[..|order| - 1] || k == order[|order| - 1]
    ensures forall k :: k in order[..|order| - 1] ==> LastUse(events, order[|order| - 1]) < LastUse(events, k)
  {
    hide LastUse;
    var init, last := order[..|order| - 1], order[|order| - 1];
    assert order == init + [last];
    if |order| > 1 {
      PrefixKeeps(events, order[1..]);
      assert order[1..][..|order[1..]| - 1] == init[1..];
      assert order[1..][|order[1..]| - 1] == last && last in order[1..];
    }
  }

  /** At capacity the least recently used key makes room, and no other does. */
  lemma MakeRoomEvicts(events: seq<Event>, c: Lru)
    requires Inv(events, c) && c.maxSize >= 1
    ensures |c.order| < c.maxSize ==> MakeRoom(c) == c
    ensures |c.order| == c.maxSize ==>
              var victim := c.order[|c.order| - 1];
              && MakeRoom(c) == c.(entries := c.entries - {victim}, order := c.order[..|c.order| - 1])
              && (forall k :: k in c.entries && k != victim ==> LastUse(events, victim) < LastUse(events, k))
    ensures Inv(events, MakeRoom(c))
  {
    hide LastUse, LastSet, Gets;
    if |c.order| == c.maxSize {
      PrefixKeeps(events, c.order);
      var r := c.(entries := c.entries - {c.order[|c.order| - 1]}, order := c.order[..|c.order| - 1]);
      assert MakeRoom(c) == MakeRoom(r) == r;
    }
  }

  lemma GetKeeps(events: seq<Event>, c: Lru, key: string, now: int)
    requires Inv(events, c)
    ensures Inv(events + [Getting(key, now)], Lookup(c, key, now).0)
  {
    hide Inv, Without;
    if key !in c.entries {
      GetMisses(events, c, c, Getting(key, now));
    } else if Expired(c, key, now) {
      RemoveKeeps(events, c, key);
      GetMisses(events, c, Remove(c, key), Getting(key, now));
    } else {
      GetHits(events, c, key, now);
    }
  }

  lemma RemoveKeeps(events: seq<Event>, c: Lru, key: string)
    requires Inv(events, c)
    ensures Inv(events, Remove(c, key)) && key !in Remove(c, key).entries
  {
    hide LastUse, Gets, LastSet, ByLastUse;
    WithoutKeeps(events, c.order, key);
  }

  lemma GetMisses(events: seq<Event>, c: Lru, r: Lru, e: Event)
    requires Inv(events, r) && e.Getting? && e.key !in r.entries && c.misses == r.misses
    ensures Inv(events + [e], r.(misses := c.misses + 1))
  {
    hide LastUse, Gets, LastSet, ByLastUse;
    EventFrame(events, e);
    EventKeeps(events, e, r.order);
  }

  lemma GetHits(events: seq<Event>, c: Lru, key: string, now: int)
    requires Inv(events, c) && key in c.entries
    ensures Inv(events + [Getting(key, now)], c.(order := [key] + Without(c.order, key), hits := c.hits + 1))
  {
    hide LastUse, Gets, LastSet, ByLastUse, Without;
    var e, rest := Getting(key, now), Without(c.order, key);
    EventFrame(events, e);
    WithoutKeeps(events, c.order, key);
    FrontKeeps(events, e, rest);
    FrontMembers(key, rest);
  }

  lemma FrontMembers(key: string, rest: seq<string>)
    ensures forall k :: k in [key] + rest <==> k == key || k in rest
  {
  }

  lemma SetKeeps(events: seq<Event>, c: Lru, key: string, value: Option<string>, now: int)
    requires Inv(events, c) && c.maxSize >= 1
    ensures Inv(events + [Setting(key, value, now)], Store(c, key, value, now))
  {
    hide LastUse, Gets, LastSet, MakeRoom, ByLastUse;
    WithoutKeeps(events, c.order, key);
    if key in c.entries {
      PutFront(events, c, Without(c.order, key), Setting(key, value, now));
    } else {
      MakeRoomEvicts(events, c);
      var r := MakeRoom(c);
      assert key !in r.entries by { hide Inv; }
      PutFront(events, r, r.order, Setting(key, value, now));
    }
  }

  lemma PutFront(events: seq<Event>, c: Lru, order: seq<string>, e: Event)
    requires Inv(events, c) && e.Setting? && ByLastUse(events, order) && |order| < c.maxSize
    requires forall k :: k in order <==> k in c.entries && k != e.key
    ensures Inv(events + [e], c.(entries := c.entries[e.key := Entry(e.value, e.now)], order := [e.key] + order))
  {
    hide LastUse, Gets, LastSet, ByLastUse;
    EventFrame(events, e);
    FrontKeeps(events, e, order);
  }

  lemma EventFrame(events: seq<Event>, e: Event)
    ensures Gets(events + [e]) == Gets(events) + if e.Getting? then 1 else 0
    ensures forall k :: LastSet(events + [e], k) ==
                        if e.Setting? && k == e.key then Some(Entry(e.value, e.now)) else LastSet(events, k)
  {
    assert (events + [e])[..|events|] == events;
  }

  /** In every reachable state: map and list hold the same keys, the list in
      strictly decreasing last use; every entry is the last one set for its key;
      the size is within bounds; hits and misses add up to the gets. */
  lemma {:induction false} RunInvariant(maxSize: int, ttl: int, events: seq<Event>)
    ensures Inv(events, After(Fresh(maxSize, ttl), events))
  {
    hide Lookup, Store;
    var c := Fresh(maxSize, ttl);
    if events != [] {
      var init, e := events[..|events| - 1], events[|events| - 1];
      RunInvariant(maxSize, ttl, init);
      assert events == init + [e];
      match e
      case Getting(key, now) => GetKeeps(init, After(c, init), key, now);
      case Setting(key, value, now) => SetKeeps(init, After(c, init), key, value, now);
    }
  }

  /** A get returns the value last set for the key, no older than the time to
      live, or nothing. */
  lemma GetIsFresh(maxSize: int, ttl: int, events: seq<Event>, key: string, now: int)
    requires Lookup(After(Fresh(maxSize, ttl), events), key, now).1.Some?
    ensures match LastSet(events, key)
            case Some(entry) =>
              && Lookup(After(Fresh(maxSize, ttl), events), key, now).1 == entry.value
              && now - entry.createdAt <= Fresh(maxSize, ttl).ttl
            case None => false
  {
    hide LastSet, ByLastUse;
    RunInvariant(maxSize, ttl, events);
  }

  /** Setting a new key in a full cache removes exactly the key whose last use
      is the oldest. */
  lemma EvictionIsLru(maxSize: int, ttl: int, events: seq<Event>, key: string, value: Option<string>, now: int)
      returns (victim: string)
    requires var c := After(Fresh(maxSize, ttl), events); key !in c.entries && |c.entries| == c.maxSize
    ensures var c := After(Fresh(maxSize, ttl), events);
            && victim in c.entries
            && (forall k :: k in c.entries && k != victim ==> LastUse(events, victim) < LastUse(events, k))
            && Store(c, key, value, now).entries == (c.entries - {victim})[key := Entry(value, now)]
  {
    hide LastUse, LastSet, MakeRoom;
    var c := After(Fresh(maxSize, ttl), events);
    RunInvariant(maxSize, ttl, events);
    Distinct(events, c.order);
    OrderLength(c.order, c.entries.Keys);
    victim := c.order[|c.order| - 1];
    MakeRoomEvicts(events, c);
  }

  lemma {:induction false} Distinct(events: seq<Event>, order: seq<string>)
    requires ByLastUse(events, order)
    ensures forall i, j :: 0 <= i < j < |order| ==> order[i] != order[j]
  {
    hide LastUse;
    if order != [] {
      Distinct(events, order[1..]);
      forall i, j | 0 <= i < j < |order| ensures order[i] != order[j] {
        assert order[j] == order[1..][j - 1];
        assert i > 0 ==> order[i] == order[1..][i - 1];
        assert order[j] in order[1..];
      }
    }
  }

  // ---- Retention -----------------------------------------------------------------------------

  ghost function KeysOf(events: seq<Event>): set<string> {
    if events == [] then {} else KeysOf(events[..|events| - 1]) + {events[|events| - 1].key}
  }

  /** A key used after the first n events is among the later ones. */
  lemma {:induction false} UsedLater(before: seq<Event>, rest: seq<Event>, key: string)
    requires LastUse(before + rest, key) > |before|
    ensures key in KeysOf(rest)
  {
    var all := before + rest;
    if rest == [] {
      assert all == before;
      LastUseBound(before, key);
    } else if all[|all| - 1].key != key {
      assert all[..|all| - 1] == before + rest[..|rest| - 1];
      UsedLater(before, rest[..|rest| - 1], key);
    }
  }

  /** A key that no later event names was last used by the earlier ones. */
  lemma {:induction false} UsedBefore(before: seq<Event>, rest: seq<Event>, key: string)
    requires key !in KeysOf(rest)
    ensures LastUse(before + rest, key) == LastUse(before, key)
  {
    var all := before + rest;
    if rest == [] {
      assert all == before;
    } else {
      assert all[..|all| - 1] == before + rest[..|rest| - 1];
      UsedBefore(before, rest[..|rest| - 1], key);
    }
  }

  /** The key whose set ends `before` is no victim while the later events and the
      new key name fewer keys than there is room for. */
  lemma NotTheVictim(c: Lru, before: seq<Event>, rest: seq<Event>, key: string, fresh_: string)
    requires before != [] && before[|before| - 1].key == key && key !in KeysOf(rest)
    requires Inv(before + rest, c) && |c.order| == c.maxSize >= 1
    requires fresh_ !in c.entries && |KeysOf(rest) + {fresh_}| < c.maxSize
    ensures c.order[|c.order| - 1] != key
  {
    hide LastUse, LastSet, Gets, ByLastUse;
    var all := before + rest;
    PrefixKeeps(all, c.order);
    Distinct(all, c.order);
    if c.order[|c.order| - 1] == key {
      var others := c.entries.Keys - {key};
      forall k | k in others ensures k in KeysOf(rest) {
        assert k in c.order;
        UsedBefore(before, rest, key);
        LastUseLast(before);
        UsedLater(before, rest, k);
      }
      OrderLength(c.order, c.entries.Keys);
      TooMany(others + {fresh_}, KeysOf(rest) + {fresh_});
    }
  }

  lemma LastUseLast(events: seq<Event>)
    requires events != []
    ensures LastUse(events, events[|events| - 1].key) == |events|
  {
  }

  lemma TooMany(a: set<string>, b: set<string>)
    requires a <= b
    ensures |a| <= |b|
  {
    assert |b| == |a| + |b - a|;
  }

  lemma StepRetains(c: Lru, e: Event, key: string)
    requires c.maxSize >= 1 && key in c.entries && e.key != key
    requires (forall k :: k in c.order <==> k in c.entries) && |c.order| <= c.maxSize
    requires e.key !in c.entries && |c.order| == c.maxSize ==> c.order[|c.order| - 1] != key
    ensures key in Step(c, e).entries && Step(c, e).entries[key] == c.entries[key]
  {
    if e.Setting? && e.key !in c.entries && |c.order| == c.maxSize {
      var r := c.(entries := c.entries - {c.order[|c.order| - 1]}, order := c.order[..|c.order| - 1]);
      assert MakeRoom(c) == MakeRoom(r) == r;
    }
  }

  lemma {:induction false} StaysIn(maxSize: int, ttl: int, before: seq<Event>, rest: seq<Event>)
    requires before != [] && before[|before| - 1].Setting? && before[|before| - 1].key !in KeysOf(rest)
    requires |KeysOf(rest)| < Fresh(maxSize, ttl).maxSize
    ensures var c, e := After(Fresh(maxSize, ttl), before + rest), before[|before| - 1];
            e.key in c.entries && c.entries[e.key] == Entry(e.value, e.now)
  {
    hide LastUse, LastSet, Gets, ByLastUse, Lookup, Store;
    var fresh_, key, all := Fresh(maxSize, ttl), before[|before| - 1].key, before + rest;
    if rest == [] {
      assert all == before;
      SetStores(After(fresh_, before[..|before| - 1]), before[|before| - 1]);
    } else {
      var init, e := rest[..|rest| - 1], rest[|rest| - 1];
      assert all[..|all| - 1] == before + init;
      TooMany(KeysOf(init), KeysOf(rest));
      StaysIn(maxSize, ttl, before, init);
      RunInvariant(maxSize, ttl, before + init);
      var c := After(fresh_, before + init);
      if e.key !in c.entries && |c.order| == c.maxSize {
        NotTheVictim(c, before, init, key, e.key);
      }
      StepRetains(c, e, key);
    }
  }

  lemma SetStores(c: Lru, e: Event)
    requires c.maxSize >= 1 && e.Setting?
    ensures e.key in Step(c, e).entries && Step(c, e).entries[e.key] == Entry(e.value, e.now)
  {
  }

  /** A set value is found again until it expires, as long as fewer other keys
      than the cache has room for are used in between, whatever else happens. */
  lemma Retained(maxSize: int, ttl: int, before: seq<Event>, rest: seq<Event>, now: int)
    requires before != [] && before[|before| - 1].Setting? && before[|before| - 1].key !in KeysOf(rest)
    requires |KeysOf(rest)| < Fresh(maxSize, ttl).maxSize
    requires now - before[|before| - 1].now <= Fresh(maxSize, ttl).ttl
    ensures Lookup(After(Fresh(maxSize, ttl), before + rest), before[|before| - 1].key, now).1 == before[|before| - 1].value
  {
    StaysIn(maxSize, ttl, before, rest);
  }

  /** A get hits if and only if the entry is there and no older than the time to live;
      an older one is removed. */
  lemma GetExactly(c: Lru, key: string, now: int)
    ensures var (r, value) := Lookup(c, key, now);
            var hit := key in c.entries && now - c.entries[key].createdAt <= c.ttl;
            && r.hits == c.hits + (if hit then 1 else 0) && r.misses == c.misses + (if hit then 0 else 1)
            && value == (if hit then c.entries[key].value else None)
            && (hit ==> r.entries == c.entries && r.order[0] == key)
            && (!hit ==> r.entries == c.entries - {key})
  {
    assert key !in c.entries ==> c.entries - {key} == c.entries;
  }
}
