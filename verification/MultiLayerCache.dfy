/** The three-layer composite of internal/cache/multilayer.go against one map. */
module MultiLayerCache {
  import opened Collections
  import opened LruCache
  import opened LayeredCache

  datatype Layers = Layers(lru: Lru, lfu: Lfu, fifo: Fifo)

  function FreshLayers(maxSize: int): (c: Layers)
    ensures c.lru.maxSize >= 1 && c.lru.ttl == 5 * 60 * 1_000_000_000
    ensures c.lfu.capacity == c.fifo.capacity == maxSize && (maxSize >= 1 ==> c.lru.maxSize == maxSize)
  {
    Layers(Fresh(maxSize, DEFAULT_TTL), Lfu(maxSize, map[]), Fifo(maxSize, map[], []))
  }

  /** GetString: the first layer that has a string for the key. */
  function GetString(c: Layers, key: string, now: int): (Layers, Option<string>) {
    var (lru, v1) := Lookup(c.lru, key, now);
    if v1.Some? then (c.(lru := lru), v1)
    else
      var (lfu, v2) := LfuGet(c.lfu, key);
      (c.(lru := lru, lfu := lfu), if v2.Some? then v2 else FifoGet(c.fifo, key))
  }

  /** SetString; `order` is the iteration order of an LFU eviction. */
  function SetString(c: Layers, key: string, value: string, now: int, order: seq<string>): Layers
    requires c.lru.maxSize >= 1 && FifoInv(c.fifo)
  {
    FifoSetKeeps(c.fifo, key, value);
    Layers(Store(c.lru, key, Some(value), now), LfuSet(c.lfu, key, value, order), FifoSet(c.fifo, key, value))
  }

  /** Delete: the LRU layer keeps the key with a nil value. */
  function Delete(c: Layers, key: string, now: int): Layers
    requires c.lru.maxSize >= 1
  {
    Layers(Store(c.lru, key, None, now), LfuDelete(c.lfu, key), FifoDelete(c.fifo, key))
  }

  class MultiLayer {
    const lru: LRUCache
    const lfu: StringLFUCache
    const fifo: StringFIFOCache

    function View(): Layers
      reads lru, lfu, fifo
    {
      Layers(lru.View(), lfu.View(), fifo.View())
    }

    constructor (maxSize: int)
      ensures View() == FreshLayers(maxSize) && fresh(lru) && fresh(lfu) && fresh(fifo)
    {
      lru := new LRUCache(maxSize, DEFAULT_TTL);
      lfu := new StringLFUCache(maxSize);
      fifo := new StringFIFOCache(maxSize);
    }

    method Get(key: string, now: int) returns (value: Option<string>)
      modifies lru, lfu
      ensures (View(), value) == GetString(old(View()), key, now)
    {
      value := lru.Get(key, now);
      if value.Some? {
        return;
      }
      value := lfu.Get(key);
      if value.Some? {
        return;
      }
      value := fifo.Get(key);
    }

    method Set(key: string, value: string, now: int)
      requires lru.maxSize >= 1 && FifoInv(fifo.View())
      modifies lru, lfu, fifo
      ensures exists order :: IsOrder(order, old(lfu.items.Keys)) && View() == SetString(old(View()), key, value, now, order)
    {
      hide IsOrder, Store, LfuSet, FifoSet;
      FifoSetKeeps(fifo.View(), key, value);
      lru.Set(key, Some(value), now);
      lfu.Set(key, value);
      fifo.Set(key, value);
      ghost var order :| IsOrder(order, old(lfu.items.Keys)) && lfu.View() == LfuSet(old(lfu.View()), key, value, order);
      assert View() == SetString(old(View()), key, value, now, order);
    }

    method Remove(key: string, now: int)
      requires lru.maxSize >= 1
      modifies lru, lfu, fifo
      ensures View() == Delete(old(View()), key, now)
    {
      lru.Set(key, None, now);
      lfu.Delete(key);
      fifo.Delete(key);
    }
  }

  // ---- Coherence with one map -------------------------------------------------------------

  datatype Call =
    | Fetch(key: string, now: int)
    | Put(key: string, value: string, now: int, order: seq<string>)
    | Drop(key: string, now: int)

  /** The plain map: the last value set for a key with no delete since. */
  ghost function Plain(events: seq<Call>): map<string, string> {
    if events == [] then map[]
    else
      var m := Plain(events[..|events| - 1]);
      match events[|events| - 1]
      case Fetch(_, _) => m
      case Put(key, value, _, _) => m[key := value]
      case Drop(key, _) => m - {key}
  }

  ghost predicate LruAgrees(m: map<string, string>, c: Lru) {
    forall k :: k in c.entries && c.entries[k].value.Some? ==> k in m && m[k] == c.entries[k].value.value
  }

  ghost predicate LfuAgrees(m: map<string, string>, c: Lfu) {
    forall k :: k in c.items ==> k in m && m[k] == c.items[k].value
  }

  ghost predicate FifoAgrees(m: map<string, string>, c: Fifo) {
    forall k :: k in c.items ==> k in m && m[k] == c.items[k]
  }

  /** Every layer holds a part of the map. */
  ghost predicate Coherent(m: map<string, string>, c: Layers) {
    && LruAgrees(m, c.lru) && LfuAgrees(m, c.lfu) && FifoAgrees(m, c.fifo)
    && c.lru.maxSize >= 1 && FifoInv(c.fifo)
  }

  lemma {:induction false} MakeRoomShrinks(c: Lru)
    requires c.maxSize >= 1
    ensures forall k :: k in MakeRoom(c).entries ==> k in c.entries && MakeRoom(c).entries[k] == c.entries[k]
    decreases |c.order|
  {
    if |c.order| >= c.maxSize {
      MakeRoomShrinks(c.(entries := c.entries - {c.order[|c.order| - 1]}, order := c.order[..|c.order| - 1]));
    }
  }

  lemma StoreAgrees(m: map<string, string>, c: Lru, key: string, value: Option<string>, now: int)
    requires LruAgrees(m, c) && c.maxSize >= 1
    ensures LruAgrees(if value.Some? then m[key := value.value] else m - {key}, Store(c, key, value, now))
  {
    hide MakeRoom;
    MakeRoomShrinks(c);
  }

  lemma StoreSize(c: Lru, key: string, value: Option<string>, now: int)
    requires c.maxSize >= 1
    ensures Store(c, key, value, now).maxSize == c.maxSize
  {
  }

  lemma SetCoherent(m: map<string, string>, c: Layers, key: string, value: string, now: int, order: seq<string>)
    requires Coherent(m, c)
    ensures Coherent(m[key := value], SetString(c, key, value, now, order))
  {
    hide Least, IsOrder, Store, LruAgrees;
    StoreSize(c.lru, key, Some(value), now);
    StoreAgrees(m, c.lru, key, Some(value), now);
    FifoSetKeeps(c.fifo, key, value);
  }

  lemma DeleteCoherent(m: map<string, string>, c: Layers, key: string, now: int)
    requires Coherent(m, c)
    ensures Coherent(m - {key}, Delete(c, key, now))
  {
    hide IsOrder, Store, Without, FifoInv, LruAgrees, LfuAgrees, FifoAgrees, LfuDelete, FifoDelete;
    StoreSize(c.lru, key, None, now);
    StoreAgrees(m, c.lru, key, None, now);
    FifoDeleteKeeps(c.fifo, key);
    DropAgrees(m, c, key);
  }

  lemma DropAgrees(m: map<string, string>, c: Layers, key: string)
    requires LfuAgrees(m, c.lfu) && FifoAgrees(m, c.fifo)
    ensures LfuAgrees(m - {key}, LfuDelete(c.lfu, key)) && FifoAgrees(m - {key}, FifoDelete(c.fifo, key))
  {
  }

  /** A hit returns what the map holds, and leaves the layers coherent. */
  lemma GetCoherent(m: map<string, string>, c: Layers, key: string, now: int)
    requires Coherent(m, c)
    ensures Coherent(m, GetString(c, key, now).0)
    ensures GetString(c, key, now).1.Some? ==> key in m && GetString(c, key, now).1.value == m[key]
  {
    hide IsOrder;
  }

  ghost function After(maxSize: int, events: seq<Call>): (c: Layers)
    requires maxSize >= 1
    ensures Coherent(Plain(events), c)
  {
    if events == [] then FreshLayers(maxSize)
    else
      hide GetString, SetString, Delete, Coherent, LruAgrees, LfuAgrees, FifoAgrees;
      var init := events[..|events| - 1];
      var c, m := After(maxSize, init), Plain(init);
      match events[|events| - 1]
      case Fetch(key, now) => GetCoherent(m, c, key, now); GetString(c, key, now).0
      case Put(key, value, now, order) => SetCoherent(m, c, key, value, now, order); UsableLayers(m, c); SetString(c, key, value, now, order)
      case Drop(key, now) => DeleteCoherent(m, c, key, now); UsableLayers(m, c); Delete(c, key, now)
  }

  lemma UsableLayers(m: map<string, string>, c: Layers)
    requires Coherent(m, c)
    ensures c.lru.maxSize >= 1 && FifoInv(c.fifo)
  {
  }

  /** Over every run, a hit returns the last value set for the key, and a key
      deleted since (or never set) misses. */
  lemma HitsAgree(maxSize: int, events: seq<Call>, key: string, now: int)
    requires maxSize >= 1
    ensures match GetString(After(maxSize, events), key, now).1
            case Some(v) => key in Plain(events) && v == Plain(events)[key]
            case None => true
    ensures key !in Plain(events) ==> GetString(After(maxSize, events), key, now).1 == None
  {
    hide After, GetString, Coherent;
    GetCoherent(Plain(events), After(maxSize, events), key, now);
  }

  /** A get right after a set hits, at any time, whatever was evicted. */
  lemma GetAfterSet(maxSize: int, events: seq<Call>, key: string, value: string, set_: int, get_: int, order: seq<string>)
    requires maxSize >= 1
    ensures GetString(After(maxSize, events + [Put(key, value, set_, order)]), key, get_).1 == Some(value)
  {
    hide Coherent, Lookup, LfuGet, Store, LfuSet;
    var e := Put(key, value, set_, order);
    var all := events + [e];
    assert all[..|all| - 1] == events;
    assert key in After(maxSize, all).fifo.items by { FifoHolds(After(maxSize, events), key, value, set_, order, maxSize, events); }
    HitsAgree(maxSize, all, key, get_);
    assert Plain(all)[key] == value;
  }

  lemma FifoHolds(c: Layers, key: string, value: string, now: int, order: seq<string>, maxSize: int, events: seq<Call>)
    requires maxSize >= 1 && c == After(maxSize, events)
    ensures c.lru.maxSize >= 1 && FifoInv(c.fifo) && key in SetString(c, key, value, now, order).fifo.items
  {
    hide After, LfuSet, Store;
    UsableLayers(Plain(events), c);
  }

  // ---- Single calls ----------------------------------------------------------------------------

  /** The LRU layer holds a string for the key that has not expired. */
  ghost predicate Answers(c: Lru, key: string, now: int) {
    key in c.entries && now - c.entries[key].createdAt <= c.ttl && c.entries[key].value.Some?
  }

  /** A key misses if and only if no layer has it; otherwise the first layer that has
      it answers, and the layers behind that one are not touched. */
  lemma GetExactly(c: Layers, key: string, now: int)
    ensures var (c2, value) := GetString(c, key, now);
            && (value == None <==> !Answers(c.lru, key, now) && key !in c.lfu.items && key !in c.fifo.items)
            && (Answers(c.lru, key, now) ==> value == c.lru.entries[key].value && c2.lfu == c.lfu)
            && (!Answers(c.lru, key, now) && key in c.lfu.items ==>
                  && value == Some(c.lfu.items[key].value)
                  && c2.lfu.items == c.lfu.items[key := Item(c.lfu.items[key].value, c.lfu.items[key].frequency + 1)])
            && (!Answers(c.lru, key, now) && key !in c.lfu.items ==>
                  c2.lfu == c.lfu && (key in c.fifo.items ==> value == Some(c.fifo.items[key])))
            && c2.fifo == c.fifo
  {
  }

  /** A delete leaves a nil in the LRU layer, as the key last used, and takes the key out
      of the others. */
  lemma DeleteExactly(c: Layers, key: string, now: int)
    requires c.lru.maxSize >= 1
    ensures var r := Delete(c, key, now);
            && key in r.lru.entries && r.lru.entries[key] == Entry(None, now)
            && r.lru.order != [] && r.lru.order[0] == key
            && r.lfu.items == c.lfu.items - {key} && r.fifo.items == c.fifo.items - {key}
  {
  }
}
