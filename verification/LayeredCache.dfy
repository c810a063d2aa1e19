/** The LFU and FIFO caches of internal/cache/multilayer.go. */
module LayeredCache {
  import opened Collections
  import opened LruCache

  // ---- LFU ----------------------------------------------------------------------------

  datatype Item = Item(value: string, frequency: nat)

  datatype Lfu = Lfu(capacity: int, items: map<string, Item>)

  function LfuGet(c: Lfu, key: string): (Lfu, Option<string>) {
    if key in c.items then
      var i := c.items[key];
      (c.(items := c.items[key := i.(frequency := i.frequency + 1)]), Some(i.value))
    else (c, None)
  }

  function Frequency(items: map<string, Item>, key: string): nat {
    if key in items then items[key].frequency else 0
  }

  /** The first key of least frequency, in iteration order. */
  function Least(items: map<string, Item>, order: seq<string>): Option<string> {
    if order == [] then None
    else
      var k := order[|order| - 1];
      match Least(items, order[..|order| - 1])
      case None => Some(k)
      case Some(best) => if Frequency(items, k) < Frequency(items, best) then Some(k) else Some(best)
  }

  /** evict; the key "" cannot be told from having found none and stays. */
  function LfuEvict(items: map<string, Item>, order: seq<string>): map<string, Item> {
    match Least(items, order)
    case None => items
    case Some(k) => if k != "" then items - {k} else items
  }

  function LfuSet(c: Lfu, key: string, value: string, order: seq<string>): Lfu {
    if key in c.items then
      c.(items := c.items[key := Item(value, c.items[key].frequency + 1)])
    else
      var items := if |c.items| >= c.capacity then LfuEvict(c.items, order) else c.items;
      c.(items := items[key := Item(value, 1)])
  }

  function LfuDelete(c: Lfu, key: string): Lfu {
    c.(items := c.items - {key})
  }

  class StringLFUCache {
    const capacity: int
    var items: map<string, Item>

    function View(): Lfu
      reads this
    {
      Lfu(capacity, items)
    }

    constructor (capacity: int)
      ensures View() == Lfu(capacity, map[])
    {
      this.capacity, items := capacity, map[];
    }

    method Get(key: string) returns (value: Option<string>)
      modifies this
      ensures (View(), value) == LfuGet(old(View()), key)
    {
      if key in items {
        var item := items[key];
        items := items[key := item.(frequency := item.frequency + 1)];
        return Some(item.value);
      }
      return None;
    }

    method Evict() returns (ghost order: seq<string>)
      modifies this
      ensures IsOrder(order, old(items.Keys)) && items == LfuEvict(old(items), order)
    {
      hide IsOrder, Frequency;
      order := [];
      var found, minKey, minFreq := false, "", 0;
      var todo := items.Keys;
      OrderEmpty(items.Keys - todo);
      while todo != {}
        invariant items == old(items) && todo <= items.Keys && IsOrder(order, items.Keys - todo)
        invariant Least(items, order) == if found then Some(minKey) else None
        invariant if found then minFreq == Frequency(items, minKey) else minKey == ""
      {
        var key :| key in todo;
        VisitNext(items.Keys, todo, order, key);
        FrequencyOf(items, key);
        if !found || items[key].frequency < minFreq {
          found, minKey, minFreq := true, key, items[key].frequency;
        }
        order := order + [key];
        todo := todo - {key};
      }
      assert items.Keys - todo == items.Keys;
      if minKey != "" {
        items := items - {minKey};
      }
    }

    method Set(key: string, value: string)
      modifies this
      ensures exists order :: IsOrder(order, old(items.Keys)) && View() == LfuSet(old(View()), key, value, order)
    {
      ghost var order := OrderExists(items.Keys);
      if key in items {
        items := items[key := Item(value, items[key].frequency + 1)];
        assert View() == LfuSet(old(View()), key, value, order);
        return;
      }
      if |items| >= capacity {
        order := Evict();
      }
      items := items[key := Item(value, 1)];
      assert View() == LfuSet(old(View()), key, value, order);
    }

    method Delete(key: string)
      modifies this
      ensures View() == LfuDelete(old(View()), key)
    {
      items := items - {key};
    }
  }

  lemma FrequencyOf(items: map<string, Item>, key: string)
    requires key in items
    ensures Frequency(items, key) == items[key].frequency
  {
  }

  /** The victim has the least frequency of all. */
  lemma {:induction false} LeastIsLeast(items: map<string, Item>, order: seq<string>)
    requires order != []
    ensures Least(items, order).Some? && Least(items, order).value in order
    ensures forall k :: k in order ==> Frequency(items, Least(items, order).value) <= Frequency(items, k)
  {
    hide Frequency;
    MemberInit(order);
    if |order| > 1 {
      LeastIsLeast(items, order[..|order| - 1]);
    } else {
      NothingLeast(items, order[..|order| - 1]);
    }
  }

  /** Setting a new key in a full LFU cache, whatever the iteration order: a key
      of least frequency makes room, unless it is "", and then the cache grows. */
  lemma LfuSetEvicts(c: Lfu, key: string, value: string, order: seq<string>) returns (victim: string)
    requires IsOrder(order, c.items.Keys) && key !in c.items && |c.items| >= c.capacity && c.items != map[]
    ensures victim in c.items && forall k :: k in c.items ==> c.items[victim].frequency <= c.items[k].frequency
    ensures LfuSet(c, key, value, order).items ==
            (if victim != "" then c.items - {victim} else c.items)[key := Item(value, 1)]
    ensures |LfuSet(c, key, value, order).items| == if victim != "" then |c.items| else |c.items| + 1
  {
    assert order != [] by { OrderLength(order, c.items.Keys); }
    LeastIsLeast(c.items, order);
    victim := Least(c.items, order).value;
    assert victim in c.items;
    forall k | k in c.items ensures c.items[victim].frequency <= c.items[k].frequency {
      assert k in order;
    }
    assert |(c.items - {victim}).Keys| == |c.items.Keys - {victim}|;
  }

  /** A key of least frequency that is visited first is the victim. */
  lemma {:induction false} LeastFirst(items: map<string, Item>, first: string, rest: seq<string>)
    requires forall k :: k in rest ==> Frequency(items, first) <= Frequency(items, k)
    ensures Least(items, [first] + rest) == Some(first)
  {
    hide Frequency;
    var order := [first] + rest;
    if rest == [] {
      assert order == [first] && order[..0] == [];
    } else {
      LeastFirst(items, first, rest[..|rest| - 1]);
      assert order[..|order| - 1] == [first] + rest[..|rest| - 1];
      assert order[|order| - 1] == rest[|rest| - 1] && rest[|rest| - 1] in rest;
    }
  }

  /** The key "" is stored and no key is used less. */
  ghost predicate EmptyKeyLeast(items: map<string, Item>) {
    "" in items && forall k :: k in items ==> items[""].frequency <= items[k].frequency
  }

  /** Some iteration order lets a set of a new key make the cache larger. */
  ghost predicate MayGrow(c: Lfu, key: string, value: string) {
    exists order :: IsOrder(order, c.items.Keys) && |LfuSet(c, key, value, order).items| > |c.items|
  }

  /** A full cache may grow if and only if it is empty (with a capacity below 1),
      or "" is stored and no key is used less; otherwise it keeps its size in every
      order. */
  lemma LfuGrowsExactly(c: Lfu, key: string, value: string)
    requires key !in c.items && |c.items| >= c.capacity
    ensures MayGrow(c, key, value) <==> c.items == map[] || EmptyKeyLeast(c.items)
    ensures !MayGrow(c, key, value) ==>
              forall order :: IsOrder(order, c.items.Keys) ==> |LfuSet(c, key, value, order).items| == |c.items|
  {
    hide IsOrder, LfuSet;
    if c.items == map[] {
      EmptyGrows(c, key, value);
    } else {
      forall order | IsOrder(order, c.items.Keys)
        ensures !EmptyKeyLeast(c.items) ==> |LfuSet(c, key, value, order).items| == |c.items|
      {
        var victim := LfuSetEvicts(c, key, value, order);
      }
      if EmptyKeyLeast(c.items) {
        EmptyKeyStays(c, key, value);
      }
    }
  }

  lemma EmptyGrows(c: Lfu, key: string, value: string)
    requires c.items == map[]
    ensures MayGrow(c, key, value)
  {
    NothingLeast(c.items, []);
    assert IsOrder([], c.items.Keys);
    assert |LfuSet(c, key, value, []).items| == 1;
  }

  lemma EmptyKeyStays(c: Lfu, key: string, value: string)
    requires key !in c.items && |c.items| >= c.capacity && EmptyKeyLeast(c.items)
    ensures MayGrow(c, key, value)
  {
    hide IsOrder;
    var rest := OrderExists(c.items.Keys - {""});
    var order := [""] + rest;
    OrderCons(rest, c.items.Keys - {""}, "");
    assert c.items.Keys - {""} + {""} == c.items.Keys;
    OrderMembers(rest, c.items.Keys - {""});
    LeastFirst(c.items, "", rest);
    assert |LfuSet(c, key, value, order).items| == |c.items| + 1;
  }

  lemma OrderMembers<K>(order: seq<K>, keys: set<K>)
    requires IsOrder(order, keys)
    ensures forall k :: k in order ==> k in keys
  {
  }

  // ---- FIFO -----------------------------------------------------------------------------

  datatype Fifo = Fifo(capacity: int, items: map<string, string>, order: seq<string>)

  /** The list names the stored keys, each once, and there are not too many. */
  ghost predicate FifoInv(c: Fifo) {
    IsOrder(c.order, c.items.Keys) && c.capacity >= 1 && |c.items| <= c.capacity
  }

  function FifoSet(c: Fifo, key: string, value: string): Fifo
    requires c.order == [] ==> key in c.items || |c.items| < c.capacity
  {
    if key in c.items then c.(items := c.items[key := value])
    else if |c.items| >= c.capacity then
      c.(items := (c.items - {c.order[0]})[key := value], order := c.order[1..] + [key])
    else c.(items := c.items[key := value], order := c.order + [key])
  }

  function FifoGet(c: Fifo, key: string): Option<string> {
    if key in c.items then Some(c.items[key]) else None
  }

  function FifoDelete(c: Fifo, key: string): Fifo {
    c.(items := c.items - {key}, order := Without(c.order, key))
  }

  class StringFIFOCache {
    const capacity: int
    var items: map<string, string>
    var order: seq<string>

    function View(): Fifo
      reads this
    {
      Fifo(capacity, items, order)
    }

    constructor (capacity: int)
      ensures View() == Fifo(capacity, map[], [])
    {
      this.capacity, items, order := capacity, map[], [];
    }

    method Get(key: string) returns (value: Option<string>)
      ensures value == FifoGet(View(), key)
    {
      value := if key in items then Some(items[key]) else None;
    }

    /** A full cache with an empty list, which a capacity below 1 brings about,
        would index an empty slice. */
    method Set(key: string, value: string)
      requires order == [] ==> key in items || |items| < capacity
      modifies this
      ensures View() == FifoSet(old(View()), key, value)
    {
      if key !in items {
        if |items| >= capacity {
          var oldest := order[0];
          items := items - {oldest};
          order := order[1..];
        }
        order := order + [key];
      }
      items := items[key := value];
    }

    method Delete(key: string)
      modifies this
      ensures View() == FifoDelete(old(View()), key)
    {
      items := items - {key};
      hide Without;
      var i := 0;
      WithoutStart(order, key);
      while i < |order|
        invariant 0 <= i <= |order| && order == old(order) && items == old(items) - {key}
        invariant Without(order, key) == order[..i] + Without(order[i..], key)
      {
        WithoutNext(order, key, i);
        if order[i] == key {
          order := order[..i] + order[i + 1..];
          return;
        }
        i := i + 1;
      }
    }
  }

  /** The search for the key in the list, from its start and on from position i. */
  lemma WithoutStart(order: seq<string>, key: string)
    ensures Without(order, key) == order[..0] + Without(order[0..], key)
    ensures order[..|order|] + Without(order[|order|..], key) == order
  {
    assert order[0..] == order && order[..|order|] == order;
  }

  lemma WithoutNext(order: seq<string>, key: string, i: nat)
    requires i < |order|
    ensures order[i] == key ==> Without(order[i..], key) == order[i + 1..]
    ensures order[i] != key ==> order[..i] + Without(order[i..], key) == order[..i + 1] + Without(order[i + 1..], key)
  {
    DropDrop(order, i, 1);
    Assoc(order[..i], [order[i]], Without(order[i + 1..], key));
    assert order[..i + 1] == order[..i] + [order[i]];
  }

  // ---- FIFO runs ---------------------------------------------------------------------------

  lemma FifoSetKeeps(c: Fifo, key: string, value: string)
    requires FifoInv(c)
    ensures c.order == [] ==> key in c.items || |c.items| < c.capacity
    ensures FifoInv(FifoSet(c, key, value))
  {
    hide IsOrder;
    OrderLength(c.order, c.items.Keys);
    var r := FifoSet(c, key, value);
    if key in c.items {
      assert r.items.Keys == c.items.Keys && |r.items| == |r.items.Keys|;
    } else if |c.items| < c.capacity {
      OrderSnoc(c.order, c.items.Keys, key);
      assert r.items.Keys == c.items.Keys + {key};
    } else {
      OrderTail(c.order, c.items.Keys);
      var oldest := c.order[0];
      OrderSnoc(c.order[1..], c.items.Keys - {oldest}, key);
      assert r.items.Keys == c.items.Keys - {oldest} + {key};
      assert |r.items| == |r.items.Keys|;
    }
  }

  lemma FifoDeleteKeeps(c: Fifo, key: string)
    requires FifoInv(c)
    ensures FifoInv(FifoDelete(c, key))
  {
    WithoutOrder(c.order, c.items.Keys, key);
    assert (c.items - {key}).Keys == c.items.Keys - {key};
    assert |c.items.Keys - {key}| <= |c.items.Keys|;
  }

  datatype FifoEvent = FifoSetting(key: string, value: string) | FifoDeleting(key: string)

  function FifoStep(c: Fifo, e: FifoEvent): (r: Fifo)
    requires FifoInv(c)
    ensures FifoInv(r) && r.capacity == c.capacity
  {
    match e
    case FifoSetting(key, value) => FifoSetKeeps(c, key, value); FifoSet(c, key, value)
    case FifoDeleting(key) => FifoDeleteKeeps(c, key); FifoDelete(c, key)
  }

  /** In every run the list names exactly the stored keys, each once, within capacity. */
  function FifoAfter(capacity: int, events: seq<FifoEvent>): (c: Fifo)
    requires capacity >= 1
    ensures FifoInv(c) && c.capacity == capacity
  {
    if events == [] then Fifo(capacity, map[], [])
    else FifoStep(FifoAfter(capacity, events[..|events| - 1]), events[|events| - 1])
  }

  /** What an event does to any cache, or nothing if it would index an empty list. */
  function FifoTry(c: Fifo, e: FifoEvent): Option<Fifo> {
    match e
    case FifoSetting(key, value) =>
      if c.order == [] && key !in c.items && |c.items| >= c.capacity then None else Some(FifoSet(c, key, value))
    case FifoDeleting(key) => Some(FifoDelete(c, key))
  }

  function FifoRun(capacity: int, events: seq<FifoEvent>): Option<Fifo> {
    if events == [] then Some(Fifo(capacity, map[], []))
    else
      match FifoRun(capacity, events[..|events| - 1])
      case None => None
      case Some(c) => FifoTry(c, events[|events| - 1])
  }

  lemma {:induction false} FifoRunIsAfter(capacity: int, events: seq<FifoEvent>)
    requires capacity >= 1
    ensures FifoRun(capacity, events) == Some(FifoAfter(capacity, events))
  {
    hide FifoInv, FifoDelete, FifoSet;
    if events != [] {
      var init, e := events[..|events| - 1], events[|events| - 1];
      FifoRunIsAfter(capacity, init);
      if e.FifoSetting? {
        FifoSetKeeps(FifoAfter(capacity, init), e.key, e.value);
      }
    }
  }

  predicate FifoSafe(capacity: int, events: seq<FifoEvent>) {
    FifoRun(capacity, events).Some?
  }

  /** No run indexes an empty list if and only if the capacity is at least 1. */
  lemma FifoSafeExactly(capacity: int)
    ensures (forall events :: FifoSafe(capacity, events)) <==> capacity >= 1
  {
    if capacity >= 1 {
      forall events ensures FifoSafe(capacity, events) {
        FifoRunIsAfter(capacity, events);
      }
    } else {
      var events := [FifoSetting("k", "v")];
      assert events[..0] == [] && FifoRun(capacity, []) == Some(Fifo(capacity, map[], []));
      assert !FifoSafe(capacity, events);
    }
  }

  /** The number of the event that last brought the key into the cache. */
  ghost function InsertedAt(capacity: int, events: seq<FifoEvent>, key: string): nat
    requires capacity >= 1
  {
    if events == [] then 0
    else
      var init := events[..|events| - 1];
      if key in FifoAfter(capacity, events).items && key !in FifoAfter(capacity, init).items then |events|
      else InsertedAt(capacity, init, key)
  }

  ghost predicate ByInsertion(capacity: int, events: seq<FifoEvent>, order: seq<string>)
    requires capacity >= 1
  {
    order == [] || (
      && (forall k :: k in order[1..] ==> InsertedAt(capacity, events, order[0]) < InsertedAt(capacity, events, k))
      && ByInsertion(capacity, events, order[1..]))
  }

  lemma {:induction false} ByInsertionWithout(capacity: int, events: seq<FifoEvent>, order: seq<string>, key: string)
    requires capacity >= 1 && ByInsertion(capacity, events, order)
    ensures ByInsertion(capacity, events, Without(order, key))
  {
    hide InsertedAt;
    if order != [] && order[0] != key {
      ByInsertionWithout(capacity, events, order[1..], key);
      assert Without(order, key)[1..] == Without(order[1..], key);
    }
  }

  /** Keys that stay keep their number. */
  lemma {:induction false} ByInsertionStays(capacity: int, events: seq<FifoEvent>, order: seq<string>)
    requires capacity >= 1 && events != [] && ByInsertion(capacity, events[..|events| - 1], order)
    requires forall k :: k in order ==> k in FifoAfter(capacity, events[..|events| - 1]).items
    ensures ByInsertion(capacity, events, order)
  {
    hide FifoAfter, InsertedAt;
    if order != [] {
      assert forall k :: k in order[1..] ==> k in order;
      ByInsertionStays(capacity, events, order[1..]);
      forall k | k in order ensures InsertedAt(capacity, events, k) == InsertedAt(capacity, events[..|events| - 1], k) {
        InsertedStays(capacity, events, k);
      }
    }
  }

  lemma InsertedStays(capacity: int, events: seq<FifoEvent>, key: string)
    requires capacity >= 1 && events != [] && key in FifoAfter(capacity, events[..|events| - 1]).items
    ensures InsertedAt(capacity, events, key) == InsertedAt(capacity, events[..|events| - 1], key)
  {
    hide FifoAfter;
  }

  lemma {:induction false} InsertedBound(capacity: int, events: seq<FifoEvent>, key: string)
    requires capacity >= 1
    ensures InsertedAt(capacity, events, key) <= |events|
  {
    if events != [] {
      InsertedBound(capacity, events[..|events| - 1], key);
    }
  }

  lemma {:induction false} ByInsertionSnoc(capacity: int, events: seq<FifoEvent>, order: seq<string>, key: string)
    requires capacity >= 1 && ByInsertion(capacity, events, order)
    requires forall k :: k in order ==> InsertedAt(capacity, events, k) < InsertedAt(capacity, events, key)
    ensures ByInsertion(capacity, events, order + [key])
  {
    hide InsertedAt;
    if order == [] {
      assert order + [key] == [key] && [key][1..] == [];
    } else {
      assert forall k :: k in order[1..] ==> k in order;
      ByInsertionSnoc(capacity, events, order[1..], key);
      assert (order + [key])[1..] == order[1..] + [key];
    }
  }

  /** The list is in insertion order, so the first key is the oldest. */
  lemma {:induction false} FifoInInsertionOrder(capacity: int, events: seq<FifoEvent>)
    requires capacity >= 1
    ensures ByInsertion(capacity, events, FifoAfter(capacity, events).order)
  {
    if events != [] {
      var init, e := events[..|events| - 1], events[|events| - 1];
      FifoInInsertionOrder(capacity, init);
      FifoStepOrder(capacity, events);
    }
  }

  lemma FifoStepOrder(capacity: int, events: seq<FifoEvent>)
    requires capacity >= 1 && events != []
    requires ByInsertion(capacity, events[..|events| - 1], FifoAfter(capacity, events[..|events| - 1]).order)
    ensures ByInsertion(capacity, events, FifoAfter(capacity, events).order)
  {
    hide ByInsertion;
    var init, e := events[..|events| - 1], events[|events| - 1];
    var c := FifoAfter(capacity, init);
    if e.FifoDeleting? {
      ByInsertionWithout(capacity, init, c.order, e.key);
      ByInsertionStays(capacity, events, Without(c.order, e.key));
    } else if e.key in c.items {
      ByInsertionStays(capacity, events, c.order);
    } else {
      OldestLeaves(c, e.key);
      var old' := if |c.items| >= capacity then c.order[1..] else c.order;
      ByInsertionTail(capacity, init, c.order);
      ByInsertionStays(capacity, events, old');
      forall k | k in old' ensures InsertedAt(capacity, events, k) < InsertedAt(capacity, events, e.key) {
        InsertedBound(capacity, init, k);
      }
      ByInsertionSnoc(capacity, events, old', e.key);
    }
  }

  lemma OldestLeaves(c: Fifo, key: string)
    requires FifoInv(c) && key !in c.items
    ensures c.order == [] ==> |c.items| < c.capacity
    ensures forall k :: k in c.order ==> k in c.items
    ensures c.order != [] ==> forall k :: k in c.order[1..] ==> k in c.order
  {
    OrderLength(c.order, c.items.Keys);
  }

  lemma ByInsertionTail(capacity: int, events: seq<FifoEvent>, order: seq<string>)
    requires capacity >= 1 && ByInsertion(capacity, events, order)
    ensures order != [] ==> ByInsertion(capacity, events, order[1..])
  {
  }

  // ---- LFU runs -----------------------------------------------------------------------------

  datatype LfuEvent = LfuSetting(key: string, value: string, order: seq<string>) | LfuGetting(key: string) | LfuDeleting(key: string)

  function LfuStep(c: Lfu, e: LfuEvent): Lfu {
    match e
    case LfuSetting(key, value, order) => LfuSet(c, key, value, order)
    case LfuGetting(key) => LfuGet(c, key).0
    case LfuDeleting(key) => LfuDelete(c, key)
  }

  function LfuAfter(capacity: int, events: seq<LfuEvent>): (c: Lfu)
    ensures c.capacity == capacity
  {
    if events == [] then Lfu(capacity, map[])
    else LfuStep(LfuAfter(capacity, events[..|events| - 1]), events[|events| - 1])
  }

  /** Every set iterates the keys stored at the time. */
  ghost predicate LfuRun(capacity: int, events: seq<LfuEvent>) {
    events == [] || (
      var init, e := events[..|events| - 1], events[|events| - 1];
      && LfuRun(capacity, init)
      && (e.LfuSetting? ==> IsOrder(e.order, LfuAfter(capacity, init).items.Keys)))
  }

  ghost predicate NeverEmptyKey(events: seq<LfuEvent>) {
    forall i :: 0 <= i < |events| && events[i].LfuSetting? ==> events[i].key != ""
  }

  /** With capacity at least 1 and non-empty keys the LFU cache stays within
      capacity, in every run and for every iteration order. */
  lemma {:induction false} LfuWithinCapacity(capacity: int, events: seq<LfuEvent>)
    requires capacity >= 1 && LfuRun(capacity, events) && NeverEmptyKey(events)
    ensures var c := LfuAfter(capacity, events); |c.items| <= capacity && "" !in c.items
  {
    hide LfuSet, LfuGet, LfuDelete, IsOrder;
    if events != [] {
      var init, e := events[..|events| - 1], events[|events| - 1];
      LfuWithinCapacity(capacity, init);
      LfuStepKeeps(LfuAfter(capacity, init), e);
    }
  }

  lemma LfuStepKeeps(c: Lfu, e: LfuEvent)
    requires c.capacity >= 1 && |c.items| <= c.capacity && "" !in c.items
    requires e.LfuSetting? ==> e.key != "" && IsOrder(e.order, c.items.Keys)
    ensures var r := LfuStep(c, e); |r.items| <= c.capacity && "" !in r.items
  {
    hide LfuEvict, IsOrder;
    if e.LfuSetting? && e.key !in c.items && |c.items| >= c.capacity {
      EvictedFits(c, e.key, e.value, e.order);
    } else if e.LfuDeleting? {
      FewerKeys(c.items, e.key);
    } else if e.key in c.items {
      SameKeys(c.items, e.key, LfuStep(c, e).items[e.key]);
    }
  }

  lemma EvictedFits(c: Lfu, key: string, value: string, order: seq<string>)
    requires c.capacity >= 1 && |c.items| == c.capacity && "" !in c.items && key !in c.items && key != ""
    requires IsOrder(order, c.items.Keys)
    ensures var r := LfuSet(c, key, value, order); |r.items| <= c.capacity && "" !in r.items
  {
    hide LfuSet, IsOrder;
    var _ := LfuSetEvicts(c, key, value, order);
  }

  lemma FewerKeys(items: map<string, Item>, key: string)
    ensures |items - {key}| <= |items|
  {
    assert (items - {key}).Keys == items.Keys - {key};
    assert |items.Keys - {key}| <= |items.Keys|;
  }

  lemma SameKeys(items: map<string, Item>, key: string, item: Item)
    requires key in items
    ensures |items[key := item]| == |items|
  {
    assert items[key := item].Keys == items.Keys;
    assert |items[key := item]| == |items[key := item].Keys|;
  }

  /** Gets and sets of a key since it was last inserted, that set included. */
  ghost function Uses(capacity: int, events: seq<LfuEvent>, key: string): nat {
    if events == [] || key !in LfuAfter(capacity, events).items then 0
    else
      var init, e := events[..|events| - 1], events[|events| - 1];
      if key !in LfuAfter(capacity, init).items then 1
      else Uses(capacity, init, key) + (if e.key == key then 1 else 0)
  }

  /** The frequency that eviction compares is the number of uses. */
  lemma {:induction false} FrequencyIsUses(capacity: int, events: seq<LfuEvent>, key: string)
    requires key in LfuAfter(capacity, events).items
    ensures LfuAfter(capacity, events).items[key].frequency == Uses(capacity, events, key)
  {
    var init := events[..|events| - 1];
    if key in LfuAfter(capacity, init).items {
      FrequencyIsUses(capacity, init, key);
    }
  }

  /** The n-th of a list of different keys, the first of them empty. */
  function Key(n: nat): (k: string)
    ensures |k| == n
  {
    if n == 0 then "" else Key(n - 1) + "a"
  }

  function KeysTo(n: nat): (ks: seq<string>)
    ensures |ks| == n && forall i :: 0 <= i < n ==> ks[i] == Key(i)
  {
    if n == 0 then [] else KeysTo(n - 1) + [Key(n - 1)]
  }

  /** Set the first n keys, each time visiting the stored ones from "" on. */
  function Filling(n: nat): (events: seq<LfuEvent>)
    ensures |events| == n
  {
    if n == 0 then [] else Filling(n - 1) + [LfuSetting(Key(n - 1), "v", KeysTo(n - 1))]
  }

  lemma KeysOrder(n: nat, keys: set<string>)
    requires forall k :: k in keys <==> |k| < n && k == Key(|k|)
    ensures IsOrder(KeysTo(n), keys)
  {
    forall k | k in keys ensures k in KeysTo(n) {
      assert KeysTo(n)[|k|] == k;
    }
    forall i, j | 0 <= i < j < n ensures KeysTo(n)[i] != KeysTo(n)[j] {
      assert |KeysTo(n)[i]| == i && |KeysTo(n)[j]| == j;
    }
  }

  /** All n keys are stored, each used once. */
  ghost predicate Filled(items: map<string, Item>, n: nat) {
    && (forall k :: k in items <==> |k| < n && k == Key(|k|))
    && (forall k :: k in items ==> items[k] == Item("v", 1))
    && |items| == n
  }

  lemma FillStep(c: Lfu, n: nat)
    requires Filled(c.items, n)
    ensures Filled(LfuSet(c, Key(n), "v", KeysTo(n)).items, n + 1)
  {
    hide Filled, LfuSet, Key, KeysTo;
    FillStores(c, n);
    FilledNext(c.items, n);
  }

  /** Nothing is evicted, because the least key is "". */
  lemma FillStores(c: Lfu, n: nat)
    requires Filled(c.items, n)
    ensures LfuSet(c, Key(n), "v", KeysTo(n)).items == c.items[Key(n) := Item("v", 1)]
  {
    hide Least, Key, KeysTo, Filled;
    var order := KeysTo(n);
    FilledKeys(c.items, n);
    if n > 0 {
      LeastFirst(c.items, "", order[1..]);
      TakeDrop(order, 1);
    } else {
      NothingLeast(c.items, order);
    }
    assert Key(n) !in c.items;
  }

  lemma FilledKeys(items: map<string, Item>, n: nat)
    requires Filled(items, n)
    ensures Key(n) !in items && |KeysTo(n)| == n
    ensures n > 0 ==> KeysTo(n)[..1] == [""]
    ensures n > 0 ==> forall k :: k in KeysTo(n)[1..] ==> Frequency(items, "") <= Frequency(items, k)
  {
    hide Key;
    var order := KeysTo(n);
    if n > 0 {
      forall k | k in order[1..] ensures Frequency(items, "") <= Frequency(items, k) {
        var i :| 0 <= i < |order[1..]| && order[1..][i] == k;
        assert k == Key(i + 1) && k in items && "" in items;
      }
    }
  }

  lemma FilledNext(items: map<string, Item>, n: nat)
    requires Filled(items, n)
    ensures Filled(items[Key(n) := Item("v", 1)], n + 1)
  {
    hide Key;
    var more := items[Key(n) := Item("v", 1)];
    forall k ensures k in more <==> |k| < n + 1 && k == Key(|k|) {
      assert k in more <==> k in items || k == Key(n);
    }
    assert Key(n) !in items;
  }

  lemma NothingLeast(items: map<string, Item>, order: seq<string>)
    requires order == []
    ensures Least(items, order) == None
  {
  }

  /** With the key "" no capacity bounds the cache: for every capacity and every n
      there is a run that stores n keys. */
  lemma {:induction false} LfuOverflows(capacity: int, n: nat)
    ensures LfuRun(capacity, Filling(n)) && Filled(LfuAfter(capacity, Filling(n)).items, n)
    ensures |LfuAfter(capacity, Filling(n)).items| == n
  {
    hide LfuSet, IsOrder, Key, KeysTo;
    var events := Filling(n);
    if n > 0 {
      assert events[..n - 1] == Filling(n - 1);
      LfuOverflows(capacity, n - 1);
      var c := LfuAfter(capacity, Filling(n - 1));
      FillStep(c, n - 1);
      KeysOrder(n - 1, c.items.Keys);
    }
  }
}
