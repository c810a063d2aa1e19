/** The token-count cache of internal/core/estimator.go under concurrent callers.

    Every lock section is one atomic step of a thread, so a lookup takes two:
    the read section that finds the count and the write section that promotes
    the entry, with any steps of other threads in between. */
module TokenCache {
  import opened Collections
  import opened Text
  import LruCache

  /** `recent` is the linked list, most recently used first. */
  datatype Cache = Cache(max: int, items: map<string, nat>, recent: seq<string>, hits: nat)

  /** The read section of get. */
  function Find(c: Cache, text: string): Option<nat> {
    if text in c.items then Some(c.items[text]) else None
  }

  /** The write section of get: the entry may have been evicted meanwhile. */
  function Promote(c: Cache, text: string): Cache {
    if text in c.items then c.(recent := [text] + Without(c.recent, text)) else c
  }

  /** Remove up to n entries from the back of the list. */
  function Evict(c: Cache, n: nat): Cache
    decreases n
  {
    if n == 0 || c.recent == [] then c
    else
      var last := c.recent[|c.recent| - 1];
      Evict(c.(items := c.items - {last}, recent := c.recent[..|c.recent| - 1]), n - 1)
  }

  /** A quarter of the capacity, at least one. */
  function Quota(max: int): (n: nat)
    ensures n >= 1 && (max >= 4 ==> 4 * n <= max < 4 * n + 4) && (max < 4 ==> n == 1)
  {
    if max / 4 < 1 then 1 else max / 4
  }

  function Put(c: Cache, text: string, count: nat): Cache {
    if text in c.items then
      c.(items := c.items[text := count], recent := [text] + Without(c.recent, text))
    else
      var r := if |c.recent| >= c.max then Evict(c, Quota(c.max)) else c;
      r.(items := r.items[text := count], recent := [text] + r.recent)
  }

  class SharedCache {
    const max: int
    var items: map<string, nat>
    var recent: seq<string>
    var hits: nat

    function View(): Cache
      reads this
    {
      Cache(max, items, recent, hits)
    }

    constructor (max: int)
      ensures View() == Cache(max, map[], [], 0)
    {
      this.max := max;
      items, recent, hits := map[], [], 0;
    }

    method ReadSection(text: string) returns (count: Option<nat>)
      ensures count == Find(View(), text)
    {
      count := if text in items then Some(items[text]) else None;
    }

    method PromoteSection(text: string)
      modifies this
      ensures View() == Promote(old(View()), text)
    {
      if text in items {
        recent := [text] + Without(recent, text);
      }
    }

    method EvictLRU()
      modifies this
      ensures View() == Evict(old(View()), Quota(max))
    {
      var toRemove := max / 4;
      if toRemove < 1 {
        toRemove := 1;
      }
      var i := 0;
      while i < toRemove && |recent| > 0
        invariant 0 <= i <= toRemove
        invariant Evict(View(), toRemove - i) == Evict(old(View()), toRemove)
      {
        var back := recent[|recent| - 1];
        recent := recent[..|recent| - 1];
        items := items - {back};
        i := i + 1;
      }
    }

    method Set(text: string, count: nat)
      modifies this
      ensures View() == Put(old(View()), text, count)
    {
      if text in items {
        items := items[text := count];
        recent := [text] + Without(recent, text);
        return;
      }
      if |recent| >= max {
        EvictLRU();
      }
      recent := [text] + recent;
      items := items[text := count];
    }
  }

  // ---- The structure of the cache --------------------------------------------------------------

  /** The count the codec gives, or nothing if it fails. */
  type Codec = string -> Option<nat>

  /** Map and list agree, the size is bounded, and every count is the codec's. */
  ghost predicate Sound(codec: Codec, c: Cache) {
    && IsOrder(c.recent, c.items.Keys)
    && |c.recent| <= (if c.max < 1 then 1 else c.max)
    && forall k :: k in c.items ==> codec(k) == Some(c.items[k])
  }

  lemma PromoteSound(codec: Codec, c: Cache, text: string)
    requires Sound(codec, c)
    ensures Sound(codec, Promote(c, text))
  {
    hide IsOrder;
    if text in c.items {
      WithoutOrder(c.recent, c.items.Keys, text);
      OrderCons(Without(c.recent, text), c.items.Keys - {text}, text);
      assert c.items.Keys - {text} + {text} == c.items.Keys;
      OrderLength(c.recent, c.items.Keys);
      OrderLength(Promote(c, text).recent, c.items.Keys);
    }
  }

  /** Eviction drops the back of the list and exactly those keys. */
  lemma {:induction false} EvictSound(codec: Codec, c: Cache, n: nat)
    requires Sound(codec, c)
    ensures Sound(codec, Evict(c, n)) && Evict(c, n).max == c.max && Evict(c, n).hits == c.hits
    ensures Evict(c, n).recent == c.recent[..if n < |c.recent| then |c.recent| - n else 0]
    ensures forall k :: k in Evict(c, n).items ==> k in c.items && c.items[k] == Evict(c, n).items[k]
    decreases n
  {
    hide IsOrder;
    if n > 0 && c.recent != [] {
      var m := |c.recent| - 1;
      OrderInit(c.recent, c.items.Keys);
      var r := c.(items := c.items - {c.recent[m]}, recent := c.recent[..m]);
      assert r.items.Keys == c.items.Keys - {c.recent[m]};
      EvictSound(codec, r, n - 1);
    }
  }

  lemma PutSound(codec: Codec, c: Cache, text: string, count: nat)
    requires Sound(codec, c) && codec(text) == Some(count)
    ensures Sound(codec, Put(c, text, count))
  {
    hide IsOrder, Evict;
    if text in c.items {
      PromoteSound(codec, c, text);
      assert c.items[text := count] == c.items;
    } else {
      EvictSound(codec, c, Quota(c.max));
      var r := if |c.recent| >= c.max then Evict(c, Quota(c.max)) else c;
      OrderCons(r.recent, r.items.Keys, text);
      assert r.items[text := count].Keys == r.items.Keys + {text};
    }
  }

  /** What was stored is found, at the front; what stays keeps its count. */
  lemma PutFinds(codec: Codec, c: Cache, text: string, count: nat)
    requires Sound(codec, c)
    ensures var r := Put(c, text, count);
            && Find(r, text) == Some(count) && r.recent[0] == text
            && forall k :: k in r.items && k != text ==> Find(c, k) == Find(r, k)
  {
    hide IsOrder, Evict;
    EvictSound(codec, c, Quota(c.max));
  }

  // ---- Threads ------------------------------------------------------------------------------------

  /** Where a thread stands inside Count(text). */
  datatype Pc =
    | Reading(text: string)                  // before the read section of get
    | Promoting(text: string, count: nat)    // between the two sections
    | Bumping(text: string, count: nat)      // before the atomic hit counter
    | Counting(text: string)                 // missed, before the codec
    | Storing(text: string, count: nat)      // before set
    | Returned(text: string, result: nat)

  /** The shared cache, the threads, and every result returned so far. */
  datatype World = World(cache: Cache, threads: map<nat, Pc>, log: seq<(string, nat)>)

  /** One scheduling decision: a thread calls Count, or takes its next step. */
  datatype Choice = Call(thread: nat, text: string) | Run(thread: nat)

  /** What Count would return without a cache. */
  function Direct(codec: Codec, text: string): (n: nat)
    ensures text == "" ==> n == 0
    ensures text != "" && codec(text).Some? ==> codec(text) == Some(n)
    ensures text != "" && codec(text).None? ==> 4 * n - 4 < ByteLen(text) <= 4 * n
  {
    if text == "" then 0
    else match codec(text) case Some(n) => n case None => (ByteLen(text) + 3) / 4
  }

  function Return(w: World, thread: nat, text: string, result: nat): World {
    w.(threads := w.threads[thread := Returned(text, result)], log := w.log + [(text, result)])
  }

  /** The next atomic step of a thread. */
  function Advance(codec: Codec, w: World, thread: nat): World
    requires thread in w.threads
  {
    match w.threads[thread]
    case Reading(text) =>
      if text == "" then Return(w, thread, text, 0)
      else
        (match Find(w.cache, text)
         case Some(n) => w.(threads := w.threads[thread := Promoting(text, n)])
         case None => w.(threads := w.threads[thread := Counting(text)]))
    case Promoting(text, n) =>
      w.(cache := Promote(w.cache, text), threads := w.threads[thread := Bumping(text, n)])
    case Bumping(text, n) =>
      Return(w.(cache := w.cache.(hits := w.cache.hits + 1)), thread, text, n)
    case Counting(text) =>
      (match codec(text)
       case Some(n) => w.(threads := w.threads[thread := Storing(text, n)])
       case None => Return(w, thread, text, (ByteLen(text) + 3) / 4))
    case Storing(text, n) =>
      Return(w.(cache := Put(w.cache, text, n)), thread, text, n)
    case Returned(_, _) => w
  }

  function Step(codec: Codec, w: World, choice: Choice): World {
    match choice
    case Call(thread, text) =>
      if thread in w.threads && !w.threads[thread].Returned? then w
      else w.(threads := w.threads[thread := Reading(text)])
    case Run(thread) => if thread in w.threads then Advance(codec, w, thread) else w
  }

  function After(codec: Codec, max: int, schedule: seq<Choice>): World {
    if schedule == [] then World(Cache(max, map[], [], 0), map[], [])
    else Step(codec, After(codec, max, schedule[..|schedule| - 1]), schedule[|schedule| - 1])
  }

  /** What a thread carries agrees with the codec. */
  predicate PcSound(codec: Codec, pc: Pc) {
    match pc
    case Reading(_) => true
    case Promoting(text, n) => text != "" && codec(text) == Some(n)
    case Bumping(text, n) => text != "" && codec(text) == Some(n)
    case Counting(text) => text != ""
    case Storing(text, n) => text != "" && codec(text) == Some(n)
    case Returned(text, n) => n == Direct(codec, text)
  }

  ghost predicate LogSound(codec: Codec, log: seq<(string, nat)>) {
    forall i :: 0 <= i < |log| ==> log[i].1 == Direct(codec, log[i].0)
  }

  ghost predicate WorldSound(codec: Codec, w: World) {
    && Sound(codec, w.cache)
    && (forall t :: t in w.threads ==> PcSound(codec, w.threads[t]))
    && LogSound(codec, w.log)
  }

  lemma AdvanceSound(codec: Codec, w: World, thread: nat)
    requires WorldSound(codec, w) && thread in w.threads
    ensures WorldSound(codec, Advance(codec, w, thread))
  {
    hide IsOrder, Put, Promote;
    match w.threads[thread]
    case Promoting(text, n) => PromoteSound(codec, w.cache, text);
    case Storing(text, n) => PutSound(codec, w.cache, text, n);
    case _ =>
  }

  /** Under every interleaving, with any number of threads, every result that
      Count returns is the one it would return without a cache; the list names
      the cached keys, each once; and the size stays within a positive maximum. */
  lemma {:induction false} Transparent(codec: Codec, max: int, schedule: seq<Choice>)
    ensures var w := After(codec, max, schedule);
            && LogSound(codec, w.log)
            && IsOrder(w.cache.recent, w.cache.items.Keys)
            && (max >= 1 ==> |w.cache.items| <= max)
    ensures WorldSound(codec, After(codec, max, schedule)) && After(codec, max, schedule).cache.max == max
  {
    hide Advance, IsOrder;
    if schedule == [] {
      OrderEmpty(After(codec, max, []).cache.items.Keys);
    } else {
      var init, choice := schedule[..|schedule| - 1], schedule[|schedule| - 1];
      Transparent(codec, max, init);
      var w := After(codec, max, init);
      if choice.Run? && choice.thread in w.threads {
        AdvanceSound(codec, w, choice.thread);
        AdvanceMax(codec, w, choice.thread);
      }
    }
    var c := After(codec, max, schedule).cache;
    OrderLength(c.recent, c.items.Keys);
  }

  lemma AdvanceMax(codec: Codec, w: World, thread: nat)
    requires WorldSound(codec, w) && thread in w.threads
    ensures Advance(codec, w, thread).cache.max == w.cache.max
  {
    hide Evict;
    EvictSound(codec, w.cache, Quota(w.cache.max));
  }

  // ---- Least recently used ---------------------------------------------------------------------

  /** The text whose entry a choice moves or puts to the front. */
  ghost function Touched(w: World, choice: Choice): Option<string> {
    if choice.Run? && choice.thread in w.threads then
      match w.threads[choice.thread]
      case Promoting(text, _) => if text in w.cache.items then Some(text) else None
      case Storing(text, _) => Some(text)
      case _ => None
    else None
  }

  /** The touches of a run, as events of a cache. */
  ghost function Touches(codec: Codec, max: int, schedule: seq<Choice>): seq<LruCache.Event> {
    if schedule == [] then []
    else
      var init := schedule[..|schedule| - 1];
      Touches(codec, max, init) +
      match Touched(After(codec, max, init), schedule[|schedule| - 1])
      case Some(text) => [LruCache.Getting(text, 0)]
      case None => []
  }

  lemma {:induction false} PrefixByUse(events: seq<LruCache.Event>, order: seq<string>, m: nat)
    requires LruCache.ByLastUse(events, order) && m <= |order|
    ensures LruCache.ByLastUse(events, order[..m])
  {
    hide LruCache.ByLastUse;
    if m == |order| {
      assert order[..m] == order;
    } else {
      LruCache.PrefixKeeps(events, order);
      PrefixByUse(events, order[..|order| - 1], m);
      assert order[..|order| - 1][..m] == order[..m];
    }
  }

  lemma TouchFront(events: seq<LruCache.Event>, order: seq<string>, text: string)
    requires LruCache.ByLastUse(events, order)
    ensures LruCache.ByLastUse(events + [LruCache.Getting(text, 0)], [text] + Without(order, text))
  {
    hide LruCache.ByLastUse;
    LruCache.WithoutKeeps(events, order, text);
    LruCache.FrontKeeps(events, LruCache.Getting(text, 0), Without(order, text));
  }

  lemma PutFront(codec: Codec, events: seq<LruCache.Event>, c: Cache, text: string, count: nat)
    requires Sound(codec, c) && LruCache.ByLastUse(events, c.recent)
    ensures LruCache.ByLastUse(events + [LruCache.Getting(text, 0)], Put(c, text, count).recent)
  {
    hide LruCache.ByLastUse, Evict, Without;
    if text in c.items {
      TouchFront(events, c.recent, text);
    } else {
      var n := Quota(c.max);
      var r := if |c.recent| >= c.max then Evict(c, n) else c;
      EvictSound(codec, c, n);
      PrefixByUse(events, c.recent, if |c.recent| >= c.max && n < |c.recent| then |c.recent| - n else if |c.recent| >= c.max then 0 else |c.recent|);
      assert c.recent[..|c.recent|] == c.recent;
      assert text !in r.recent by { assert forall k :: k in r.recent ==> k in r.items; }
      LruCache.FrontKeeps(events, LruCache.Getting(text, 0), r.recent);
    }
  }

  lemma AdvanceTouches(codec: Codec, events: seq<LruCache.Event>, w: World, thread: nat)
    requires WorldSound(codec, w) && thread in w.threads && LruCache.ByLastUse(events, w.cache.recent)
    ensures match Touched(w, Run(thread))
            case Some(text) => LruCache.ByLastUse(events + [LruCache.Getting(text, 0)], Advance(codec, w, thread).cache.recent)
            case None => Advance(codec, w, thread).cache.recent == w.cache.recent
  {
    hide LruCache.ByLastUse, Put, Without;
    match w.threads[thread]
    case Promoting(text, _) =>
      if text in w.cache.items {
        TouchFront(events, w.cache.recent, text);
      }
    case Storing(text, n) => PutFront(codec, events, w.cache, text, n);
    case _ =>
  }

  /** Under every interleaving the list is in the order of the last touch, so eviction,
      which takes its back, takes the least recently used texts. */
  lemma {:induction false} RecentByTouch(codec: Codec, max: int, schedule: seq<Choice>)
    ensures LruCache.ByLastUse(Touches(codec, max, schedule), After(codec, max, schedule).cache.recent)
  {
    if schedule != [] {
      hide Advance, LruCache.ByLastUse, WorldSound, Touched;
      var init, choice := schedule[..|schedule| - 1], schedule[|schedule| - 1];
      RecentByTouch(codec, max, init);
      Transparent(codec, max, init);
      var w, events := After(codec, max, init), Touches(codec, max, init);
      if choice.Run? && choice.thread in w.threads {
        AdvanceTouches(codec, events, w, choice.thread);
      } else {
        NotTouched(w, choice);
      }
      assert events + [] == events;
    }
  }

  lemma NotTouched(w: World, choice: Choice)
    requires !(choice.Run? && choice.thread in w.threads)
    ensures Touched(w, choice) == None
  {
  }

  /** How many results came from the cache. */
  ghost function Served(codec: Codec, max: int, schedule: seq<Choice>): nat {
    if schedule == [] then 0
    else
      var w, choice := After(codec, max, schedule[..|schedule| - 1]), schedule[|schedule| - 1];
      Served(codec, max, schedule[..|schedule| - 1])
      + if choice.Run? && choice.thread in w.threads && w.threads[choice.thread].Bumping? then 1 else 0
  }

  /** The hit counter is that number. */
  lemma {:induction false} HitsAreServed(codec: Codec, max: int, schedule: seq<Choice>)
    ensures After(codec, max, schedule).cache.hits == Served(codec, max, schedule)
  {
    if schedule != [] {
      hide Put, Promote, WorldSound;
      var init := schedule[..|schedule| - 1];
      HitsAreServed(codec, max, init);
      Transparent(codec, max, init);
      CacheHits(codec, After(codec, max, init));
    }
  }

  lemma CacheHits(codec: Codec, w: World)
    requires WorldSound(codec, w)
    ensures forall text :: Promote(w.cache, text).hits == w.cache.hits
    ensures forall text, n :: Put(w.cache, text, n).hits == w.cache.hits
  {
    hide Evict;
    EvictSound(codec, w.cache, Quota(w.cache.max));
  }
}
