/** Merging usage and savings per period in internal/economics/economics.go.
    Costs are reals and token counts unbounded. */
module Economics {
  import opened Collections

  /** What ccusage reports for a period. */
  datatype Usage = Usage(cost: real, total: nat, input: nat, output: nat, cacheCreate: nat, cacheRead: nat)

  /** What the tracker reports for a period. */
  datatype Saved = Saved(commands: int, tokens: int, percent: real)

  datatype Metric = Metric(cpt: real, savings: real)

  datatype Period = Period(
    name: string, usage: Option<Usage>, saved: Option<Saved>,
    weighted: Option<Metric>, blended: Option<Metric>, active: Option<Metric>)

  function Active(u: Usage): nat {
    u.input + u.output
  }

  const WEIGHT_OUTPUT := 5.0
  const WEIGHT_CACHE_CREATE := 1.25
  const WEIGHT_CACHE_READ := 0.1

  function WeightedUnits(u: Usage): real {
    u.input as real + WEIGHT_OUTPUT * u.output as real
    + WEIGHT_CACHE_CREATE * u.cacheCreate as real + WEIGHT_CACHE_READ * u.cacheRead as real
  }

  /** cost / units and the saved tokens at that price, if there are units. */
  function Price(cost: real, units: real, tokens: int): Option<Metric> {
    if units > 0.0 then Some(Metric(cost / units, tokens as real * (cost / units))) else None
  }

  /** computeWeightedMetrics and computeDualMetrics. */
  function Complete(p: Period): Period {
    if p.usage.None? || p.saved.None? then p
    else
      var u, t := p.usage.value, p.saved.value.tokens;
      p.(weighted := Price(u.cost, WeightedUnits(u), t),
         blended := Price(u.cost, u.total as real, t),
         active := Price(u.cost, Active(u) as real, t))
  }

  // ---- Merging ---------------------------------------------------------------------------------

  type Entries<V> = seq<(string, V)>

  /** The map after inserting the entries one by one: later entries win. */
  function Latest<V>(es: Entries<V>): map<string, V> {
    if es == [] then map[] else Latest(es[..|es| - 1])[es[|es| - 1].0 := es[|es| - 1].1]
  }

  function At<V>(m: map<string, V>, k: string): Option<V> {
    if k in m then Some(m[k]) else None
  }

  function PeriodOf(us: map<string, Usage>, ss: map<string, Saved>, k: string): Period {
    Complete(Period(k, At(us, k), At(ss, k), None, None, None))
  }

  /** strings compare by code point. */
  predicate Less(a: string, b: string) {
    b != "" && (a == "" || a[0] < b[0] || (a[0] == b[0] && Less(a[1..], b[1..])))
  }

  function Insert(p: Period, ps: seq<Period>): seq<Period> {
    if ps == [] then [p]
    else if Less(p.name, ps[0].name) then [p] + ps
    else [ps[0]] + Insert(p, ps[1..])
  }

  /** The periods of the keys, sorted by label. */
  function Sorted(us: map<string, Usage>, ss: map<string, Saved>, order: seq<string>): seq<Period> {
    if order == [] then []
    else Insert(PeriodOf(us, ss, order[|order| - 1]), Sorted(us, ss, order[..|order| - 1]))
  }

  /** The periods of one or both inputs, before the metrics are computed. */
  ghost predicate Holds(periods: map<string, Period>, us: map<string, Usage>, ss: map<string, Saved>) {
    && periods.Keys == us.Keys + ss.Keys
    && forall k :: k in periods ==> periods[k] == Period(k, At(us, k), At(ss, k), None, None, None)
  }

  lemma LatestSnoc<V>(es: Entries<V>, i: nat)
    requires i < |es|
    ensures Latest(es[..i + 1]) == Latest(es[..i])[es[i].0 := es[i].1]
  {
    assert es[..i + 1][..i] == es[..i];
  }

  lemma LatestNone<V>()
    ensures Latest<V>([]) == map[]
  {
  }

  method InsertUsage(cc: Entries<Usage>) returns (periods: map<string, Period>)
    ensures Holds(periods, Latest(cc), map[])
  {
    periods := map[];
    for i := 0 to |cc|
      invariant Holds(periods, Latest(cc[..i]), map[])
    {
      var (key, usage) := cc[i];
      LatestSnoc(cc, i);
      if key !in periods {
        periods := periods[key := Period(key, None, None, None, None, None)];
      }
      periods := periods[key := periods[key].(usage := Some(usage))];
    }
    assert cc[..|cc|] == cc;
  }

  lemma HoldsSaved(periods: map<string, Period>, us: map<string, Usage>, ss: map<string, Saved>, key: string, saved: Saved)
    requires Holds(periods, us, ss)
    ensures key in periods ==> Holds(periods[key := periods[key].(saved := Some(saved))], us, ss[key := saved])
    ensures key !in periods ==> Holds(periods[key := Period(key, None, Some(saved), None, None, None)], us, ss[key := saved])
  {
    assert ss[key := saved].Keys == ss.Keys + {key};
  }

  lemma MapOverwrite<V>(m: map<string, V>, key: string, a: V, b: V)
    ensures m[key := a][key := b] == m[key := b]
  {
  }

  method InsertSaved(periods0: map<string, Period>, tm: Entries<Saved>, ghost us: map<string, Usage>)
      returns (periods: map<string, Period>)
    requires Holds(periods0, us, map[])
    ensures Holds(periods, us, Latest(tm))
  {
    hide Latest, Holds;
    LatestNone<Saved>();
    periods := periods0;
    assert tm[..0] == [];
    for i := 0 to |tm|
      invariant Holds(periods, us, Latest(tm[..i]))
    {
      var (key, saved) := tm[i];
      LatestSnoc(tm, i);
      HoldsSaved(periods, us, Latest(tm[..i]), key, saved);
      if key !in periods {
        MapOverwrite(periods, key, Period(key, None, None, None, None, None), Period(key, None, Some(saved), None, None, None));
        periods := periods[key := Period(key, None, None, None, None, None)];
      }
      periods := periods[key := periods[key].(saved := Some(saved))];
    }
    assert tm[..|tm|] == tm;
  }

  method Merge(cc: Entries<Usage>, tm: Entries<Saved>) returns (result: seq<Period>, ghost order: seq<string>)
    ensures IsOrder(order, Latest(cc).Keys + Latest(tm).Keys)
    ensures result == Sorted(Latest(cc), Latest(tm), order)
  {
    hide Latest, Complete, IsOrder, Insert;
    var periods := InsertUsage(cc);
    periods := InsertSaved(periods, tm, Latest(cc));
    result, order := [], [];
    var todo := periods.Keys;
    OrderEmpty(periods.Keys - todo);
    while todo != {}
      invariant todo <= periods.Keys && IsOrder(order, periods.Keys - todo)
      invariant result == Sorted(Latest(cc), Latest(tm), order)
    {
      var k :| k in todo;
      VisitNext(periods.Keys, todo, order, k);
      result := Insert(Complete(periods[k]), result);
      order := order + [k];
      todo := todo - {k};
    }
    assert periods.Keys - todo == periods.Keys;
  }

  // ---- Labels ------------------------------------------------------------------------------------

  lemma {:induction false} LessTotal(a: string, b: string)
    ensures !Less(a, a)
    ensures a == b || Less(a, b) || Less(b, a)
    ensures !(Less(a, b) && Less(b, a))
  {
    if a != "" {
      LessTotal(a[1..], a[1..]);
      if b != "" {
        LessTotal(a[1..], b[1..]);
        assert a == [a[0]] + a[1..] && b == [b[0]] + b[1..];
      }
    }
  }

  lemma {:induction false} LessTransitive(a: string, b: string, c: string)
    requires Less(a, b) && Less(b, c)
    ensures Less(a, c)
  {
    if a != "" && a[0] == b[0] == c[0] {
      LessTransitive(a[1..], b[1..], c[1..]);
    }
  }

  /** Strictly increasing labels. */
  ghost predicate Increasing(ps: seq<Period>) {
    ps == [] || ((forall q :: q in ps[1..] ==> Less(ps[0].name, q.name)) && Increasing(ps[1..]))
  }

  lemma {:induction false} InsertKeeps(p: Period, ps: seq<Period>)
    requires Increasing(ps) && forall q :: q in ps ==> q.name != p.name
    ensures Increasing(Insert(p, ps))
    ensures forall q :: q in Insert(p, ps) <==> q == p || q in ps
  {
    hide Less;
    if ps != [] {
      var first, rest := ps[0], ps[1..];
      assert ps == [first] + rest;
      LessTotal(p.name, first.name);
      if Less(p.name, first.name) {
        forall q | q in ps ensures Less(p.name, q.name) {
          if q != first {
            LessTransitive(p.name, first.name, q.name);
          }
        }
        assert Insert(p, ps)[1..] == ps;
      } else {
        InsertKeeps(p, rest);
        assert Insert(p, ps)[1..] == Insert(p, rest);
      }
    }
  }

  /** The merged periods are one per key, in strictly increasing order. */
  lemma {:induction false} MergedLabels(us: map<string, Usage>, ss: map<string, Saved>, order: seq<string>)
    requires forall i, j :: 0 <= i < j < |order| ==> order[i] != order[j]
    ensures Increasing(Sorted(us, ss, order))
    ensures forall q :: q in Sorted(us, ss, order) <==> q.name in order && q == PeriodOf(us, ss, q.name)
  {
    hide Less, Complete;
    if order != [] {
      var init, k := order[..|order| - 1], order[|order| - 1];
      assert order == init + [k] && k !in init;
      MergedLabels(us, ss, init);
      NameOf(us, ss, k);
      InsertKeeps(PeriodOf(us, ss, k), Sorted(us, ss, init));
    }
  }

  lemma NameOf(us: map<string, Usage>, ss: map<string, Saved>, k: string)
    ensures PeriodOf(us, ss, k).name == k
  {
  }

  lemma BothEmpty(a: seq<Period>, b: seq<Period>)
    requires forall q :: q in a <==> q in b
    ensures a == [] <==> b == []
  {
    if a != [] { assert a[0] in a; }
    if b != [] { assert b[0] in b; }
  }

  lemma {:induction false} IncreasingUnique(a: seq<Period>, b: seq<Period>)
    requires Increasing(a) && Increasing(b) && forall q :: q in a <==> q in b
    ensures a == b
  {
    hide Less;
    BothEmpty(a, b);
    if a != [] {
      assert a == [a[0]] + a[1..] && b == [b[0]] + b[1..];
      assert a[0] in b && b[0] in a;
      LessTotal(a[0].name, b[0].name);
      LessTotal(a[0].name, a[0].name);
      assert a[0] == b[0];
      forall q ensures q in a[1..] <==> q in b[1..] {
        LessTotal(q.name, q.name);
        assert q in a <==> q == a[0] || q in a[1..];
        assert q in b <==> q == b[0] || q in b[1..];
      }
      IncreasingUnique(a[1..], b[1..]);
    }
  }

  /** The merge does not depend on the order in which the map is iterated. */
  lemma MergeDeterministic(us: map<string, Usage>, ss: map<string, Saved>, order1: seq<string>, order2: seq<string>)
    requires IsOrder(order1, us.Keys + ss.Keys) && IsOrder(order2, us.Keys + ss.Keys)
    ensures Sorted(us, ss, order1) == Sorted(us, ss, order2)
  {
    hide PeriodOf, Less;
    MergedLabels(us, ss, order1);
    MergedLabels(us, ss, order2);
    forall k ensures k in order1 <==> k in order2 {
      assert k in order1 <==> k in us.Keys + ss.Keys;
      assert k in order2 <==> k in us.Keys + ss.Keys;
    }
    IncreasingUnique(Sorted(us, ss, order1), Sorted(us, ss, order2));
  }

  // ---- Totals --------------------------------------------------------------------------------------

  datatype Sums = Sums(cost: real, total: int, input: int, output: int, cacheCreate: int, cacheRead: int, commands: int, tokens: int)

  const ZERO := Sums(0.0, 0, 0, 0, 0, 0, 0, 0)

  function Plus(a: Sums, b: Sums): Sums {
    Sums(a.cost + b.cost, a.total + b.total, a.input + b.input, a.output + b.output,
         a.cacheCreate + b.cacheCreate, a.cacheRead + b.cacheRead, a.commands + b.commands, a.tokens + b.tokens)
  }

  lemma PlusLaws(a: Sums, b: Sums, c: Sums)
    ensures Plus(Plus(a, b), c) == Plus(Plus(a, c), b)
    ensures Plus(a, Plus(b, c)) == Plus(Plus(a, c), b)
    ensures Plus(a, ZERO) == a
    ensures Plus(a, b) == Plus(b, a)
  {
  }

  lemma Interchange(a: Sums, b: Sums, c: Sums, d: Sums)
    ensures Plus(Plus(a, b), Plus(c, d)) == Plus(Plus(a, c), Plus(b, d))
  {
  }

  function OfUsage(u: Usage): Sums {
    Sums(u.cost, u.total, u.input, u.output, u.cacheCreate, u.cacheRead, 0, 0)
  }

  function OfSaved(s: Saved): Sums {
    Sums(0.0, 0, 0, 0, 0, 0, s.commands, s.tokens)
  }

  function OfPeriod(p: Period): Sums {
    Plus(if p.usage.Some? then OfUsage(p.usage.value) else ZERO, if p.saved.Some? then OfSaved(p.saved.value) else ZERO)
  }

  function Total(ps: seq<Period>): Sums {
    if ps == [] then ZERO else Plus(Total(ps[..|ps| - 1]), OfPeriod(ps[|ps| - 1]))
  }

  /** The input side: the sum of all entries. */
  function SumEntries<V>(f: V -> Sums, es: Entries<V>): Sums {
    if es == [] then ZERO else Plus(SumEntries(f, es[..|es| - 1]), f(es[|es| - 1].1))
  }

  function ValueAt<V>(f: V -> Sums, m: map<string, V>, k: string): Sums {
    if k in m then f(m[k]) else ZERO
  }

  /** The sum of the entries that a later entry with the same key replaced. */
  function Replaced<V>(f: V -> Sums, es: Entries<V>): Sums {
    if es == [] then ZERO
    else Plus(Replaced(f, es[..|es| - 1]), ValueAt(f, Latest(es[..|es| - 1]), es[|es| - 1].0))
  }

  function SumKeys<V>(f: V -> Sums, m: map<string, V>, order: seq<string>): Sums {
    if order == [] then ZERO else Plus(SumKeys(f, m, order[..|order| - 1]), ValueAt(f, m, order[|order| - 1]))
  }

  lemma {:induction false} TotalCons(p: Period, ps: seq<Period>)
    ensures Total([p] + ps) == Plus(OfPeriod(p), Total(ps))
  {
    hide OfPeriod;
    if ps == [] {
      assert [p] + ps == [p] && [p][..0] == [];
    } else {
      TotalCons(p, ps[..|ps| - 1]);
      assert ([p] + ps)[..|[p] + ps| - 1] == [p] + ps[..|ps| - 1];
    }
  }

  lemma {:induction false} TotalInsert(p: Period, ps: seq<Period>)
    ensures Total(Insert(p, ps)) == Plus(OfPeriod(p), Total(ps))
  {
    hide OfPeriod, Less, Total;
    if ps == [] {
      TotalCons(p, []);
      assert [p] + [] == [p];
    } else if Less(p.name, ps[0].name) {
      TotalCons(p, ps);
    } else {
      TotalInsert(p, ps[1..]);
      TotalCons(ps[0], Insert(p, ps[1..]));
      TotalCons(ps[0], ps[1..]);
      assert ps == [ps[0]] + ps[1..];
    }
  }

  lemma {:induction false} TotalSorted(us: map<string, Usage>, ss: map<string, Saved>, order: seq<string>)
    ensures Total(Sorted(us, ss, order)) == Plus(SumKeys(OfUsage, us, order), SumKeys(OfSaved, ss, order))
  {
    hide Insert, Total, PeriodOf, Plus, OfPeriod, ValueAt;
    if order == [] {
      EmptyTotal();
      PlusLaws(ZERO, ZERO, ZERO);
    } else {
      var init, k := order[..|order| - 1], order[|order| - 1];
      TotalSorted(us, ss, init);
      TotalInsert(PeriodOf(us, ss, k), Sorted(us, ss, init));
      PeriodSums(us, ss, k);
      Interchange(SumKeys(OfUsage, us, init), ValueAt(OfUsage, us, k), SumKeys(OfSaved, ss, init), ValueAt(OfSaved, ss, k));
      PlusLaws(OfPeriod(PeriodOf(us, ss, k)), Total(Sorted(us, ss, init)), ZERO);
    }
  }

  lemma EmptyTotal()
    ensures Total([]) == ZERO
  {
  }

  lemma PeriodSums(us: map<string, Usage>, ss: map<string, Saved>, k: string)
    ensures OfPeriod(PeriodOf(us, ss, k)) == Plus(ValueAt(OfUsage, us, k), ValueAt(OfSaved, ss, k))
  {
    hide Plus, Complete, OfUsage, OfSaved;
    CompleteKeeps(Period(k, At(us, k), At(ss, k), None, None, None));
  }

  lemma CompleteKeeps(p: Period)
    ensures Complete(p).usage == p.usage && Complete(p).saved == p.saved
  {
    hide Price, WeightedUnits;
  }

  /** Changing one key changes the sum by the difference of its values. */
  lemma {:induction false} SumKeysUpdate<V>(f: V -> Sums, m: map<string, V>, order: seq<string>, k: string, v: V)
    requires forall i, j :: 0 <= i < j < |order| ==> order[i] != order[j]
    ensures Plus(SumKeys(f, m[k := v], order), if k in order then ValueAt(f, m, k) else ZERO) ==
            Plus(SumKeys(f, m, order), if k in order then f(v) else ZERO)
  {
    hide Plus;
    if order != [] {
      var init, last := order[..|order| - 1], order[|order| - 1];
      assert order == init + [last] && last !in init;
      SumKeysUpdate(f, m, init, k, v);
      var now, before := SumKeys(f, m[k := v], init), SumKeys(f, m, init);
      PlusLaws(now, ValueAt(f, m, last), if k in order then ValueAt(f, m, k) else ZERO);
      PlusLaws(before, ValueAt(f, m, last), if k in order then f(v) else ZERO);
      if last == k {
        PlusLaws(now, ZERO, ZERO);
        PlusLaws(before, ZERO, ZERO);
        PlusLaws(before, f(v), ValueAt(f, m, k));
      }
    }
  }

  lemma {:induction false} SumKeysLatest<V>(f: V -> Sums, es: Entries<V>, order: seq<string>)
    requires forall i, j :: 0 <= i < j < |order| ==> order[i] != order[j]
    requires forall i :: 0 <= i < |es| ==> es[i].0 in order
    ensures Plus(SumKeys(f, Latest(es), order), Replaced(f, es)) == SumEntries(f, es)
  {
    hide Plus;
    if es == [] {
      SumKeysEmpty(f, order);
      PlusLaws(ZERO, ZERO, ZERO);
    } else {
      var init, e := es[..|es| - 1], es[|es| - 1];
      SumKeysLatest(f, init, order);
      SumKeysUpdate(f, Latest(init), order, e.0, e.1);
      var old_ := ValueAt(f, Latest(init), e.0);
      PlusLaws(SumKeys(f, Latest(es), order), Replaced(f, init), old_);
      PlusLaws(SumKeys(f, Latest(init), order), f(e.1), Replaced(f, init));
      assert es[|es| - 1].0 in order;
    }
  }

  lemma {:induction false} SumKeysEmpty<V>(f: V -> Sums, order: seq<string>)
    ensures SumKeys(f, map[], order) == ZERO
  {
    if order != [] {
      SumKeysEmpty(f, order[..|order| - 1]);
    }
  }

  lemma {:induction false} LatestKeys<V>(es: Entries<V>, i: nat)
    requires i < |es|
    ensures es[i].0 in Latest(es)
  {
    if i < |es| - 1 {
      LatestKeys(es[..|es| - 1], i);
    }
  }

  /** No key twice within an input. */
  ghost predicate DistinctKeys<V>(es: Entries<V>) {
    es == [] || (es[|es| - 1].0 !in Latest(es[..|es| - 1]) && DistinctKeys(es[..|es| - 1]))
  }

  lemma {:induction false} NothingReplaced<V>(f: V -> Sums, es: Entries<V>)
    requires DistinctKeys(es)
    ensures Replaced(f, es) == ZERO
  {
    if es != [] {
      NothingReplaced(f, es[..|es| - 1]);
    }
  }

  /** For all inputs the totals of the merged periods are the sums of the inputs
      less the entries that were replaced; with distinct keys nothing is lost. */
  lemma MergeConserves(cc: Entries<Usage>, tm: Entries<Saved>, order: seq<string>)
    requires IsOrder(order, Latest(cc).Keys + Latest(tm).Keys)
    ensures var merged := Total(Sorted(Latest(cc), Latest(tm), order));
            var inputs := Plus(SumEntries(OfUsage, cc), SumEntries(OfSaved, tm));
            && Plus(merged, Plus(Replaced(OfUsage, cc), Replaced(OfSaved, tm))) == inputs
            && (DistinctKeys(cc) && DistinctKeys(tm) ==> merged == inputs)
  {
    hide Sorted, Total, SumKeys, SumEntries, Replaced, Plus;
    Interchange(SumKeys(OfUsage, Latest(cc), order), SumKeys(OfSaved, Latest(tm), order), Replaced(OfUsage, cc), Replaced(OfSaved, tm));
    TotalSorted(Latest(cc), Latest(tm), order);
    forall i | 0 <= i < |cc| ensures cc[i].0 in order {
      LatestKeys(cc, i);
      assert cc[i].0 in Latest(cc).Keys + Latest(tm).Keys;
    }
    forall i | 0 <= i < |tm| ensures tm[i].0 in order {
      LatestKeys(tm, i);
      assert tm[i].0 in Latest(cc).Keys + Latest(tm).Keys;
    }
    SumKeysLatest(OfUsage, cc, order);
    SumKeysLatest(OfSaved, tm, order);
    if DistinctKeys(cc) && DistinctKeys(tm) {
      NothingReplaced(OfUsage, cc);
      NothingReplaced(OfSaved, tm);
      PlusLaws(Total(Sorted(Latest(cc), Latest(tm), order)), ZERO, ZERO);
    }
  }

  // ---- computeTotals -------------------------------------------------------------------------------------

  datatype Totals = Totals(sums: Sums, averagePercent: real, weighted: Option<Metric>, blended: Option<Metric>, active: Option<Metric>)

  function TotalUnits(t: Sums): real {
    t.input as real + WEIGHT_OUTPUT * t.output as real
    + WEIGHT_CACHE_CREATE * t.cacheCreate as real + WEIGHT_CACHE_READ * t.cacheRead as real
  }

  function PercentSum(ps: seq<Period>): real {
    if ps == [] then 0.0
    else PercentSum(ps[..|ps| - 1]) + if ps[|ps| - 1].saved.Some? then ps[|ps| - 1].saved.value.percent else 0.0
  }

  function PercentCount(ps: seq<Period>): nat {
    if ps == [] then 0 else PercentCount(ps[..|ps| - 1]) + if ps[|ps| - 1].saved.Some? then 1 else 0
  }

  lemma PlusPeriod(sums: Sums, p: Period)
    ensures var s1 := if p.usage.Some? then Plus(sums, OfUsage(p.usage.value)) else sums;
            var s2 := if p.saved.Some? then Plus(s1, OfSaved(p.saved.value)) else s1;
            s2 == Plus(sums, OfPeriod(p))
  {
  }

  method ComputeTotals(ps: seq<Period>) returns (t: Totals)
    ensures t.sums == Total(ps)
    ensures t.averagePercent == if PercentCount(ps) == 0 then 0.0 else PercentSum(ps) / PercentCount(ps) as real
    ensures t.weighted == Price(t.sums.cost, TotalUnits(t.sums), t.sums.tokens)
    ensures t.blended == Price(t.sums.cost, t.sums.total as real, t.sums.tokens)
    ensures t.active == Price(t.sums.cost, (t.sums.input + t.sums.output) as real, t.sums.tokens)
  {
    hide Price, TotalUnits, Plus, OfUsage, OfSaved;
    var sums := ZERO;
    var percents, count := 0.0, 0;
    for i := 0 to |ps|
      invariant sums == Total(ps[..i])
      invariant percents == PercentSum(ps[..i]) && count == PercentCount(ps[..i])
    {
      var p := ps[i];
      assert ps[..i + 1][..i] == ps[..i];
      PlusPeriod(sums, p);
      if p.usage.Some? {
        sums := Plus(sums, OfUsage(p.usage.value));
      }
      if p.saved.Some? {
        sums := Plus(sums, OfSaved(p.saved.value));
        percents := percents + p.saved.value.percent;
        count := count + 1;
      }
    }
    assert ps[..|ps|] == ps;
    t := Totals(sums, if count > 0 then percents / count as real else 0.0,
                Price(sums.cost, TotalUnits(sums), sums.tokens),
                Price(sums.cost, sums.total as real, sums.tokens),
                Price(sums.cost, (sums.input + sums.output) as real, sums.tokens));
  }

  // ---- Weighted and active savings ---------------------------------------------------------------------------

  lemma DivideMonotone(cost: real, small: real, large: real)
    requires cost >= 0.0 && 0.0 < small <= large
    ensures cost / large <= cost / small
  {
    var q := cost / large;
    assert q >= 0.0 && q * large == cost;
    assert q * small <= q * large;
  }

  lemma TimesMonotone(n: int, a: real, b: real)
    requires n >= 0 && a <= b
    ensures n as real * a <= n as real * b
  {
  }

  /** At the price per weighted unit nothing is saved that is not saved at the
      price per active token, which counts fewer units. */
  lemma WeightedAtMostActive(cost: real, tokens: int, input: int, output: int, weighted: real)
    requires cost >= 0.0 && tokens >= 0 && weighted >= (input + output) as real
    ensures var a, w := Price(cost, (input + output) as real, tokens), Price(cost, weighted, tokens);
            a.Some? ==> w.Some? && w.value.cpt <= a.value.cpt && w.value.savings <= a.value.savings
  {
    var small := (input + output) as real;
    if small > 0.0 {
      DivideMonotone(cost, small, weighted);
      TimesMonotone(tokens, cost / weighted, cost / small);
    }
  }

  /** Per period, for every period the merge produces. */
  lemma PeriodWeighted(p: Period)
    requires p.usage.Some? && p.saved.Some? && p.usage.value.cost >= 0.0 && p.saved.value.tokens >= 0
    ensures var c := Complete(p);
            c.active.Some? ==> c.weighted.Some? && c.weighted.value.savings <= c.active.value.savings
  {
    hide Price;
    var u := p.usage.value;
    WeightedAtMostActive(u.cost, p.saved.value.tokens, u.input, u.output, WeightedUnits(u));
  }

  /** And in total, however the periods are put together. */
  lemma TotalWeighted(ps: seq<Period>)
    requires forall i :: 0 <= i < |ps| ==>
               (ps[i].usage.Some? ==> ps[i].usage.value.cost >= 0.0) && (ps[i].saved.Some? ==> ps[i].saved.value.tokens >= 0)
    ensures var t := Total(ps);
            var a, w := Price(t.cost, (t.input + t.output) as real, t.tokens), Price(t.cost, TotalUnits(t), t.tokens);
            a.Some? ==> w.Some? && w.value.savings <= a.value.savings
  {
    hide Price;
    TotalNonNegative(ps);
    var t := Total(ps);
    WeightedAtMostActive(t.cost, t.tokens, t.input, t.output, TotalUnits(t));
  }

  lemma {:induction false} TotalNonNegative(ps: seq<Period>)
    requires forall i :: 0 <= i < |ps| ==>
               (ps[i].usage.Some? ==> ps[i].usage.value.cost >= 0.0) && (ps[i].saved.Some? ==> ps[i].saved.value.tokens >= 0)
    ensures var t := Total(ps);
            t.cost >= 0.0 && t.tokens >= 0 && t.input >= 0 && t.output >= 0 && t.cacheCreate >= 0 && t.cacheRead >= 0
  {
    if ps != [] {
      TotalNonNegative(ps[..|ps| - 1]);
    }
  }

  // ---- Prices ----------------------------------------------------------------------------------

  /** The price times the units is the cost, and the savings are the saved tokens at
      that price; there is a price if and only if there are units. */
  ghost predicate Prices(m: Option<Metric>, cost: real, units: real, tokens: int) {
    match m
    case None => units <= 0.0
    case Some(p) => units > 0.0 && p.cpt * units == cost && p.savings * units == tokens as real * cost
  }

  lemma PriceIs(cost: real, units: real, tokens: int)
    ensures Prices(Price(cost, units, tokens), cost, units, tokens)
  {
    if units > 0.0 {
      var p := cost / units;
      assert p * units == cost;
      Regroup(tokens as real, p, units);
    }
  }

  lemma Regroup(a: real, b: real, c: real)
    ensures (a * b) * c == a * (b * c)
  {
  }

  /** Twenty weighted units: 20 per input token, 100 per output token, 25 per cache write
      and 2 per cache read. */
  lemma WeightsAre(u: Usage, t: Sums)
    ensures 20.0 * WeightedUnits(u) == (20 * u.input + 100 * u.output + 25 * u.cacheCreate + 2 * u.cacheRead) as real
    ensures 20.0 * TotalUnits(t) == (20 * t.input + 100 * t.output + 25 * t.cacheCreate + 2 * t.cacheRead) as real
  {
  }

  /** A period with both sides has all three metrics, each with its own units: weighted,
      all tokens, and input plus output.  Its data stays, and a period with one side
      stays as it is. */
  lemma MetricsExactly(p: Period)
    ensures var c := Complete(p);
            && c.name == p.name && c.usage == p.usage && c.saved == p.saved
            && (p.usage.None? || p.saved.None? ==> c == p)
            && (p.usage.Some? && p.saved.Some? ==>
                  var u, t := p.usage.value, p.saved.value.tokens;
                  && Prices(c.weighted, u.cost, WeightedUnits(u), t)
                  && Prices(c.blended, u.cost, u.total as real, t)
                  && Prices(c.active, u.cost, (u.input + u.output) as real, t))
  {
    hide Price, Prices, WeightedUnits;
    if p.usage.Some? && p.saved.Some? {
      var u, t := p.usage.value, p.saved.value.tokens;
      PriceIs(u.cost, WeightedUnits(u), t);
      PriceIs(u.cost, u.total as real, t);
      PriceIs(u.cost, (u.input + u.output) as real, t);
    }
  }

  // ---- Sums, field by field ----------------------------------------------------------------------

  /** The sum of a field over the periods that have it. */
  ghost function SumUsage(ps: seq<Period>, f: Usage -> int): int {
    if ps == [] then 0
    else SumUsage(ps[..|ps| - 1], f) + match ps[|ps| - 1].usage case Some(u) => f(u) case None => 0
  }

  ghost function SumSaved(ps: seq<Period>, f: Saved -> int): int {
    if ps == [] then 0
    else SumSaved(ps[..|ps| - 1], f) + match ps[|ps| - 1].saved case Some(s) => f(s) case None => 0
  }

  ghost function SumCost(ps: seq<Period>): real {
    if ps == [] then 0.0
    else SumCost(ps[..|ps| - 1]) + match ps[|ps| - 1].usage case Some(u) => u.cost case None => 0.0
  }

  /** Every total is the sum of its own field. */
  lemma {:induction false} TotalsByField(ps: seq<Period>)
    ensures var t := Total(ps);
            && t.cost == SumCost(ps) && t.total == SumUsage(ps, (u: Usage) => u.total)
            && t.input == SumUsage(ps, (u: Usage) => u.input) && t.output == SumUsage(ps, (u: Usage) => u.output)
            && t.cacheCreate == SumUsage(ps, (u: Usage) => u.cacheCreate)
            && t.cacheRead == SumUsage(ps, (u: Usage) => u.cacheRead)
            && t.commands == SumSaved(ps, (s: Saved) => s.commands) && t.tokens == SumSaved(ps, (s: Saved) => s.tokens)
  {
    if ps != [] {
      TotalsByField(ps[..|ps| - 1]);
    }
  }

  ghost function SumPercent(ps: seq<Period>): real {
    if ps == [] then 0.0
    else SumPercent(ps[..|ps| - 1]) + match ps[|ps| - 1].saved case Some(s) => s.percent case None => 0.0
  }

  /** The average percentage is over the periods that report one. */
  lemma {:induction false} PercentsCounted(ps: seq<Period>)
    ensures PercentCount(ps) == SumSaved(ps, (s: Saved) => 1) && PercentSum(ps) == SumPercent(ps)
  {
    if ps != [] {
      PercentsCounted(ps[..|ps| - 1]);
    }
  }

  /** Labels are ordered as text: a start comes before its continuation, and the first
      difference decides. */
  lemma {:induction false} LessLexicographic(a: string, c: char, d: char, x: string, y: string)
    requires c < d
    ensures Less(a + [c] + x, a + [d] + y) && Less(a, a + [c] + x)
  {
    var s, t := a + [c] + x, a + [d] + y;
    if a != "" {
      LessLexicographic(a[1..], c, d, x, y);
      assert s[1..] == a[1..] + [c] + x && t[1..] == a[1..] + [d] + y;
    }
  }
}
