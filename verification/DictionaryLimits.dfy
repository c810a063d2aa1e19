/** Encode calls that are not undone: with a word that reaches into a symbol, and
    past 255 codes. */
module DictionaryLimits {
  import opened Collections
  import opened Text
  import opened Dictionary
  import opened DictionaryTokens
  import opened DictionaryCodes

  /** Patterns that do not occur leave the text alone. */
  lemma {:induction false} SubstituteAbsent(order: seq<(string, string)>, t: string)
    requires forall i :: 0 <= i < |order| ==> order[i].0 != "" && !Contains(t, order[i].0)
    ensures Substitute(order, t) == t
  {
    if order != [] {
      var p := order[|order| - 1];
      assert p.0 != "" && !Contains(t, p.0);
      SubstituteAbsent(order[..|order| - 1], t);
      ReplaceAllAbsent(t, p.0, p.1);
    }
  }

  lemma {:induction false} SubstituteFirst(p: (string, string), rest: seq<(string, string)>, t: string)
    ensures Substitute([p] + rest, t) == Substitute(rest, ReplaceAll(t, p.0, p.1))
  {
    var order := [p] + rest;
    if rest == [] {
      assert order[..0] == [] && order == [p];
    } else {
      SubstituteFirst(p, rest[..|rest| - 1], t);
      assert order[..|order| - 1] == [p] + rest[..|rest| - 1];
      assert order[|order| - 1] == rest[|rest| - 1];
    }
  }

  /** An iteration order that starts where we like. */
  lemma OrderStartingWith(items: set<(string, string)>, p: (string, string)) returns (rest: seq<(string, string)>)
    requires p in items
    ensures IsOrder([p] + rest, items)
    ensures forall i :: 0 <= i < |rest| ==> rest[i] in items && rest[i] != p
  {
    rest := OrderExists(items - {p});
  }

  lemma OrderStartingWithTwo(items: set<(string, string)>, p: (string, string), q: (string, string))
      returns (rest: seq<(string, string)>)
    requires p in items && q in items && p != q
    ensures IsOrder([p] + ([q] + rest), items)
    ensures forall i :: 0 <= i < |rest| ==> rest[i] in items && rest[i] != p && rest[i] != q
  {
    rest := OrderExists(items - {p, q});
    assert items == {p} + ({q} + (items - {p, q}));
  }

  lemma DollarAbsent(t: string, s: string)
    requires '$' !in t && '$' in s
    ensures !Contains(t, s)
  {
    forall i | 0 <= i <= |t| ensures !(s <= t[i..]) {
      var j :| 0 <= j < |s| && s[j] == '$';
      assert j < |t[i..]| ==> t[i..][j] in t;
    }
  }

  lemma {:induction false} SymbolsDollar(n: nat, s: string)
    requires s in Symbols(n)
    ensures '$' in s
  {
    if s != Symbol(n) {
      SymbolsDollar(n - 1, s);
    }
  }

  lemma {:induction false} SubstituteConcat(a: seq<(string, string)>, b: seq<(string, string)>, t: string)
    ensures Substitute(a + b, t) == Substitute(b, Substitute(a, t))
  {
    hide ReplaceAll;
    if b == [] {
      assert a + b == a;
    } else {
      SubstituteConcat(a, b[..|b| - 1], t);
      ConcatInit(a, b);
    }
  }

  // ---- Calls that teach nothing ------------------------------------------------------------

  lemma {:induction false} LearnNothing(d: Dict, order: seq<(string, nat)>)
    requires forall i :: 0 <= i < |order| ==> !Teaches(order[i], order[i].0)
    ensures LearnAll(d, order) == d
  {
    if order != [] {
      LearnNothing(d, order[..|order| - 1]);
      assert !Teaches(order[|order| - 1], order[|order| - 1].0);
    }
  }

  lemma NotFrequent(t: string, w: string)
    requires Fields(t) == [t]
    ensures !Frequent(t, w)
  {
    hide Standing;
    if w != "" && Solid(w) {
      FieldsStanding(t, w);
      assert multiset([t])[w] <= 1;
    }
  }

  /** A text without white space is one field and teaches nothing: encoding it is
      a call that leaves the dictionary as it is, whatever the orders. */
  lemma QuietCall(d: Dict, t: string, applying: seq<(string, string)>) returns (learning: seq<(string, nat)>)
    requires Solid(t) && t != "" && IsOrder(applying, d.codebook.Items)
    ensures Encodes(d, t, learning, applying, d, Substitute(applying, t))
  {
    hide IsOrder, Substitute, LearnAll, Solid;
    learning := OrderExists(Frequencies(Fields(t)).Items);
    SolidField(t);
    forall i | 0 <= i < |learning| ensures !Teaches(learning[i], learning[i].0) {
      TaughtIffFrequent(t, learning, learning[i].0);
      NotFrequent(t, learning[i].0);
    }
    LearnNothing(d, learning);
  }

  // ---- A word that reaches into a symbol -------------------------------------------------

  /** Decoding may repair the damage of a word w that reaches at position k into the
      symbol of u: a symbol with more than two digits starts both the symbol of w
      and the text that w leaves behind. */
  ghost predicate Repairs(d: Dict, u: string, w: string, k: nat)
    requires u in d.codebook && w in d.codebook && k <= |d.codebook[u]|
  {
    exists y :: y in d.reverse && |y| > 3 && y <= d.codebook[w] && y <= d.codebook[u][..k] + w
  }

  ghost predicate Harms(d: Dict, u: string, w: string, k: nat)
    requires u in d.codebook && w in d.codebook
  {
    && |d.codebook[u]| >= 3 && 1 <= k <= 2 && u != w
    && ReachesAt(u, d.codebook[u], w, k) && !Repairs(d, u, w, k)
    && (k == 2 ==> !(d.codebook[u][1..] <= w))
  }

  /** Whenever a word w reaches into the symbol of another word u, beyond repair,
      some call on a '$'-free text is not undone: after u is replaced, its symbol
      and the following text spell w. */
  lemma OverlapFails(d: Dict, u: string, w: string, k: nat)
      returns (t: string, learning: seq<(string, nat)>, applying: seq<(string, string)>, decoding: seq<(string, string)>)
    requires Usable(d) && Chained(d) && u in d.codebook && w in d.codebook && Harms(d, u, w, k)
    ensures '$' !in t && Encodes(d, t, learning, applying, d, Substitute(applying, t))
    ensures IsOrder(decoding, d.reverse.Items)
    ensures Substitute(decoding, Substitute(applying, t)) != t
  {
    hide Repairs, IsOrder, Substitute, Usable, Encodes, Solid, Chained, Contains, SymbolForm, Consistent;
    var s, x := d.codebook[u], d.codebook[w];
    WordFacts(d, u);
    WordFacts(d, w);
    var r := w[|s| - k..];
    t := u + r;
    ReachText(u, w, |s| - k);
    var others := OrderStartingWithTwo(d.codebook.Items, (u, s), (w, x));
    applying := [(u, s)] + ([(w, x)] + others);
    OverlapEncode(d, u, w, k, others);
    decoding := OverlapDecode(d, u, w, k);
    StartsWithSymbol(s, r, u);
    learning := QuietCall(d, t, applying);
  }

  lemma StartsWithSymbol(s: string, r: string, u: string)
    requires SymbolForm(s) && u != "" && '$' !in u
    ensures s + r != u + r
  {
    assert (s + r)[0] == '$' && (u + r)[0] == u[0] && u[0] in u;
  }

  lemma WordFacts(d: Dict, w: string)
    requires Usable(d) && w in d.codebook
    ensures |w| >= 2 && '$' !in w && Solid(w) && Consistent(d)
    ensures SymbolForm(d.codebook[w]) && d.codebook[w] in d.reverse && d.reverse[d.codebook[w]] == w
  {
    hide Compact, Solid;
    assert ByteLen(w) > 5;
    FormOf(d, d.codebook[w]);
  }

  lemma NotInside(d: Dict, s: string, w: string, k: nat)
    requires Usable(d) && s in d.reverse && w in d.codebook && k <= |s|
    ensures !(w <= s[k..])
  {
    assert !Contains(s, w);
  }

  lemma ReachText(u: string, w: string, k: nat)
    requires k <= |w| && '$' !in u && '$' !in w && Solid(u) && Solid(w) && u != ""
    ensures '$' !in u + w[k..] && Solid(u + w[k..]) && u + w[k..] != ""
  {
    forall i | 0 <= i < |u + w[k..]| ensures !IsSpace((u + w[k..])[i]) {
      assert i >= |u| ==> (u + w[k..])[i] == w[k + i - |u|];
    }
  }

  /** Encoding u and the rest of w, with u, then w, then the others, leaves the
      start of the symbol of u and the symbol of w. */
  lemma OverlapEncode(d: Dict, u: string, w: string, k: nat, others: seq<(string, string)>)
    requires Usable(d) && u in d.codebook && w in d.codebook && Harms(d, u, w, k)
    requires forall i :: 0 <= i < |others| ==> others[i] in d.codebook.Items
    ensures var s, x := d.codebook[u], d.codebook[w];
            Substitute([(u, s)] + ([(w, x)] + others), u + w[|s| - k..]) == s[..k] + x
  {
    hide Usable, ReplaceAll, Substitute, Contains, SymbolForm, Consistent, Solid, Repairs;
    var s, x := d.codebook[u], d.codebook[w];
    var r := w[|s| - k..];
    WordFacts(d, u);
    WordFacts(d, w);
    SubstituteFirst((u, s), [(w, x)] + others, u + r);
    SubstituteFirst((w, x), others, s + r);
    NotInside(d, s, w, 1);
    TwoReplaces(u, s, w, x, k);
    OthersAbsent(d, s, x, k, others);
    SubstituteAbsent(others, s[..k] + x);
  }

  lemma TwoReplaces(u: string, s: string, w: string, x: string, k: nat)
    requires SymbolForm(s) && 1 <= k <= 2 && ReachesAt(u, s, w, k) && '$' !in w && |w| >= 2 && u != ""
    requires !(w <= s[1..]) && (k == 2 ==> !(s[1..] <= w))
    ensures ReplaceAll(u + w[|s| - k..], u, s) == s + w[|s| - k..]
    ensures ReplaceAll(s + w[|s| - k..], w, x) == s[..k] + x
  {
    hide ReplaceAll, Contains;
    var r := w[|s| - k..];
    ReplaceFirst(u, r, s);
    ReplaceAllAbsent(r, u, s);
    TakeDrop(w, |s| - k);
    ReplaceInside(s, r, w, x, k);
  }

  /** A match at the k-th character of a symbol and the text behind it. */
  lemma ReplaceInside(s: string, r: string, w: string, x: string, k: nat)
    requires SymbolForm(s) && 1 <= k <= 2 && w == s[k..] + r && '$' !in w && w != ""
    requires k == 2 ==> !(s[1..] <= w) && !(w <= s[1..])
    ensures ReplaceAll(s + r, w, x) == s[..k] + x
  {
    hide ReplaceAll;
    var t := s + r;
    assert w[0] in w;
    ReplaceStep(t, w, x);
    assert s[..1] == [t[0]] && t[1..] == s[1..] + r;
    if k == 2 {
      PrefixOfConcat(w, s[1..], r);
      ReplaceStep(t[1..], w, x);
      assert t[1..][1..] == w && s[..2] == [t[0]] + [t[1]];
    }
    ReplaceWhole(w, x);
  }

  /** No word occurs in the start of a symbol and another symbol. */
  lemma OthersAbsent(d: Dict, s: string, x: string, k: nat, others: seq<(string, string)>)
    requires Usable(d) && SymbolForm(s) && x in d.reverse && 1 <= k <= 2
    requires forall i :: 0 <= i < |others| ==> others[i] in d.codebook.Items
    ensures forall i :: 0 <= i < |others| ==> others[i].0 != "" && !Contains(s[..k] + x, others[i].0)
  {
    hide Usable, Contains;
    forall i | 0 <= i < |others| ensures others[i].0 != "" && !Contains(s[..k] + x, others[i].0) {
      var v := others[i].0;
      assert others[i] in d.codebook.Items && v in d.codebook;
      WordFacts(d, v);
      OtherAbsent(d, s, x, k, v);
    }
  }

  lemma OtherAbsent(d: Dict, s: string, x: string, k: nat, v: string)
    requires Usable(d) && SymbolForm(s) && x in d.reverse && 1 <= k <= 2
    requires v in d.codebook && |v| >= 2 && '$' !in v
    ensures !Contains(s[..k] + x, v)
  {
    hide Usable;
    var t := s[..k] + x;
    assert Consistent(d) by { WordFacts(d, v); }
    FormOf(d, x);
    forall i | 0 <= i <= |t| ensures !(v <= t[i..]) {
      assert v[0] in v && v[1] in v;
      if i >= k {
        NotInside(d, x, v, i - k);
        assert t[i..] == x[i - k..];
      } else {
        assert t[i..][0] == t[i] && t[i..][1] == t[i + 1] && t[k] == '$';
      }
    }
  }

  // ---- Decoding it ----------------------------------------------------------------------------

  /** No symbol occurs that starts neither the second symbol nor the whole. */
  lemma SymbolAbsent(s: string, x: string, k: nat, y: string)
    requires SymbolForm(s) && SymbolForm(x) && SymbolForm(y) && 1 <= k <= 2 && !(y <= x)
    ensures !Contains(s[..k] + x, y)
  {
    var t := s[..k] + x;
    forall i | 0 <= i <= |t| ensures !(y <= t[i..]) {
      if i == k {
        assert t[i..] == x;
      } else if i == 0 {
        assert t[0..] == t && t[k] == '$' && y[k] in y[1..];
      } else if i < |t| {
        assert t[i..][0] == t[i];
        assert i > k ==> t[i] == x[i - k] && x[i - k] in x[1..];
        assert i < k ==> t[i] == s[i] && s[i] in s[1..];
      }
    }
  }

  /** A text that starts with its only '$' holds only symbols that start it. */
  lemma OnlyAtStart(t: string, y: string)
    requires t != "" && '$' !in t[1..] && SymbolForm(y) && !(y <= t)
    ensures !Contains(t, y)
  {
    forall i | 0 <= i <= |t| ensures !(y <= t[i..]) {
      if i == 0 {
        assert t[0..] == t;
      } else if i < |t| {
        assert t[i..][0] == t[1..][i - 1];
      }
    }
  }

  /** Decoding a symbol c that starts x = c + digits. */
  lemma DecodeBase(s: string, c: string, digits: string, v: string, k: nat)
    requires SymbolForm(s) && SymbolForm(c) && '$' !in digits && 1 <= k <= 2
    ensures ReplaceAll(s[..k] + (c + digits), c, v) == s[..k] + (v + digits)
  {
    hide ReplaceAll;
    var x := c + digits;
    var t := s[..k] + x;
    assert t[k] == '$' && c[k] in c[1..];
    ReplaceStep(t, c, v);
    if k == 1 {
      assert t[1..] == x && s[..1] == [t[0]];
    } else {
      assert s[1..][0] == s[1];
      ReplaceStep(t[1..], c, v);
      assert t[1..][1..] == x && s[..2] == [t[0]] + [t[1]];
    }
    ReplaceFirst(c, digits, v);
    assert digits + "" == digits;
    ReplaceSkipsPlain(digits, "", c, v);
    ReplaceNothing(c, v);
  }

  /** First the symbols that do not start x, then c, then the rest. */
  lemma DecodingOrder(items: set<(string, string)>, x: string, p: (string, string))
      returns (a: seq<(string, string)>, b: seq<(string, string)>)
    requires p in items && p.0 <= x
    ensures IsOrder(a + ([p] + b), items)
    ensures forall i :: 0 <= i < |a| ==> a[i] in items && !(a[i].0 <= x)
    ensures forall i :: 0 <= i < |b| ==> b[i] in items && b[i].0 <= x && b[i] != p
  {
    var early := set q | q in items && !(q.0 <= x);
    var late := items - early - {p};
    a := OrderExists(early);
    b := OrderExists(late);
    assert forall i :: 0 <= i < |a| ==> a[i] in a;
    assert forall i :: 0 <= i < |b| ==> b[i] in b;
    OrderCons(b, late, p);
    OrderConcat(a, early, [p] + b, late + {p});
    assert early + (late + {p}) == items;
  }

  /** The symbol of u is left standing. */
  lemma OverlapDecode(d: Dict, u: string, w: string, k: nat) returns (decoding: seq<(string, string)>)
    requires Usable(d) && Chained(d) && u in d.codebook && w in d.codebook && Harms(d, u, w, k)
    ensures IsOrder(decoding, d.reverse.Items)
    ensures var s, x := d.codebook[u], d.codebook[w];
            Substitute(decoding, s[..k] + x) == s + w[|s| - k..]
  {
    hide Usable, Chained, ReplaceAll, Substitute, Contains, IsOrder, SymbolForm, Repairs, Base, Tail, Symbol, WordOf, ShortSymbol, Consistent, Solid;
    var s, x := d.codebook[u], d.codebook[w];
    WordFacts(d, u);
    WordFacts(d, w);
    var n := CodeNumber(d, x, w);
    var c, digits, v := Symbol(Base(n)), Tail(n), WordOf(d, Base(n));
    CodeParts(d, n);
    assert c <= x && (c, v) in d.reverse.Items;
    var a, b := DecodingOrder(d.reverse.Items, x, (c, v));
    decoding := a + ([(c, v)] + b);
    SubstituteConcat(a, [(c, v)] + b, s[..k] + x);
    EarlyAbsent(d, s, x, k, a);
    SubstituteAbsent(a, s[..k] + x);
    SubstituteFirst((c, v), b, s[..k] + x);
    DecodeBase(s, c, digits, v, k);
    LeftStanding(s, w, k);
    LateAbsent(d, u, w, k, c, v, b);
    SubstituteAbsent(b, s[..k] + w);
  }

  lemma CodeParts(d: Dict, n: nat)
    requires Usable(d) && Chained(d) && 1 <= n <= d.counter
    ensures var c := Symbol(Base(n));
            && SymbolForm(c) && |c| == 3 && c in d.reverse && d.reverse[c] == WordOf(d, Base(n)) && '$' !in Tail(n)
            && Symbol(n) == c + Tail(n) && WordOf(d, n) == WordOf(d, Base(n)) + Tail(n)
  {
    hide Plain, Compact, Chained;
    SymbolBase(n);
    WordBase(d, n);
    BaseCode(d, n);
    ShortForm(d);
  }

  lemma LeftStanding(s: string, w: string, k: nat)
    requires |s| >= 3 && 1 <= k <= 2 && s[k..] <= w
    ensures s[..k] + w == s + w[|s| - k..]
  {
    TakeDrop(s, k);
    TakeDrop(w, |s| - k);
    Assoc(s[..k], s[k..], w[|s| - k..]);
  }

  lemma EarlyAbsent(d: Dict, s: string, x: string, k: nat, a: seq<(string, string)>)
    requires Usable(d) && SymbolForm(s) && x in d.reverse && 1 <= k <= 2
    requires forall i :: 0 <= i < |a| ==> a[i] in d.reverse.Items && !(a[i].0 <= x)
    ensures forall i :: 0 <= i < |a| ==> a[i].0 != "" && !Contains(s[..k] + x, a[i].0)
  {
    hide Usable, Contains;
    assert Consistent(d) by { UsableConsistent(d); }
    FormOf(d, x);
    forall i | 0 <= i < |a| ensures a[i].0 != "" && !Contains(s[..k] + x, a[i].0) {
      assert a[i] in d.reverse.Items && a[i].0 in d.reverse;
      FormOf(d, a[i].0);
      SymbolAbsent(s, x, k, a[i].0);
    }
  }

  lemma UsableConsistent(d: Dict)
    requires Usable(d)
    ensures Consistent(d)
  {
    hide Consistent, Plain, Compact;
  }

  lemma LateAbsent(d: Dict, u: string, w: string, k: nat, c: string, v: string, b: seq<(string, string)>)
    requires Usable(d) && u in d.codebook && w in d.codebook && Harms(d, u, w, k)
    requires c in d.reverse && d.reverse[c] == v && |c| == 3 && c <= d.codebook[w]
    requires forall i :: 0 <= i < |b| ==> b[i] in d.reverse.Items && b[i].0 <= d.codebook[w] && b[i] != (c, v)
    ensures forall i :: 0 <= i < |b| ==> b[i].0 != "" && !Contains(d.codebook[u][..k] + w, b[i].0)
  {
    hide Usable, Contains;
    WordFacts(d, u);
    WordFacts(d, w);
    var t := d.codebook[u][..k] + w;
    assert '$' !in t[1..] by { OneDollar(d.codebook[u], w, k); }
    forall i | 0 <= i < |b| ensures b[i].0 != "" && !Contains(t, b[i].0) {
      var y := b[i].0;
      assert b[i] in d.reverse.Items && y in d.reverse && d.reverse[y] == b[i].1;
      FormOf(d, y);
      assert |y| > 3 by { SameThree(y, c, d.codebook[w]); }
      OnlyAtStart(t, y);
    }
  }

  lemma SameThree(y: string, c: string, x: string)
    requires y <= x && c <= x && |c| == 3 && |y| >= 3
    ensures |y| == 3 ==> y == c
  {
    assert |y| == 3 ==> y == x[..3] == c;
  }

  lemma OneDollar(s: string, w: string, k: nat)
    requires SymbolForm(s) && '$' !in w && 1 <= k <= 2
    ensures s[..k] + w != "" && '$' !in (s[..k] + w)[1..]
  {
    var t := s[..k] + w;
    forall i | 0 <= i < |t[1..]| ensures t[1..][i] != '$' {
      assert i + 1 < k ==> t[1..][i] == s[1..][i];
      assert i + 1 >= k ==> t[1..][i] == w[i + 1 - k];
    }
  }

  lemma ReplaceWhole(x: string, w: string)
    requires x != ""
    ensures ReplaceAll(x, x, w) == w
  {
    assert x[|x|..] == "";
    assert w + "" == w;
  }

  // ---- Repair ---------------------------------------------------------------------------------

  /** How far decoding the symbols of `order` has come: nothing, the symbol of w, or
      also the symbol that is left standing. */
  ghost function Stage(order: seq<(string, string)>, x: string, left: string): nat {
    if order == [] then 0
    else
      var y, before := order[|order| - 1].0, Stage(order[..|order| - 1], x, left);
      if before == 0 then if y <= x then 1 else 0
      else if before == 1 && y <= left then 2
      else before
  }

  /** A symbol and one that it continues stand for the same text. */
  lemma WordContinues(d: Dict, y: string, rest: string, u: string, s: string, r: string)
    requires Usable(d) && Chained(d) && y in d.reverse && s in d.reverse && d.reverse[s] == u
    requires y + rest == s + r
    ensures d.reverse[y] + rest == u + r
  {
    hide Usable, Chained, Symbol, WordOf, Base, Tail, SymbolForm, Consistent;
    UsableConsistent(d);
    var m := CodeNumber(d, y, d.reverse[y]);
    var n := CodeNumber(d, s, u);
    CodeParts(d, m);
    CodeParts(d, n);
    SameBase(Symbol(Base(m)), Tail(m), rest, Symbol(Base(n)), Tail(n), r);
    Assoc(WordOf(d, Base(m)), Tail(m), rest);
    Assoc(WordOf(d, Base(n)), Tail(n), r);
  }

  lemma SameBase(c: string, a: string, rest: string, e: string, b: string, r: string)
    requires |c| == |e| && (c + a) + rest == (e + b) + r
    ensures c == e && a + rest == b + r
  {
    Assoc(c, a, rest);
    Assoc(e, b, r);
    var t := c + (a + rest);
    assert t[..|c|] == c && t[|c|..] == a + rest;
    assert t[..|c|] == e && t[|c|..] == b + r;
  }

  /** The text at each stage. */
  ghost function TextAt(stage: nat, s: string, x: string, k: nat, w: string, t: string): string
    requires k <= |s|
  {
    if stage == 0 then s[..k] + x else if stage == 1 then s[..k] + w else t
  }

  lemma StageStep(d: Dict, u: string, w: string, k: nat, stage: nat, y: string)
    requires Usable(d) && Chained(d) && u in d.codebook && w in d.codebook && y in d.reverse && stage <= 2
    requires var s := d.codebook[u]; |s| >= 3 && 1 <= k <= 2 && s[k..] <= w
    ensures var s, x := d.codebook[u], d.codebook[w];
            var left, t := s[..k] + w, u + w[|s| - k..];
            var next := if stage == 0 then if y <= x then 1 else 0 else if stage == 1 && y <= left then 2 else stage;
            ReplaceAll(TextAt(stage, s, x, k, w, t), y, d.reverse[y]) == TextAt(next, s, x, k, w, t)
  {
    hide Usable, Chained, ReplaceAll, Contains, SymbolForm, Consistent, Solid;
    var s, x := d.codebook[u], d.codebook[w];
    var left, t := s[..k] + w, u + w[|s| - k..];
    WordFacts(d, u);
    WordFacts(d, w);
    FormOf(d, y);
    if stage == 0 {
      FirstDecode(d, s, x, w, k, y);
    } else if stage == 1 {
      SecondDecode(d, u, s, w, k, y);
    } else {
      PlainConcat(u, w, |s| - k);
      NothingLeft(t, y, d.reverse[y]);
    }
  }

  lemma PlainConcat(u: string, w: string, n: nat)
    requires '$' !in u && '$' !in w && n <= |w|
    ensures '$' !in u + w[n..]
  {
  }

  lemma NothingLeft(t: string, y: string, v: string)
    requires '$' !in t && SymbolForm(y)
    ensures ReplaceAll(t, y, v) == t
  {
    assert y[0] in y;
    DollarAbsent(t, y);
    ReplaceAllAbsent(t, y, v);
  }

  lemma FirstDecode(d: Dict, s: string, x: string, w: string, k: nat, y: string)
    requires Usable(d) && Chained(d) && y in d.reverse && x in d.reverse && d.reverse[x] == w
    requires SymbolForm(s) && SymbolForm(x) && SymbolForm(y) && 1 <= k <= 2
    ensures ReplaceAll(s[..k] + x, y, d.reverse[y]) == s[..k] + if y <= x then w else x
  {
    hide Usable, Chained, ReplaceAll, Contains;
    if y <= x {
      var rest := x[|y|..];
      TakeDrop(x, |y|);
      assert x + "" == x && w + "" == w;
      assert '$' !in rest by { TailPlain(x, |y|); }
      WordContinues(d, y, rest, w, x, "");
      DecodeBase(s, y, rest, d.reverse[y], k);
    } else {
      SymbolAbsent(s, x, k, y);
      ReplaceAllAbsent(s[..k] + x, y, d.reverse[y]);
    }
  }

  lemma TailPlain(t: string, n: nat)
    requires 1 <= n <= |t| && '$' !in t[1..]
    ensures '$' !in t[n..]
  {
    DropDrop(t, 1, n - 1);
  }

  lemma SecondDecode(d: Dict, u: string, s: string, w: string, k: nat, y: string)
    requires Usable(d) && Chained(d) && y in d.reverse && s in d.reverse && d.reverse[s] == u
    requires SymbolForm(s) && SymbolForm(y) && 1 <= k <= 2 && s[k..] <= w && '$' !in w
    ensures ReplaceAll(s[..k] + w, y, d.reverse[y]) == if y <= s[..k] + w then u + w[|s| - k..] else s[..k] + w
  {
    hide Usable, Chained, ReplaceAll, Contains;
    var left, v := s[..k] + w, d.reverse[y];
    LeftStanding(s, w, k);
    OneDollar(s, w, k);
    if y <= left {
      var rest := left[|y|..];
      assert '$' !in rest by { TailPlain(left, |y|); }
      TakeDrop(left, |y|);
      WordContinues(d, y, rest, u, s, w[|s| - k..]);
      ReplaceFirst(y, rest, v);
      NothingLeft(rest, y, v);
    } else {
      OnlyAtStart(left, y);
      ReplaceAllAbsent(left, y, v);
    }
  }

  lemma {:induction false} StageText(d: Dict, u: string, w: string, k: nat, order: seq<(string, string)>)
    requires Usable(d) && Chained(d) && u in d.codebook && w in d.codebook && Decodes(d, order)
    requires var s := d.codebook[u]; |s| >= 3 && 1 <= k <= 2 && s[k..] <= w
    ensures var s, x := d.codebook[u], d.codebook[w];
            var stage := Stage(order, x, s[..k] + w);
            stage <= 2 && Substitute(order, s[..k] + x) == TextAt(stage, s, x, k, w, u + w[|s| - k..])
  {
    hide Usable, Chained, ReplaceAll, TextAt;
    var s, x := d.codebook[u], d.codebook[w];
    if order == [] {
      assert TextAt(0, s, x, k, w, u + w[|s| - k..]) == s[..k] + x by { FirstText(s, x, k, w, u + w[|s| - k..]); }
    } else {
      var init := order[..|order| - 1];
      StageText(d, u, w, k, init);
      StageStep(d, u, w, k, Stage(init, x, s[..k] + w), order[|order| - 1].0);
    }
  }

  lemma FirstText(s: string, x: string, k: nat, w: string, t: string)
    requires k <= |s|
    ensures TextAt(0, s, x, k, w, t) == s[..k] + x
  {
  }

  /** Two symbols that start both texts take decoding through both stages. */
  lemma {:induction false} StageReached(order: seq<(string, string)>, x: string, left: string, i: nat, j: nat)
    requires i < |order| && order[i].0 <= x && order[i].0 <= left
    requires j < i && order[j].0 <= x && order[j].0 <= left
    ensures Stage(order, x, left) == 2
  {
    if i == |order| - 1 {
      StageOne(order[..i], x, left, j);
    } else {
      StageReached(order[..|order| - 1], x, left, i, j);
    }
  }

  lemma {:induction false} StageOne(order: seq<(string, string)>, x: string, left: string, j: nat)
    requires j < |order| && order[j].0 <= x
    ensures 1 <= Stage(order, x, left) <= 2
  {
    StageBound(order, x, left);
    if j < |order| - 1 {
      StageOne(order[..|order| - 1], x, left, j);
    }
  }

  lemma {:induction false} StageBound(order: seq<(string, string)>, x: string, left: string)
    ensures Stage(order, x, left) <= 2
  {
    if order != [] {
      StageBound(order[..|order| - 1], x, left);
    }
  }

  /** A reach that is repaired does no harm to this text: what u and w make of it
      comes back in every order. */
  lemma RepairedComesBack(d: Dict, u: string, w: string, k: nat, decoding: seq<(string, string)>)
    requires Usable(d) && Chained(d) && u in d.codebook && w in d.codebook && IsOrder(decoding, d.reverse.Items)
    requires var s := d.codebook[u]; |s| >= 3 && 1 <= k <= 2 && s[k..] <= w && Repairs(d, u, w, k)
    ensures var s := d.codebook[u]; Substitute(decoding, s[..k] + d.codebook[w]) == u + w[|s| - k..]
  {
    hide Usable, Chained, Substitute, Stage, Symbol, WordOf, Base, Tail, SymbolForm, Consistent, Solid;
    var s, x := d.codebook[u], d.codebook[w];
    var left := s[..k] + w;
    WordFacts(d, w);
    var y :| y in d.reverse && |y| > 3 && y <= x && y <= left;
    var n := CodeNumber(d, x, w);
    CodeParts(d, n);
    var c := Symbol(Base(n));
    ShorterPrefix(c, y, x);
    var i := ItemAt(d, decoding, y);
    var j := ItemAt(d, decoding, c);
    if j < i {
      StageReached(decoding, x, left, i, j);
    } else {
      StageReached(decoding, x, left, j, i);
    }
    DecodesIf(d, decoding);
    StageText(d, u, w, k, decoding);
  }

  lemma ShorterPrefix(c: string, y: string, x: string)
    requires c <= x && y <= x && |c| <= |y|
    ensures c <= y
  {
  }

  lemma ItemAt(d: Dict, order: seq<(string, string)>, y: string) returns (i: nat)
    requires IsOrder(order, d.reverse.Items) && y in d.reverse
    ensures i < |order| && order[i].0 == y
  {
    assert (y, d.reverse[y]) in d.reverse.Items;
    i :| 0 <= i < |order| && order[i] == (y, d.reverse[y]);
  }

  // ---- More than 255 codes -------------------------------------------------------------------

  /** A word past code 255 that is not the word of the earlier symbol and the digit
      does not come back, on a '$'-free text. */
  lemma PastLimitFails(d: Dict, n: nat)
      returns (t: string, learning: seq<(string, nat)>, applying: seq<(string, string)>, decoding: seq<(string, string)>)
    requires Usable(d) && 256 <= n <= d.counter && !ChainedAt(d, n)
    ensures '$' !in t && Encodes(d, t, learning, applying, d, Substitute(applying, t))
    ensures IsOrder(decoding, d.reverse.Items)
    ensures Substitute(decoding, Substitute(applying, t)) != t
  {
    hide IsOrder, Substitute, Encodes, Contains, ReplaceAll, Consistent, Symbol, Plain, Solid, Compact, WordOf;
    var s, p := Symbol(n), Symbol(n / 16);
    CodeWord(d, n);
    CodeWord(d, n / 16);
    t := WordOf(d, n);
    var y := WordOf(d, n / 16);
    var others := OrderStartingWith(d.codebook.Items, (t, s));
    applying := [(t, s)] + others;
    SubstituteFirst((t, s), others, t);
    ReplaceWhole(t, s);
    NoOthers(d, s, others);
    SubstituteAbsent(others, s);
    var rest := OrderStartingWith(d.reverse.Items, (p, y));
    decoding := [(p, y)] + rest;
    SubstituteFirst((p, y), rest, s);
    SymbolSnoc(n);
    ReplaceFirst(p, LastDigit(n), y);
    DigitStays(n, p, y);
    DecodeRest(d, rest, y + LastDigit(n));
    learning := QuietCall(d, t, applying);
  }

  lemma NoOthers(d: Dict, s: string, order: seq<(string, string)>)
    requires Usable(d) && s in d.reverse && forall i :: 0 <= i < |order| ==> order[i] in d.codebook.Items
    ensures forall i :: 0 <= i < |order| ==> order[i].0 != "" && !Contains(s, order[i].0)
  {
    hide Contains, Plain;
    forall i | 0 <= i < |order| ensures order[i].0 != "" && !Contains(s, order[i].0) {
      assert order[i].0 in d.codebook && LongWords(d);
    }
  }

  lemma DigitStays(n: nat, p: string, w: string)
    requires p != "" && p[0] == '$'
    ensures ReplaceAll(LastDigit(n), p, w) == LastDigit(n) && '$' !in LastDigit(n)
  {
    assert LastDigit(n) + "" == LastDigit(n);
    ReplaceSkipsPlain(LastDigit(n), "", p, w);
    ReplaceNothing(p, w);
  }

  lemma DecodeRest(d: Dict, order: seq<(string, string)>, t: string)
    requires Consistent(d) && '$' !in t && forall i :: 0 <= i < |order| ==> order[i] in d.reverse.Items
    ensures Substitute(order, t) == t
  {
    hide Contains, Substitute;
    forall i | 0 <= i < |order| ensures order[i].0 != "" && !Contains(t, order[i].0) {
      assert order[i].0 in d.reverse;
      SymbolsDollar(d.counter, order[i].0);
      DollarAbsent(t, order[i].0);
    }
    SubstituteAbsent(order, t);
  }
}
