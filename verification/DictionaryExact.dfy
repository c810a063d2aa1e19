/** Exactly which dictionaries decode what they encode.

    A symbol appears only in the pass of its own word u, and behind it, up to the
    next symbol, the characters never spell u again.  So a word w that continues
    the symbol of u does harm only if it does not spell u itself behind it. */
module DictionaryExact {
  import opened Collections
  import opened Text
  import opened Dictionary
  import opened DictionaryTokens
  import opened DictionaryCodes
  import opened DictionaryRoundTrip
  import opened DictionaryLimits

  // ---- What follows a symbol ------------------------------------------------------------------

  /** The characters up to the next symbol do not spell u. */
  ghost predicate Free(toks: seq<Tok>, u: string) {
    toks == [] || toks[0].Sym? || (!Spells(toks, u) && Free(toks[1..], u))
  }

  /** The tokens go on with the digits, then with characters that do not spell u; or
      another symbol comes first. */
  ghost predicate Guards(toks: seq<Tok>, digits: string, u: string) {
    if digits == "" then Free(toks, u)
    else toks != [] && (toks[0].Sym? || (toks[0] == Lit(digits[0]) && Guards(toks[1..], digits[1..], u)))
  }

  /** Characters that spell a text spell what it contains. */
  lemma {:induction false} SpellsInner(toks: seq<Tok>, w: string, k: nat, u: string)
    requires Spells(toks, w) && k <= |w| && u <= w[k..] && u != ""
    ensures k < |toks| && Spells(toks[k..], u)
  {
    SpellsLength(toks, w);
    if k == 0 {
      assert toks[0..] == toks && w[0..] == w;
      SpellsPrefix(toks, w, u);
    } else {
      assert w[1..][k - 1..] == w[k..];
      SpellsInner(toks[1..], w[1..], k - 1, u);
      assert toks[1..][k - 1..] == toks[k..];
    }
  }

  lemma {:induction false} SpellsPrefix(toks: seq<Tok>, w: string, u: string)
    requires Spells(toks, w) && u <= w
    ensures Spells(toks, u)
  {
    if u != "" {
      SpellsPrefix(toks[1..], w[1..], u[1..]);
    }
  }

  lemma {:induction false} FreeAt(toks: seq<Tok>, u: string, w: string, k: nat)
    requires Free(toks, u) && Spells(toks, w) && k < |w|
    ensures k < |toks| && !Spells(toks[k..], u)
  {
    if k == 0 {
      assert toks[0..] == toks;
    } else {
      FreeAt(toks[1..], u, w[1..], k - 1);
      DropDrop(toks, 1, k - 1);
    }
  }

  lemma FreeContains(toks: seq<Tok>, w: string, u: string)
    requires Free(toks, u) && u != "" && Spells(toks, w)
    ensures !Contains(w, u)
  {
    forall k | 0 <= k <= |w| ensures !(u <= w[k..]) {
      if k < |w| {
        FreeAt(toks, u, w, k);
        if u <= w[k..] {
          SpellsInner(toks, w, k, u);
        }
      }
    }
  }

  /** A text that the tokens behind a symbol spell ends within the digits, or covers
      them and does not contain u behind them. */
  lemma {:induction false} GuardsSpell(toks: seq<Tok>, digits: string, u: string, w: string)
    requires Guards(toks, digits, u) && Spells(toks, w) && u != ""
    ensures w <= digits || (digits <= w && !Contains(w[|digits|..], u))
  {
    hide Contains;
    if digits == "" {
      FreeContains(toks, w, u);
      assert w[0..] == w;
    } else if w != "" {
      GuardsSpell(toks[1..], digits[1..], u, w[1..]);
      GuardsNext(w, digits, u);
    }
  }

  lemma GuardsNext(w: string, digits: string, u: string)
    requires w != "" && digits != "" && w[0] == digits[0]
    requires w[1..] <= digits[1..] || (digits[1..] <= w[1..] && !Contains(w[1..][|digits[1..]|..], u))
    ensures w <= digits || (digits <= w && !Contains(w[|digits|..], u))
  {
    hide Contains;
    TakeDrop(w, 1);
    TakeDrop(digits, 1);
    if digits[1..] <= w[1..] {
      DropDrop(w, 1, |digits| - 1);
    }
  }

  /** A word that fits no symbol and does not reach into this one passes it. */
  lemma SymbolPasses(u: string, s: string, w: string, rest: seq<Tok>)
    requires SymbolForm(s) && SymbolTokens(rest) && Guards(rest, s[3..], u) && u != ""
    requires '$' !in w && |w| >= 2 && !Reaches(u, s, w) && !(w <= s[1..]) && !(w <= s[2..])
    ensures Passes(s[..3], Render(rest), w)
  {
    hide Contains, Guards, Reaches;
    assert s[..3][1..] == s[1..3] && s[..3][2..] == s[2..3];
    PassesAt(u, s, w, rest, 1);
    PassesAt(u, s, w, rest, 2);
  }

  lemma PassesAt(u: string, s: string, w: string, rest: seq<Tok>, k: nat)
    requires SymbolForm(s) && SymbolTokens(rest) && Guards(rest, s[3..], u) && u != "" && 1 <= k <= 2
    requires '$' !in w && |w| >= 2 && !Reaches(u, s, w) && !(w <= s[k..])
    ensures !(w <= s[k..3] + Render(rest))
  {
    hide Contains, Guards, Read;
    PrefixOfConcat(w, s[k..3], Render(rest));
    var n := 3 - k;
    PrefixIsSpelled(rest, w[n..]);
    SplitSlices(s, w, k);
    if s[k..3] <= w && Spells(rest, w[n..]) {
      GuardsSpell(rest, s[3..], u, w[n..]);
      DropDrop(w, n, if s[3..] <= w[n..] then |s[3..]| else 0);
    }
  }

  /** s[k..] is its first digits and the others. */
  lemma SplitSlices(s: string, w: string, k: nat)
    requires |s| >= 3 && 1 <= k <= 2 && |w| >= 3 - k
    ensures s[k..3] <= w && s[3..] <= w[3 - k..] ==> s[k..] <= w
    ensures s[k..3] <= w && w[3 - k..] <= s[3..] ==> w <= s[k..]
    ensures |w| == 2 && w <= s[k..3] ==> w <= s[k..]
    ensures |s[3..]| == |s| - 3
  {
    assert s[k..] == s[k..3] + s[3..];
    TakeDrop(w, 3 - k);
  }

  // ---- The symbols made so far -----------------------------------------------------------------

  /** The symbol at the front was made in the pass of p. */
  ghost predicate MadeBy(p: (string, string), toks: seq<Tok>) {
    && toks != [] && toks[0].Sym? && |p.1| >= 3
    && p.1[..3] == toks[0].s && Guards(toks[1..], p.1[3..], p.0)
  }

  ghost predicate Made(done: seq<(string, string)>, toks: seq<Tok>) {
    toks == [] || (
      && (toks[0].Sym? ==> exists i :: 0 <= i < |done| && MadeBy(done[i], toks))
      && Made(done, toks[1..]))
  }

  /** The word w passes all symbols made so far. */
  ghost predicate Compatible(done: seq<(string, string)>, w: string) {
    forall i :: 0 <= i < |done| ==> CompatibleWith(done[i], w)
  }

  ghost predicate CompatibleWith(p: (string, string), w: string) {
    p.0 != "" && SymbolForm(p.1) && !Reaches(p.0, p.1, w) && !(w <= p.1[1..]) && !(w <= p.1[2..])
  }

  lemma {:induction false} MadeUntouched(done: seq<(string, string)>, toks: seq<Tok>, w: string)
    requires Made(done, toks) && SymbolTokens(toks) && Compatible(done, w) && '$' !in w && |w| >= 2
    ensures Untouched(toks, w)
  {
    hide CompatibleWith, Guards, Passes;
    if toks != [] {
      var rest := toks[1..];
      assert SymbolTokens(rest);
      MadeUntouched(done, rest, w);
      if toks[0].Sym? {
        var i :| 0 <= i < |done| && MadeBy(done[i], toks);
        assert CompatibleWith(done[i], w);
        OnePasses(done[i], toks, w);
      }
    }
  }

  lemma OnePasses(p: (string, string), toks: seq<Tok>, w: string)
    requires MadeBy(p, toks) && CompatibleWith(p, w) && SymbolTokens(toks[1..]) && '$' !in w && |w| >= 2
    ensures Passes(toks[0].s, Render(toks[1..]), w)
  {
    hide Guards, Reaches, Passes;
    SymbolPasses(p.0, p.1, w, toks[1..]);
  }

  // ---- One pass -----------------------------------------------------------------------------------

  /** Merging spells nothing that was not spelled before. */
  lemma {:induction false} MergeSpellsBack(toks: seq<Tok>, w: string, sub: seq<Tok>, u: string)
    requires w != "" && sub != [] && sub[0].Sym? && Spells(Merge(toks, w, sub), u)
    ensures Spells(toks, u)
  {
    if u != "" {
      MergeHead(toks, w, sub);
      MergeSpellsBack(toks[1..], w, sub, u[1..]);
    }
  }

  lemma MergeFront(toks: seq<Tok>, w: string, sub: seq<Tok>)
    requires w != "" && sub != [] && sub[0].Sym? && toks != []
    ensures var m := Merge(toks, w, sub);
            m != [] && if Spells(toks, w) then m[0].Sym? else m[0] == toks[0] && m[1..] == Merge(toks[1..], w, sub)
  {
    if Spells(toks, w) {
      SpellsLength(toks, w);
      ConcatTail(sub, Merge(toks[|w|..], w, sub));
    }
  }

  /** Later passes keep what follows a symbol, or put a symbol there. */
  lemma {:induction false} MergeFree(toks: seq<Tok>, w: string, sub: seq<Tok>, u: string)
    requires w != "" && sub != [] && sub[0].Sym? && u != "" && (u == w || Free(toks, u))
    ensures Free(Merge(toks, w, sub), u)
  {
    hide Spells, Merge;
    if toks == [] {
      MergeNothing(w, sub);
    } else {
      MergeFront(toks, w, sub);
      if !Spells(toks, w) && toks[0].Lit? {
        MergeFree(toks[1..], w, sub, u);
        if Spells(Merge(toks, w, sub), u) {
          MergeSpellsBack(toks, w, sub, u);
        }
      }
    }
  }

  lemma MergeNothing(w: string, sub: seq<Tok>)
    requires w != ""
    ensures Merge([], w, sub) == []
  {
  }

  lemma {:induction false} MergeGuards(toks: seq<Tok>, digits: string, w: string, sub: seq<Tok>, u: string)
    requires w != "" && sub != [] && sub[0].Sym? && u != "" && Guards(toks, digits, u)
    ensures Guards(Merge(toks, w, sub), digits, u)
  {
    hide Spells, Merge, Free;
    if digits == "" {
      MergeFree(toks, w, sub, u);
    } else {
      MergeFront(toks, w, sub);
      if !Spells(toks, w) && toks[0].Lit? {
        MergeGuards(toks[1..], digits[1..], w, sub, u);
      }
    }
  }

  /** The digits that a new symbol puts in front. */
  lemma {:induction false} LitsGuard(digits: string, toks: seq<Tok>, u: string)
    requires Free(toks, u)
    ensures Guards(Lits(digits) + toks, digits, u)
  {
    if digits == "" {
      assert Lits(digits) + toks == toks;
    } else {
      LitsGuard(digits[1..], toks, u);
      ConcatTail(Lits(digits), toks);
      assert Lits(digits)[1..] == Lits(digits[1..]);
    }
  }

  lemma {:induction false} LitsMade(done: seq<(string, string)>, digits: string, toks: seq<Tok>)
    requires Made(done, toks)
    ensures Made(done, Lits(digits) + toks)
  {
    hide MadeBy;
    if digits == "" {
      assert Lits(digits) + toks == toks;
    } else {
      LitsMade(done, digits[1..], toks);
      ConcatTail(Lits(digits), toks);
      assert Lits(digits)[1..] == Lits(digits[1..]);
    }
  }

  lemma {:induction false} MadeSuffix(done: seq<(string, string)>, toks: seq<Tok>, k: nat)
    requires Made(done, toks) && k <= |toks|
    ensures Made(done, toks[k..])
  {
    hide MadeBy;
    if k > 0 {
      MadeSuffix(done, toks[1..], k - 1);
      DropDrop(toks, 1, k - 1);
    } else {
      assert toks[0..] == toks;
    }
  }

  /** The tokens of a symbol. */
  function Tokens(x: string): seq<Tok>
    requires |x| >= 3
  {
    One(x[..3]) + Lits(x[3..])
  }

  /** A new symbol and what follows it. */
  lemma NewSymbol(done: seq<(string, string)>, w: string, x: string, after: seq<Tok>)
    requires |x| >= 3 && Free(after, w) && Made(done + [(w, x)], after)
    ensures Made(done + [(w, x)], Tokens(x) + after)
  {
    hide Free;
    var all, toks := done + [(w, x)], Tokens(x) + after;
    LitsGuard(x[3..], after, w);
    LitsMade(all, x[3..], after);
    assert toks[1..] == Lits(x[3..]) + after && toks[0] == Sym(x[..3]);
    assert MadeBy(all[|done|], toks);
  }

  /** A symbol made before stays one. */
  lemma OldSymbol(p: (string, string), toks: seq<Tok>, w: string, sub: seq<Tok>)
    requires MadeBy(p, toks) && w != "" && sub != [] && sub[0].Sym? && p.0 != ""
    ensures MadeBy(p, [toks[0]] + Merge(toks[1..], w, sub))
  {
    hide Merge, Guards;
    MergeGuards(toks[1..], p.1[3..], w, sub, p.0);
    assert ([toks[0]] + Merge(toks[1..], w, sub))[1..] == Merge(toks[1..], w, sub);
  }

  lemma {:induction false} MergeMade(done: seq<(string, string)>, toks: seq<Tok>, w: string, x: string)
    requires Made(done, toks) && w != "" && |x| >= 3 && forall i :: 0 <= i < |done| ==> done[i].0 != ""
    ensures Made(done + [(w, x)], Merge(toks, w, Tokens(x)))
    decreases |toks|
  {
    hide Spells, MadeBy, Free;
    var sub, all := Tokens(x), done + [(w, x)];
    if toks != [] {
      if Spells(toks, w) {
        SpellsLength(toks, w);
        MadeSuffix(done, toks, |w|);
        MergeMade(done, toks[|w|..], w, x);
        MergeFree(toks[|w|..], w, sub, w);
        NewSymbol(done, w, x, Merge(toks[|w|..], w, sub));
      } else {
        var rest := Merge(toks[1..], w, sub);
        MergeMade(done, toks[1..], w, x);
        assert ([toks[0]] + rest)[1..] == rest;
        if toks[0].Sym? {
          var i :| 0 <= i < |done| && MadeBy(done[i], toks);
          OldSymbol(done[i], toks, w, sub);
          assert all[i] == done[i];
        }
      }
    }
  }

  // ---- Symbols and their words --------------------------------------------------------------------

  lemma TokensMean(e: Dict, x: string)
    requires Consistent(e) && Chained(e) && x in e.reverse
    ensures SymbolForm(x) && Render(Tokens(x)) == x && Meaning(Short(e), Tokens(x)) == e.reverse[x]
    ensures Known(Short(e), Tokens(x))
  {
    hide Chained, Symbol, WordOf, Base, Tail, SymbolForm;
    FormOf(e, x);
    var n := CodeNumber(e, x, e.reverse[x]);
    CodeSplit(e, n);
    var s, t, b := x[..3], x[3..], Short(e);
    ReadConcat(map[], One(s), Lits(t));
    ReadConcat(b.reverse, One(s), Lits(t));
    ReadOne(map[], s);
    ReadOne(b.reverse, s);
    ReadLits(map[], t);
    ReadLits(b.reverse, t);
    LitsAt(t);
    TakeDrop(x, 3);
  }

  lemma CodeSplit(e: Dict, n: nat)
    requires Consistent(e) && Chained(e) && 1 <= n <= e.counter
    ensures var x := Symbol(n);
            && |x| >= 3 && x[..3] == Symbol(Base(n)) && x[3..] == Tail(n)
            && x[..3] in Short(e).reverse && Short(e).reverse[x[..3]] + x[3..] == WordOf(e, n)
  {
    hide Chained;
    SymbolBase(n);
    WordBase(e, n);
    BaseCode(e, n);
    assert |Symbol(Base(n))| == 3;
  }

  /** One pass, in a state reached by the passes `done`. */
  lemma Pass(e: Dict, done: seq<(string, string)>, toks: seq<Tok>, w: string, x: string) returns (out: seq<Tok>)
    requires Consistent(e) && Chained(e) && x in e.reverse && e.reverse[x] == w && '$' !in w && |w| >= 2
    requires Known(Short(e), toks) && Made(done, toks) && Compatible(done, w)
    ensures Render(out) == ReplaceAll(Render(toks), w, x) && Meaning(Short(e), out) == Meaning(Short(e), toks)
    ensures Known(Short(e), out) && Made(done + [(w, x)], out)
  {
    hide Consistent, Chained, Meaning, Render, ReplaceAll, Merge, Made, Untouched, Tokens, Known, Short, SymbolTokens;
    ShortForm(e);
    KnownTokens(Short(e), toks);
    TokensMean(e, x);
    MadeUntouched(done, toks, w);
    ReplaceIsMerge(toks, w, Tokens(x));
    MergeKeeps(Short(e), toks, w, Tokens(x));
    CompatibleWords(done, w);
    MergeMade(done, toks, w, x);
    out := Merge(toks, w, Tokens(x));
  }

  lemma CompatibleWords(done: seq<(string, string)>, w: string)
    requires Compatible(done, w)
    ensures forall i :: 0 <= i < |done| ==> done[i].0 != ""
  {
    forall i | 0 <= i < |done| ensures done[i].0 != "" {
      assert CompatibleWith(done[i], w);
    }
  }

  lemma KnownTokens(e: Dict, toks: seq<Tok>)
    requires ShortSymbols(e) && Known(e, toks)
    ensures SymbolTokens(toks)
  {
  }

  // ---- Encoding -----------------------------------------------------------------------------------

  /** The passes of an order fit together. */
  ghost predicate Passable(e: Dict, order: seq<(string, string)>) {
    order == [] || (
      var init, (w, x) := order[..|order| - 1], order[|order| - 1];
      && Passable(e, init) && Compatible(init, w)
      && x in e.reverse && e.reverse[x] == w && '$' !in w && |w| >= 2)
  }

  lemma {:induction false} ClearEncode(e: Dict, order: seq<(string, string)>, t: string) returns (out: seq<Tok>)
    requires Consistent(e) && Chained(e) && Passable(e, order)
    ensures Render(out) == Substitute(order, t) && Meaning(Short(e), out) == t
    ensures Known(Short(e), out) && Made(order, out)
  {
    hide Consistent, Chained, Known, Made, Meaning, Render, ReplaceAll, Compatible, Short;
    if order == [] {
      out := Lits(t);
      OnlyLits(Short(e), t);
    } else {
      var init := order[..|order| - 1];
      var (w, x) := order[|order| - 1];
      var mid := ClearEncode(e, init, t);
      out := Pass(e, init, mid, w, x);
      assert init + [(w, x)] == order;
    }
  }

  lemma OnlyLits(e: Dict, t: string)
    ensures Render(Lits(t)) == t && Meaning(e, Lits(t)) == t && Known(e, Lits(t)) && Made([], Lits(t))
  {
    ReadLits(map[], t);
    ReadLits(e.reverse, t);
    LitsAt(t);
    LitsMade([], t, []);
    assert Lits(t) + [] == Lits(t);
  }

  /** Every iteration order of a clear dictionary passes. */
  lemma {:induction false} ClearPassable(d: Dict, e: Dict, order: seq<(string, string)>)
    requires Usable(d) && Clear(d) && Extends(d, e)
    requires forall i :: 0 <= i < |order| ==> order[i] in d.codebook.Items
    requires forall i, j :: 0 <= i < j < |order| ==> order[i] != order[j]
    ensures Passable(e, order)
  {
    hide CompatibleWith, Usable, Clear, Extends, Contains;
    if order != [] {
      var init := order[..|order| - 1];
      var (w, x) := order[|order| - 1];
      ClearPassable(d, e, init);
      assert order[|order| - 1] in d.codebook.Items;
      CodeFacts(d, e, w, x);
      forall i | 0 <= i < |init| ensures CompatibleWith(init[i], w) {
        assert init[i] == order[i] && order[i] in d.codebook.Items && order[i] != order[|order| - 1];
        PairFits(d, init[i].0, w);
      }
    }
  }

  lemma CodeFacts(d: Dict, e: Dict, w: string, x: string)
    requires Usable(d) && Extends(d, e) && w in d.codebook && d.codebook[w] == x
    ensures x in e.reverse && e.reverse[x] == w && '$' !in w && |w| >= 2
  {
    hide Usable;
    WordFacts(d, w);
  }

  lemma PairFits(d: Dict, u: string, w: string)
    requires Usable(d) && Clear(d) && u in d.codebook && w in d.codebook && u != w
    ensures CompatibleWith((u, d.codebook[u]), w)
  {
    hide Usable, Reaches, SymbolForm, Contains;
    WordFacts(d, u);
    assert |d.codebook[u]| >= 3 by { FormOf(d, d.codebook[u]); FormLength(d.codebook[u]); }
    NotInside(d, d.codebook[u], w, 1);
    NotInside(d, d.codebook[u], w, 2);
  }

  lemma FormLength(s: string)
    requires SymbolForm(s)
    ensures |s| >= 3
  {
  }

  // ---- Decoding ----------------------------------------------------------------------------

  lemma SymbolFreeSuffix(d: Dict, a: string, b: string)
    requires SymbolFree(d, a + b)
    ensures SymbolFree(d, b)
  {
    hide Contains;
    forall s | s in d.reverse && Contains(b, s) ensures Contains(a + b, s) {
      ContainsMore(a, b, s);
    }
  }

  /** Characters that spell a symbol stand for that symbol's text. */
  lemma {:induction false} CleanIfFree(d: Dict, toks: seq<Tok>)
    requires SymbolFree(d, Meaning(d, toks))
    ensures Clean(d, toks)
  {
    hide SymbolFree;
    if toks != [] {
      SymbolFreeSuffix(d, ReadTok(d.reverse, toks[0]), Meaning(d, toks[1..]));
      CleanIfFree(d, toks[1..]);
      if SpellsSymbol(d, toks) {
        SpelledIsContained(d, toks);
      }
    }
  }

  lemma SpelledIsContained(d: Dict, toks: seq<Tok>)
    requires SpellsSymbol(d, toks)
    ensures !SymbolFree(d, Meaning(d, toks))
  {
    var x := [toks[0].c, toks[1].c, toks[2].c];
    assert Spells(toks[3..], "");
    assert Spells(toks[2..], [toks[2].c]);
    assert Spells(toks[1..], [toks[1].c, toks[2].c]);
    assert Spells(toks, x);
    ReadSpelled(d.reverse, toks, x);
    assert x <= Meaning(d, toks)[0..];
    assert Contains(Meaning(d, toks), x);
  }

  /** Decoding code n takes its two-digit symbol apart where its other digits follow. */
  lemma LongStep(d: Dict, toks: seq<Tok>, n: nat) returns (out: seq<Tok>)
    requires Consistent(d) && Chained(d) && 1 <= n <= d.counter
    requires Known(Short(d), toks) && SymbolFree(Short(d), Meaning(Short(d), toks))
    ensures Render(out) == ReplaceAll(Render(toks), Symbol(n), WordOf(d, n))
    ensures Meaning(Short(d), out) == Meaning(Short(d), toks) && Known(Short(d), out)
    ensures Sym(Symbol(n)) !in out && forall x :: Sym(x) in out ==> Sym(x) in toks
  {
    hide Consistent, Chained, WordOf, Symbol, Meaning, Render, ReplaceAll, Unfold, Clean, SymbolFree, Known;
    var s, t, v, e := Symbol(Base(n)), Tail(n), WordOf(d, Base(n)), Short(d);
    ShortForm(d);
    BaseCode(d, n);
    SymbolBase(n);
    WordBase(d, n);
    CleanIfFree(e, toks);
    ReplaceIsUnfold(e, toks, s, t, v);
    UnfoldKeeps(e, toks, s, t);
    UnfoldSymbols(toks, s, t, v);
    out := Unfold(toks, s, t, v);
    KnownIf(e, toks, out);
    LongGone(d, out, n);
  }

  lemma LongGone(d: Dict, toks: seq<Tok>, n: nat)
    requires Known(Short(d), toks) && (Tail(n) == "" ==> Sym(Symbol(Base(n))) !in toks)
    ensures Sym(Symbol(n)) !in toks
  {
    SymbolBase(n);
    if Tail(n) == "" {
      assert Symbol(n) == Symbol(Base(n));
    } else {
      assert |Symbol(n)| > 3;
      assert forall x :: Sym(x) in toks ==> |x| == 3;
    }
  }

  lemma {:induction false} LongDecode(d: Dict, order: seq<(string, string)>, toks: seq<Tok>) returns (out: seq<Tok>)
    requires Consistent(d) && Chained(d) && Decodes(d, order)
    requires Known(Short(d), toks) && SymbolFree(Short(d), Meaning(Short(d), toks))
    ensures Render(out) == Substitute(order, Render(toks)) && Meaning(Short(d), out) == Meaning(Short(d), toks)
    ensures Known(Short(d), out) && Gone(order, out)
  {
    hide Consistent, Chained, Meaning, Render, ReplaceAll, WordOf, Symbol, Known, SymbolFree;
    if order == [] {
      out := toks;
    } else {
      var (s, w) := order[|order| - 1];
      var mid := LongDecode(d, order[..|order| - 1], toks);
      var n := CodeNumber(d, s, w);
      out := LongStep(d, mid, n);
      GoneKeeps(order[..|order| - 1], mid, out);
    }
  }

  /** What a clear dictionary encodes, every later chained one decodes, in any
      orders, unless the text spells out a symbol. */
  lemma ClearRoundTrip(d: Dict, e: Dict, t: string, applying: seq<(string, string)>, decoding: seq<(string, string)>)
    requires Usable(d) && Clear(d) && Extends(d, e) && Consistent(e) && Chained(e) && SymbolFree(Short(e), t)
    requires IsOrder(applying, d.codebook.Items) && IsOrder(decoding, e.reverse.Items)
    ensures Substitute(decoding, Substitute(applying, t)) == t
  {
    hide Usable, Clear, Extends, Consistent, Chained, SymbolFree, Known, Passable, Meaning, Render, Made;
    ClearPassable(d, e, applying);
    var encoded := ClearEncode(e, applying, t);
    DecodesIf(e, decoding);
    var decoded := LongDecode(e, decoding, encoded);
    ShortKnown(e, decoded);
    AllDecoded(e, decoding, decoded);
    AllMeant(Short(e), decoded);
  }

  lemma AllMeant(e: Dict, toks: seq<Tok>)
    requires AllLit(toks)
    ensures Meaning(e, toks) == Render(toks)
  {
    NoSymbolsLeft(e.reverse, toks);
  }

  lemma ShortFree(d: Dict, t: string)
    requires Consistent(d) && '$' !in t
    ensures SymbolFree(Short(d), t)
  {
    hide Contains;
    forall s | s in Short(d).reverse ensures !Contains(t, s) {
      SymbolsDollar(d.counter, s);
      DollarAbsent(t, s);
    }
  }

  lemma ShortKnown(d: Dict, toks: seq<Tok>)
    requires Known(Short(d), toks)
    ensures Known(d, toks)
  {
  }

  // ---- The theorem ---------------------------------------------------------------------------

  /** Every call on a '$'-free text that leaves the dictionary as it is comes back,
      whatever the three orders. */
  ghost predicate AlwaysUndone(d: Dict) {
    forall t, learning, applying, decoding, r ::
      '$' !in t && Encodes(d, t, learning, applying, d, r) && IsOrder(decoding, d.reverse.Items) ==>
        Substitute(decoding, r) == t
  }

  lemma CallFacts(d: Dict, t: string, learning: seq<(string, nat)>, applying: seq<(string, string)>, r: string)
    requires Encodes(d, t, learning, applying, d, r)
    ensures IsOrder(applying, d.codebook.Items) && r == Substitute(applying, t) && Extends(d, d)
  {
    hide IsOrder, Substitute;
  }

  /** Calls of a chained and clear dictionary are undone. */
  lemma UndoneIf(d: Dict)
    requires Usable(d) && Chained(d) && Clear(d)
    ensures AlwaysUndone(d)
  {
    hide Usable, Chained, Clear, Encodes, IsOrder, Substitute, Extends, SymbolFree, Consistent;
    UsableConsistent(d);
    forall t, learning, applying, decoding, r
      | '$' !in t && Encodes(d, t, learning, applying, d, r) && IsOrder(decoding, d.reverse.Items)
      ensures Substitute(decoding, r) == t
    {
      CallFacts(d, t, learning, applying, r);
      ShortFree(d, t);
      ClearRoundTrip(d, d, t, applying, decoding);
    }
  }

  /** No word harms the symbol of another one. */
  ghost predicate Harmless(d: Dict) {
    forall u, w, k :: u in d.codebook && w in d.codebook ==> !Harms(d, u, w, k)
  }

  /** Calls are undone only by dictionaries that are chained and harmless. */
  lemma UndoneOnlyIf(d: Dict)
    requires Usable(d) && AlwaysUndone(d)
    ensures Chained(d) && Harmless(d)
  {
    hide Usable, Encodes, IsOrder, Substitute, Harms, ChainedAt;
    if !Chained(d) {
      var n :| 256 <= n <= d.counter && !ChainedAt(d, n);
      var t, learning, applying, decoding := PastLimitFails(d, n);
      assert false;
    }
    forall u, w, k | u in d.codebook && w in d.codebook ensures !Harms(d, u, w, k) {
      if Harms(d, u, w, k) {
        var t, learning, applying, decoding := OverlapFails(d, u, w, k);
        assert false;
      }
    }
  }

  /** Where w first matches in the symbol of u: at the third character only if not
      already at the second. */
  lemma ReachPosition(u: string, s: string, w: string) returns (k: nat)
    requires Reaches(u, s, w)
    ensures |s| >= 3 && 1 <= k <= 2 && ReachesAt(u, s, w, k) && (k == 2 ==> !(s[1..] <= w))
  {
    hide Contains;
    k := if ReachesAt(u, s, w, 1) then 1 else 2;
    if s[1..] <= w && Contains(w[|s| - 1..], u) {
      var m := |s| - 2;
      assert w[m..m + 1] + w[m + 1..] == w[m..];
      ContainsMore(w[m..m + 1], w[m + 1..], u);
    }
  }

  ghost predicate Reaching(d: Dict, u: string, w: string, k: int) {
    && u in d.codebook && w in d.codebook && u != w && 1 <= k <= 2 && |d.codebook[u]| >= 3
    && ReachesAt(u, d.codebook[u], w, k)
  }

  /** No reach is repaired. */
  ghost predicate Unrepaired(d: Dict) {
    forall u, w, k :: Reaching(d, u, w, k) ==> !Repairs(d, u, w, k)
  }

  lemma ReachHarms(d: Dict, u: string, w: string) returns (k: nat)
    requires Unrepaired(d) && u in d.codebook && w in d.codebook && u != w && Reaches(u, d.codebook[u], w)
    ensures Harms(d, u, w, k)
  {
    hide Reaches, ReachesAt, Repairs;
    k := ReachPosition(u, d.codebook[u], w);
    assert Reaching(d, u, w, k);
  }

  lemma HarmlessClear(d: Dict)
    requires Harmless(d) && Unrepaired(d)
    ensures Clear(d)
  {
    hide Reaches, Harms, Unrepaired;
    forall u, w | u in d.codebook && w in d.codebook && u != w ensures !Reaches(u, d.codebook[u], w) {
      if Reaches(u, d.codebook[u], w) {
        var k := ReachHarms(d, u, w);
      }
    }
  }

  /** Calls are undone if and only if every word past code 255 continues the word of
      the symbol it continues, and no word reaches into the symbol of another one;
      unless decoding repairs a reach. */
  lemma UndoneExactly(d: Dict)
    requires Usable(d) && Unrepaired(d)
    ensures AlwaysUndone(d) <==> Chained(d) && Clear(d)
  {
    hide Usable, AlwaysUndone, Chained, Clear, Harmless, Unrepaired;
    if AlwaysUndone(d) {
      UndoneOnlyIf(d);
      HarmlessClear(d);
    }
    if Chained(d) && Clear(d) {
      UndoneIf(d);
    }
  }

  lemma ShortSize(d: Dict, y: string)
    requires Consistent(d) && d.counter <= 255 && y in d.reverse
    ensures |y| == 3
  {
    var n := NumberOf(d.counter, y);
  }

  /** With at most 255 codes: if and only if no word reaches into another symbol. */
  lemma UndoneExactlyShort(d: Dict)
    requires Consistent(d) && Plain(d) && d.counter <= 255
    ensures AlwaysUndone(d) <==> Clear(d)
  {
    hide AlwaysUndone, Clear, Consistent, Plain, Compact, Contains;
    CompactIf(d);
    forall u, w, k | Reaching(d, u, w, k) ensures !Repairs(d, u, w, k) {
      forall y | y in d.reverse ensures |y| == 3 {
        ShortSize(d, y);
      }
    }
    UndoneExactly(d);
  }

  /** With words that start with no hexadecimal digit, and any number of codes: if
      and only if the dictionary is chained. */
  lemma UndoneExactlyHexFree(d: Dict)
    requires Consistent(d) && Plain(d) && HexFree(d)
    ensures AlwaysUndone(d) <==> Chained(d)
  {
    hide AlwaysUndone, Clear, Consistent, Plain, Chained, Harmless, HexFree, Contains;
    HexFreeClear(d);
    HexFreeCompact(d);
    if AlwaysUndone(d) {
      UndoneOnlyIf(d);
    }
    if Chained(d) {
      UndoneIf(d);
    }
  }

  lemma HexFreeCompact(d: Dict)
    requires Consistent(d) && Plain(d) && HexFree(d)
    ensures Compact(d)
  {
    hide Contains, Symbol;
    forall s, w | s in d.reverse && w in d.codebook ensures !Contains(s, w) {
      assert ByteLen(w) > 5 && LongWords(d);
      var n := NumberOf(d.counter, s);
      NoStart(n, w);
    }
  }

  lemma NoStart(n: nat, w: string)
    requires w != "" && '$' !in w && !StartsWithHex(w)
    ensures !Contains(Symbol(n), w)
  {
    var s := Symbol(n);
    assert w[0] in w;
    forall i | 0 <= i <= |s| ensures !(w <= s[i..]) {
      if i < |s| {
        assert s[i..][0] == s[i];
        assert i > 0 ==> s[i] == s[1..][i - 1];
      }
    }
  }

  // ---- Runs ------------------------------------------------------------------------------------

  lemma {:induction false} TaughtWord(calls: seq<Call>, w: string)
    requires Taught(calls, w) && forall i :: 0 <= i < |calls| ==> '$' !in calls[i].text
    ensures '$' !in w && Solid(w)
  {
    var t := calls[|calls| - 1].text;
    if Frequent(t, w) {
      FieldsStanding(t, w);
      assert w in multiset(Fields(t));
      assert w in Fields(t);
    } else {
      TaughtWord(calls[..|calls| - 1], w);
    }
  }

  /** Every run of '$'-free texts leaves a consistent dictionary of plain words. */
  lemma RunPlain(calls: seq<Call>)
    requires Run(calls) && forall i :: 0 <= i < |calls| ==> '$' !in calls[i].text
    ensures Consistent(After(calls)) && Plain(After(calls))
  {
    hide After, Run, Taught, Solid, Consistent;
    RunInvariant(calls);
    forall w | w in After(calls).codebook ensures '$' !in w && Solid(w) {
      TaughtWord(calls, w);
    }
  }

  lemma {:induction false} RunPrefix(calls: seq<Call>, k: nat)
    requires Run(calls) && k <= |calls|
    ensures Run(calls[..k])
  {
    hide After, Encodes;
    if k == |calls| {
      assert calls[..k] == calls;
    } else {
      RunPrefix(calls[..|calls| - 1], k);
      assert calls[..|calls| - 1][..k] == calls[..k];
    }
  }

  /** Every output of a run of '$'-free texts decodes to its text, at the time of
      the call or at any later time, if the dictionary was clear after the call and
      is chained then; it is with at most 255 codes. */
  lemma RunRoundTrip(calls: seq<Call>, k: nat, decoding: seq<(string, string)>)
    requires Run(calls) && k < |calls| && forall i :: 0 <= i < |calls| ==> '$' !in calls[i].text
    requires Compact(After(calls[..k + 1])) && Clear(After(calls[..k + 1])) && Chained(After(calls))
    requires IsOrder(decoding, After(calls).reverse.Items)
    ensures Substitute(decoding, calls[k].output) == calls[k].text
  {
    hide After, Run, IsOrder, Substitute, Clear, Chained, Compact, Consistent, Plain, SymbolFree;
    var d, e, t := After(calls[..k + 1]), After(calls), calls[k].text;
    RunPrefix(calls, k + 1);
    RunExtends(calls, k);
    RunPlain(calls);
    RunPlain(calls[..k + 1]);
    ShortFree(e, t);
    ClearRoundTrip(d, e, t, calls[k].applying, decoding);
  }

  /** After every run of '$'-free texts: the calls that teach nothing new are undone
      if and only if the dictionary is chained and clear, unless decoding repairs a
      reach. */
  lemma RunExactly(calls: seq<Call>)
    requires Run(calls) && forall i :: 0 <= i < |calls| ==> '$' !in calls[i].text
    requires Compact(After(calls)) && Unrepaired(After(calls))
    ensures AlwaysUndone(After(calls)) <==> Chained(After(calls)) && Clear(After(calls))
  {
    hide After, Run, Clear, Chained, Compact, Unrepaired, AlwaysUndone, Consistent, Plain;
    RunPlain(calls);
    UndoneExactly(After(calls));
  }

  // ---- Texts that spell out symbols --------------------------------------------------------------

  /** For texts with '$' clear dictionaries are not enough to tell: here a text
      that spells out the only symbol comes back, since the word replaced in it
      takes the symbol apart. */
  lemma SpelledSymbolComesBack(r: string)
    requires '$' !in r && r != ""
    ensures var w, t := "1" + r, "$01" + r;
            && Contains(t, "$01")
            && Substitute([("$01", w)], Substitute([(w, "$01")], t)) == t
  {
    hide ReplaceAll;
    var s, w, t := "$01", "1" + r, "$01" + r;
    assert t[0..] == t && s <= t[0..];
    assert s[2..] == "1" && s[..2] == "$0" && s[1..] == "01" && s[1..][0] != w[0];
    ReplaceInside(s, r, w, s, 2);
    assert [(w, s)][..0] == [] && [(s, w)][..0] == [];
    DecodeBase(s, s, "", w, 2);
    assert s + "" == s && w + "" == w && s[..2] + w == t;
    assert Substitute([(w, s)], t) == ReplaceAll(t, w, s);
  }
}
