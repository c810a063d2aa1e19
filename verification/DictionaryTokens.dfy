/** Encoded texts as token sequences.

    A text is a sequence of tokens: characters that stand for themselves and
    symbols that stand for a word.  Substituting a word merges characters into a
    symbol, decoding a symbol splits it again, and both keep what the tokens
    stand for.  A symbol token has two digits; a symbol with more of them is a
    symbol token and the other digits as characters. */
module DictionaryTokens {
  import opened Collections
  import opened Text
  import opened Dictionary

  datatype Tok = Lit(c: char) | Sym(s: string)

  /** The tokens as text, the symbols of `book` replaced by their words. */
  function Read(book: map<string, string>, toks: seq<Tok>): string {
    if toks == [] then "" else ReadTok(book, toks[0]) + Read(book, toks[1..])
  }

  function ReadTok(book: map<string, string>, tok: Tok): string {
    match tok case Lit(c) => [c] case Sym(s) => if s in book then book[s] else s
  }

  /** The text a token sequence is written as. */
  function Render(toks: seq<Tok>): string {
    Read(map[], toks)
  }

  /** The text a token sequence stands for. */
  function Meaning(d: Dict, toks: seq<Tok>): string {
    Read(d.reverse, toks)
  }

  /** Only characters. */
  ghost predicate AllLit(toks: seq<Tok>) {
    toks == [] || (toks[0].Lit? && AllLit(toks[1..]))
  }

  function Lits(s: string): seq<Tok> {
    if s == "" then [] else [Lit(s[0])] + Lits(s[1..])
  }

  ghost predicate ShortSymbol(s: string) {
    |s| == 3 && s[0] == '$' && IsHexDigit(s[1]) && IsHexDigit(s[2])
  }

  ghost predicate ShortSymbols(d: Dict) {
    forall s :: s in d.reverse ==> ShortSymbol(s)
  }

  lemma {:induction false} SymbolShape(n: nat, s: string)
    requires n <= 255 && s in Symbols(n)
    ensures ShortSymbol(s)
  {
    if s == Symbol(n) {
      assert s[1..][0] == s[1] && s[1..][1] == s[2];
    } else {
      SymbolShape(n - 1, s);
    }
  }

  // ---- Substituting a word ----------------------------------------------------------------

  ghost predicate Known(d: Dict, toks: seq<Tok>) {
    forall i :: 0 <= i < |toks| && toks[i].Sym? ==> toks[i].s in d.reverse
  }

  ghost predicate SymbolTokens(toks: seq<Tok>) {
    forall i :: 0 <= i < |toks| && toks[i].Sym? ==> ShortSymbol(toks[i].s)
  }

  /** The tokens start with the characters of w. */
  predicate Spells(toks: seq<Tok>, w: string) {
    w == "" || (toks != [] && toks[0] == Lit(w[0]) && Spells(toks[1..], w[1..]))
  }

  lemma {:induction false} SpellsLength(toks: seq<Tok>, w: string)
    requires Spells(toks, w)
    ensures |w| <= |toks|
    ensures forall i :: 0 <= i < |w| ==> toks[i] == Lit(w[i])
  {
    if w != "" {
      SpellsLength(toks[1..], w[1..]);
      forall i | 0 < i < |w| ensures toks[i] == Lit(w[i]) {
        assert toks[i] == toks[1..][i - 1] && w[i] == w[1..][i - 1];
      }
    }
  }

  /** Replace the occurrences of w, spelled out in characters, by other tokens. */
  function Merge(toks: seq<Tok>, w: string, sub: seq<Tok>): (r: seq<Tok>)
    requires w != ""
    decreases |toks|
  {
    if toks == [] then []
    else if Spells(toks, w) then SpellsLength(toks, w); sub + Merge(toks[|w|..], w, sub)
    else [toks[0]] + Merge(toks[1..], w, sub)
  }

  /** A word without '$' can only be read off characters that stand for themselves. */
  lemma {:induction false} PrefixIsSpelled(toks: seq<Tok>, w: string)
    requires SymbolTokens(toks) && '$' !in w
    ensures w <= Render(toks) <==> Spells(toks, w)
  {
    if w != "" && toks != [] {
      match toks[0]
      case Lit(c) =>
        assert Render(toks) == [c] + Render(toks[1..]);
        PrefixIsSpelled(toks[1..], w[1..]);
        assert w == [w[0]] + w[1..];
        assert Render(toks)[1..] == Render(toks[1..]);
      case Sym(s) =>
        assert Render(toks)[0] == '$';
        assert w[0] in w;
    }
  }

  lemma {:induction false} ReadSpelled(book: map<string, string>, toks: seq<Tok>, w: string)
    requires Spells(toks, w)
    ensures |w| <= |toks| && Read(book, toks) == w + Read(book, toks[|w|..])
  {
    SpellsLength(toks, w);
    if w != "" {
      ReadSpelled(book, toks[1..], w[1..]);
      DropDrop(toks, 1, |w[1..]|);
      TakeDrop(w, 1);
      Assoc(w[..1], w[1..], Read(book, toks[|w|..]));
    } else {
      assert toks[0..] == toks;
    }
  }

  /** No occurrence of w starts inside a symbol. */
  ghost predicate Untouched(toks: seq<Tok>, w: string) {
    toks == [] || (
      && (toks[0].Sym? && |toks[0].s| == 3 ==> Passes(toks[0].s, Render(toks[1..]), w))
      && Untouched(toks[1..], w))
  }

  /** w does not start at the second or third character of s + rest. */
  ghost predicate Passes(s: string, rest: string, w: string)
    requires |s| == 3
  {
    !(w <= s[1..] + rest) && !(w <= s[2..] + rest)
  }

  /** ReplaceAll steps over a symbol that the pattern does not reach into. */
  lemma ReplaceSkipsSymbol(s: string, rest: string, w: string, new_: string)
    requires ShortSymbol(s) && w != "" && '$' !in w && Passes(s, rest, w)
    ensures ReplaceAll(s + rest, w, new_) == s + ReplaceAll(rest, w, new_)
  {
    hide ReplaceAll;
    var t := s + rest;
    assert w[0] in w;
    ReplaceStep(t, w, new_);
    assert t[1..] == s[1..] + rest && t[1..][1..] == s[2..] + rest;
    ReplaceStep(t[1..], w, new_);
    ReplaceStep(t[1..][1..], w, new_);
    assert t[1..][1..][1..] == rest;
    assert s == [t[0]] + [t[1]] + [t[2]];
  }

  lemma ReplaceStep(t: string, w: string, new_: string)
    requires t != "" && w != "" && !(w <= t)
    ensures ReplaceAll(t, w, new_) == [t[0]] + ReplaceAll(t[1..], w, new_)
  {
  }

  /** Substituting a word in the text merges it in the tokens. */
  lemma {:induction false} ReplaceIsMerge(toks: seq<Tok>, w: string, sub: seq<Tok>)
    requires SymbolTokens(toks) && Untouched(toks, w) && w != "" && '$' !in w
    ensures ReplaceAll(Render(toks), w, Render(sub)) == Render(Merge(toks, w, sub))
    decreases |toks|
  {
    hide Spells, Passes;
    if toks != [] {
      PrefixIsSpelled(toks, w);
      if Spells(toks, w) {
        ReadSpelled(map[], toks, w);
        UntouchedSuffix(toks, w, |w|);
        ReplaceIsMerge(toks[|w|..], w, sub);
        assert Render(toks)[|w|..] == Render(toks[|w|..]);
        ReadConcat(map[], sub, Merge(toks[|w|..], w, sub));
      } else {
        ReplaceIsMerge(toks[1..], w, sub);
        assert Merge(toks, w, sub)[1..] == Merge(toks[1..], w, sub);
        if toks[0].Lit? {
          assert Render(toks)[1..] == Render(toks[1..]);
        } else {
          ReplaceSkipsSymbol(toks[0].s, Render(toks[1..]), w, Render(sub));
        }
      }
    }
  }

  lemma {:induction false} UntouchedSuffix(toks: seq<Tok>, w: string, k: nat)
    requires Untouched(toks, w) && k <= |toks|
    ensures Untouched(toks[k..], w)
  {
    hide Passes;
    if k > 0 {
      UntouchedSuffix(toks[1..], w, k - 1);
      assert toks[1..][k - 1..] == toks[k..];
    } else {
      assert toks[0..] == toks;
    }
  }

  lemma {:induction false} MergeKeeps(d: Dict, toks: seq<Tok>, w: string, sub: seq<Tok>)
    requires Known(d, toks) && w != "" && Known(d, sub) && Meaning(d, sub) == w
    ensures Meaning(d, Merge(toks, w, sub)) == Meaning(d, toks)
    ensures Known(d, Merge(toks, w, sub))
    decreases |toks|
  {
    if toks == [] {
    } else if Spells(toks, w) {
      ReadSpelled(d.reverse, toks, w);
      MergeKeeps(d, toks[|w|..], w, sub);
      ReadConcat(d.reverse, sub, Merge(toks[|w|..], w, sub));
    } else {
      MergeKeeps(d, toks[1..], w, sub);
    }
  }

  /** Merging starts with a character only where the tokens already did. */
  lemma MergeHead(toks: seq<Tok>, w: string, sub: seq<Tok>)
    requires w != "" && sub != [] && sub[0].Sym?
    ensures var m := Merge(toks, w, sub);
            m != [] && m[0].Lit? ==> toks != [] && m[0] == toks[0] && m[1..] == Merge(toks[1..], w, sub)
  {
  }

  /** The symbol s alone. */
  function One(s: string): seq<Tok> {
    [Sym(s)]
  }

  lemma ReadOne(book: map<string, string>, s: string)
    ensures Read(book, One(s)) == if s in book then book[s] else s
  {
    assert One(s)[1..] == [];
  }

  // ---- No symbol is spelled out in characters -------------------------------------

  ghost predicate SpellsSymbol(d: Dict, toks: seq<Tok>) {
    |toks| >= 3 && toks[0].Lit? && toks[1].Lit? && toks[2].Lit? && [toks[0].c, toks[1].c, toks[2].c] in d.reverse
  }

  ghost predicate Clean(d: Dict, toks: seq<Tok>) {
    toks == [] || (!SpellsSymbol(d, toks) && Clean(d, toks[1..]))
  }

  lemma {:induction false} CleanSuffix(d: Dict, toks: seq<Tok>, k: nat)
    requires Clean(d, toks) && k <= |toks|
    ensures Clean(d, toks[k..])
  {
    if k > 0 {
      CleanSuffix(d, toks[1..], k - 1);
      assert toks[1..][k - 1..] == toks[k..];
    } else {
      assert toks[0..] == toks;
    }
  }

  // ---- Decoding a symbol ----------------------------------------------------------------------

  /** Replace the symbol s by the characters of w where the characters `digits` follow it. */
  function Unfold(toks: seq<Tok>, s: string, digits: string, w: string): seq<Tok> {
    if toks == [] then []
    else
      (if toks[0] == Sym(s) && Spells(toks[1..], digits) then Lits(w) else [toks[0]])
      + Unfold(toks[1..], s, digits, w)
  }

  /** A symbol is read off a symbol token or off characters that spell it. */
  lemma SymbolPrefix(d: Dict, toks: seq<Tok>, s: string)
    requires ShortSymbols(d) && Known(d, toks) && s in d.reverse && s <= Render(toks)
    ensures toks != [] && (toks[0] == Sym(s) || SpellsSymbol(d, toks))
  {
    assert s == [s[0], s[1], s[2]];
    match toks[0]
    case Sym(x) =>
      assert ShortSymbol(x);
      assert Render(toks)[..3] == x && Render(toks)[..3] == s;
    case Lit(c) =>
      LitAt(toks[1..], s[1], s[2]);
  }

  lemma LitAt(toks: seq<Tok>, a: char, b: char)
    requires SymbolTokens(toks) && a != '$' && b != '$' && [a, b] <= Render(toks)
    ensures |toks| >= 2 && toks[0] == Lit(a) && toks[1] == Lit(b)
  {
    assert Render(toks)[0] == a && Render(toks)[1] == b;
    assert toks[0].Lit?;
    var rest := toks[1..];
    assert Render(rest)[0] == b;
    assert rest[0].Lit?;
  }

  /** Text without '$' is stepped over when a symbol is replaced. */
  lemma {:induction false} ReplaceSkipsPlain(a: string, rest: string, x: string, w: string)
    requires '$' !in a && x != "" && x[0] == '$'
    ensures ReplaceAll(a + rest, x, w) == a + ReplaceAll(rest, x, w)
  {
    if a == "" {
      assert a + rest == rest;
    } else {
      var t := a + rest;
      assert t[0] == a[0] && a[0] in a;
      ReplaceStep(t, x, w);
      assert t[1..] == a[1..] + rest;
      ReplaceSkipsPlain(a[1..], rest, x, w);
      assert a == [a[0]] + a[1..];
    }
  }

  lemma ReplaceSkipsOther(x: string, rest: string, s: string, w: string)
    requires ShortSymbol(x) && s != "" && s[0] == '$' && !(s <= x + rest)
    ensures ReplaceAll(x + rest, s, w) == x + ReplaceAll(rest, s, w)
  {
    hide ReplaceAll;
    ReplaceStep(x + rest, s, w);
    assert (x + rest)[1..] == x[1..] + rest;
    ReplaceSkipsPlain(x[1..], rest, s, w);
    assert x == [x[0]] + x[1..];
  }

  lemma {:induction false} ReplaceIsUnfold(d: Dict, toks: seq<Tok>, s: string, digits: string, w: string)
    requires ShortSymbols(d) && Known(d, toks) && Clean(d, toks) && s in d.reverse && '$' !in digits
    ensures ReplaceAll(Render(toks), s + digits, w + digits) == Render(Unfold(toks, s, digits, w))
  {
    hide ReplaceAll, Spells, SpellsSymbol;
    if toks == [] {
      assert Unfold(toks, s, digits, w) == [];
      ReplaceNothing(s + digits, w + digits);
    } else {
      var rest := toks[1..];
      ReplaceIsUnfold(d, rest, s, digits, w);
      assert ShortSymbol(s);
      if toks[0].Lit? {
        UnfoldLit(d, toks, s, digits, w);
      } else {
        UnfoldSym(d, toks, s, digits, w);
      }
    }
  }

  lemma ReplaceNothing(x: string, w: string)
    requires x != ""
    ensures ReplaceAll("", x, w) == ""
  {
  }

  lemma UnfoldLit(d: Dict, toks: seq<Tok>, s: string, digits: string, w: string)
    requires ShortSymbols(d) && Known(d, toks) && Clean(d, toks) && s in d.reverse && toks != [] && toks[0].Lit?
    requires ReplaceAll(Render(toks[1..]), s + digits, w + digits) == Render(Unfold(toks[1..], s, digits, w))
    ensures ReplaceAll(Render(toks), s + digits, w + digits) == Render(Unfold(toks, s, digits, w))
  {
    hide ReplaceAll, Spells, SpellsSymbol;
    var x := s + digits;
    assert ShortSymbol(s);
    if x <= Render(toks) {
      assert s <= Render(toks);
      SymbolPrefix(d, toks, s);
    }
    ReplaceStep(Render(toks), x, w + digits);
    assert Render(toks)[1..] == Render(toks[1..]);
    assert Unfold(toks, s, digits, w)[1..] == Unfold(toks[1..], s, digits, w);
  }

  lemma UnfoldSym(d: Dict, toks: seq<Tok>, s: string, digits: string, w: string)
    requires ShortSymbols(d) && Known(d, toks) && s in d.reverse && toks != [] && toks[0].Sym? && '$' !in digits
    requires ReplaceAll(Render(toks[1..]), s + digits, w + digits) == Render(Unfold(toks[1..], s, digits, w))
    ensures ReplaceAll(Render(toks), s + digits, w + digits) == Render(Unfold(toks, s, digits, w))
  {
    hide ReplaceAll, Spells, Unfold, Read;
    var y, rest := toks[0].s, toks[1..];
    assert ShortSymbol(s) && ShortSymbol(y);
    RenderSym(toks);
    assert SymbolTokens(rest);
    PrefixIsSpelled(rest, digits);
    PrefixOfSymbol(y, s, digits, Render(rest));
    if y == s && Spells(rest, digits) {
      UnfoldHit(toks, s, digits, w);
    } else {
      ReplaceSkipsOther(y, Render(rest), s + digits, w + digits);
      UnfoldMiss(toks, s, digits, w);
    }
  }

  lemma RenderSym(toks: seq<Tok>)
    requires toks != [] && toks[0].Sym?
    ensures Render(toks) == toks[0].s + Render(toks[1..])
  {
  }

  lemma UnfoldMiss(toks: seq<Tok>, s: string, digits: string, w: string)
    requires toks != [] && toks[0].Sym? && !(toks[0].s == s && Spells(toks[1..], digits))
    ensures Render(Unfold(toks, s, digits, w)) == toks[0].s + Render(Unfold(toks[1..], s, digits, w))
  {
    hide Spells;
    assert Unfold(toks, s, digits, w) == [toks[0]] + Unfold(toks[1..], s, digits, w);
    assert Unfold(toks, s, digits, w)[1..] == Unfold(toks[1..], s, digits, w);
  }

  lemma UnfoldHit(toks: seq<Tok>, s: string, digits: string, w: string)
    requires toks != [] && toks[0] == Sym(s) && Spells(toks[1..], digits) && '$' !in digits && ShortSymbol(s)
    requires ReplaceAll(Render(toks[1..]), s + digits, w + digits) == Render(Unfold(toks[1..], s, digits, w))
    ensures ReplaceAll(Render(toks), s + digits, w + digits) == Render(Unfold(toks, s, digits, w))
  {
    hide ReplaceAll, Spells, Read;
    var x, rest := s + digits, toks[1..];
    ReadSpelled(map[], rest, digits);
    var after := Render(rest[|digits|..]);
    RenderSym(toks);
    Assoc(s, digits, after);
    ReplaceFirst(x, after, w + digits);
    ReplaceSkipsPlain(digits, after, x, w + digits);
    Assoc(w, digits, ReplaceAll(after, x, w + digits));
    ReadConcat(map[], Lits(w), Unfold(rest, s, digits, w));
    ReadLits(map[], w);
  }

  lemma ReplaceFirst(x: string, rest: string, w: string)
    requires x != ""
    ensures ReplaceAll(x + rest, x, w) == w + ReplaceAll(rest, x, w)
  {
    assert (x + rest)[|x|..] == rest;
  }

  lemma PrefixOfSymbol(y: string, s: string, digits: string, rest: string)
    requires |y| == |s|
    ensures s + digits <= y + rest <==> y == s && digits <= rest
  {
    PrefixOfConcat(s + digits, y, rest);
    assert (s + digits)[|y|..] == digits;
    if s + digits <= y + rest {
      assert (s + digits)[..|y|] == s;
    }
  }

  lemma {:induction false} ReadConcat(book: map<string, string>, a: seq<Tok>, b: seq<Tok>)
    ensures Read(book, a + b) == Read(book, a) + Read(book, b)
  {
    if a == [] {
      assert a + b == b;
    } else {
      ReadConcat(book, a[1..], b);
      ConcatTail(a, b);
      Assoc(ReadTok(book, a[0]), Read(book, a[1..]), Read(book, b));
    }
  }

  lemma {:induction false} ReadLits(book: map<string, string>, s: string)
    ensures Read(book, Lits(s)) == s
  {
    if s != "" {
      ReadLits(book, s[1..]);
      assert Lits(s)[0] == Lit(s[0]) && Lits(s)[1..] == Lits(s[1..]);
      assert s == [s[0]] + s[1..];
    }
  }

  lemma {:induction false} LitsAt(s: string)
    ensures |Lits(s)| == |s| && forall i :: 0 <= i < |s| ==> Lits(s)[i] == Lit(s[i])
  {
    if s != "" {
      LitsAt(s[1..]);
    }
  }

  lemma {:induction false} UnfoldKeeps(d: Dict, toks: seq<Tok>, s: string, digits: string)
    requires s in d.reverse
    ensures Meaning(d, Unfold(toks, s, digits, d.reverse[s])) == Meaning(d, toks)
  {
    hide Spells;
    if toks != [] {
      var w, tail := d.reverse[s], Unfold(toks[1..], s, digits, d.reverse[s]);
      UnfoldKeeps(d, toks[1..], s, digits);
      if toks[0] == Sym(s) && Spells(toks[1..], digits) {
        ReadLits(d.reverse, w);
        ReadConcat(d.reverse, Lits(w), tail);
      } else {
        assert Unfold(toks, s, digits, w)[0] == toks[0] && Unfold(toks, s, digits, w)[1..] == tail;
      }
    }
  }

  /** Splitting adds no symbol, and without digits it leaves none of its own. */
  lemma {:induction false} UnfoldSymbols(toks: seq<Tok>, s: string, digits: string, w: string)
    ensures forall x :: Sym(x) in Unfold(toks, s, digits, w) ==> Sym(x) in toks && (digits == "" ==> x != s)
  {
    if toks != [] {
      UnfoldSymbols(toks[1..], s, digits, w);
      LitsAt(w);
      assert toks == [toks[0]] + toks[1..];
    }
  }

  ghost predicate Codes(d: Dict, order: seq<(string, string)>) {
    order == [] || (
      var (w, s) := order[|order| - 1];
      w in d.codebook && d.codebook[w] == s && Codes(d, order[..|order| - 1]))
  }

  ghost predicate Decodes(d: Dict, order: seq<(string, string)>) {
    order == [] || (
      var (s, w) := order[|order| - 1];
      s in d.reverse && d.reverse[s] == w && Decodes(d, order[..|order| - 1]))
  }

  lemma KnownIf(d: Dict, toks: seq<Tok>, out: seq<Tok>)
    requires Known(d, toks) && forall x :: Sym(x) in out ==> Sym(x) in toks
    ensures Known(d, out)
  {
    forall i | 0 <= i < |out| && out[i].Sym? ensures out[i].s in d.reverse {
      assert out[i] == Sym(out[i].s) && out[i] in out;
    }
  }

  lemma {:induction false} NoSymbolsLeft(book: map<string, string>, toks: seq<Tok>)
    requires AllLit(toks)
    ensures Read(book, toks) == Render(toks)
  {
    if toks != [] {
      NoSymbolsLeft(book, toks[1..]);
    }
  }

  lemma {:induction false} CodesIf(d: Dict, e: Dict, order: seq<(string, string)>)
    requires Extends(d, e) && forall i :: 0 <= i < |order| ==> order[i] in d.codebook.Items
    ensures Codes(e, order)
  {
    if order != [] {
      CodesIf(d, e, order[..|order| - 1]);
    }
  }

  lemma {:induction false} DecodesIf(d: Dict, order: seq<(string, string)>)
    requires forall i :: 0 <= i < |order| ==> order[i] in d.reverse.Items
    ensures Decodes(d, order)
  {
    if order != [] {
      DecodesIf(d, order[..|order| - 1]);
    }
  }

  /** The tokens hold no symbol that the order decodes. */
  ghost predicate Gone(order: seq<(string, string)>, toks: seq<Tok>) {
    order == [] || (Sym(order[|order| - 1].0) !in toks && Gone(order[..|order| - 1], toks))
  }

  lemma {:induction false} GoneKeeps(order: seq<(string, string)>, toks: seq<Tok>, out: seq<Tok>)
    requires Gone(order, toks) && forall x :: Sym(x) in out ==> Sym(x) in toks
    ensures Gone(order, out)
  {
    if order != [] {
      GoneKeeps(order[..|order| - 1], toks, out);
    }
  }

  lemma {:induction false} GoneAt(order: seq<(string, string)>, toks: seq<Tok>, k: nat)
    requires Gone(order, toks) && k < |order|
    ensures Sym(order[k].0) !in toks
  {
    if k < |order| - 1 {
      GoneAt(order[..|order| - 1], toks, k);
    }
  }

  lemma AllDecoded(d: Dict, order: seq<(string, string)>, toks: seq<Tok>)
    requires IsOrder(order, d.reverse.Items) && Known(d, toks) && Gone(order, toks)
    ensures AllLit(toks)
  {
    forall s | s in d.reverse ensures Sym(s) !in toks {
      assert (s, d.reverse[s]) in d.reverse.Items;
      var j :| 0 <= j < |order| && order[j] == (s, d.reverse[s]);
      GoneAt(order, toks, j);
    }
    KnownAllLit(d, toks);
  }

  lemma {:induction false} KnownAllLit(d: Dict, toks: seq<Tok>)
    requires Known(d, toks) && forall s :: s in d.reverse ==> Sym(s) !in toks
    ensures AllLit(toks)
  {
    if toks != [] {
      MemberTail(toks);
      match toks[0]
      case Lit(_) => KnownAllLit(d, toks[1..]);
      case Sym(_) => assert false;
    }
  }

  /** The text spells out no symbol of the dictionary. */
  ghost predicate SymbolFree(d: Dict, t: string) {
    forall s :: s in d.reverse ==> !Contains(t, s)
  }

  lemma ContainsMore(a: string, b: string, s: string)
    requires Contains(b, s)
    ensures Contains(a + b, s)
  {
    var i :| 0 <= i <= |b| && s <= b[i..];
    assert (a + b)[|a| + i..] == b[i..];
  }
}
