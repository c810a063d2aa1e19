/** Decoding after encoding, text by text, for dictionaries whose words and
    symbols do not interfere at all. */
module DictionaryRoundTrip {
  import opened Collections
  import opened Text
  import opened Dictionary
  import opened DictionaryTokens
  import opened DictionaryCodes

  // ---- Dictionaries without interference --------------------------------------

  /** A word without '$' that no proper suffix of the symbol s starts. */
  ghost predicate Apart(w: string, s: string) {
    |w| >= 2 && '$' !in w && |s| == 3 && !(s[1..] <= w) && !(s[2..] <= w)
  }

  ghost predicate ApartFromAll(d: Dict, w: string) {
    forall s :: s in d.reverse ==> Apart(w, s)
  }

  /** At most 255 codes, no '$' in a word, and no word reaching into a symbol. */
  ghost predicate Separated(d: Dict) {
    Consistent(d) && ShortSymbols(d) && forall w :: w in d.codebook ==> ApartFromAll(d, w)
  }

  /** A dictionary is separated whenever it has at most 255 codes and its words
      neither contain '$' nor start with a hexadecimal digit. */
  lemma SeparatedIf(d: Dict)
    requires Consistent(d) && d.counter <= 255
    requires forall w :: w in d.codebook ==> '$' !in w && !StartsWithHex(w)
    ensures Separated(d)
  {
    forall s | s in d.reverse ensures ShortSymbol(s) {
      SymbolShape(d.counter, s);
    }
    forall w, s | w in d.codebook && s in d.reverse
      ensures Apart(w, s)
    {
      SymbolShape(d.counter, s);
      assert ByteLen(w) > 5;
      assert s[1..][0] == s[1] && s[2..][0] == s[2];
    }
  }

  lemma ApartHeads(w: string, s: string)
    requires Apart(w, s)
    ensures w[0] != '$' && w[0] != s[2] && (w[0] != s[1] || w[1] != s[2])
  {
    assert w[0] in w;
    assert s[1..] == [s[1], s[2]] && s[2..] == [s[2]];
  }

  lemma {:induction false} ApartUntouched(d: Dict, toks: seq<Tok>, w: string)
    requires ApartFromAll(d, w) && Known(d, toks)
    ensures Untouched(toks, w)
  {
    hide Apart;
    if toks != [] {
      ApartUntouched(d, toks[1..], w);
      if toks[0].Sym? && |toks[0].s| == 3 {
        ApartPasses(toks[0].s, Render(toks[1..]), w);
      }
    }
  }

  lemma ApartPasses(s: string, rest: string, w: string)
    requires Apart(w, s)
    ensures Passes(s, rest, w)
  {
    ApartHeads(w, s);
    assert (s[1..] + rest)[0] == s[1] && (s[1..] + rest)[1] == s[2] && (s[2..] + rest)[0] == s[2];
  }

  // ---- No symbol comes to be spelled out ---------------------------------------

  lemma {:induction false} MergeClean(d: Dict, toks: seq<Tok>, w: string, s: string)
    requires Clean(d, toks) && w != ""
    ensures Clean(d, Merge(toks, w, One(s)))
    decreases |toks|
  {
    hide Spells, SpellsSymbol;
    if toks == [] {
    } else if Spells(toks, w) {
      SpellsLength(toks, w);
      CleanSuffix(d, toks, |w|);
      MergeClean(d, toks[|w|..], w, s);
      assert Merge(toks, w, One(s))[1..] == Merge(toks[|w|..], w, One(s));
      SymbolFirst(d, Merge(toks, w, One(s)));
    } else {
      MergeClean(d, toks[1..], w, s);
      assert Merge(toks, w, One(s))[1..] == Merge(toks[1..], w, One(s));
      if SpellsSymbol(d, Merge(toks, w, One(s))) {
        MergeSpells(d, toks, w, s);
      }
    }
  }

  lemma SymbolFirst(d: Dict, toks: seq<Tok>)
    requires toks != [] && toks[0].Sym?
    ensures !SpellsSymbol(d, toks)
  {
  }

  lemma MergeSpells(d: Dict, toks: seq<Tok>, w: string, s: string)
    requires w != "" && toks != [] && !Spells(toks, w) && SpellsSymbol(d, Merge(toks, w, One(s)))
    ensures SpellsSymbol(d, toks)
  {
    hide Spells;
    var m, rest := Merge(toks, w, One(s)), toks[1..];
    assert m[1..] == Merge(rest, w, One(s));
    MergeHead(rest, w, One(s));
    assert m[1..][1..][0] == m[2];
    MergeHead(rest[1..], w, One(s));
  }

  /** Characters of a word never complete a symbol that starts before it. */
  lemma {:induction false} UnfoldClean(d: Dict, toks: seq<Tok>, s: string, w: string)
    requires ShortSymbols(d) && Clean(d, toks) && ApartFromAll(d, w) && s in d.reverse
    ensures Clean(d, Unfold(toks, s, "", w))
  {
    if toks != [] {
      var rest := toks[1..];
      UnfoldClean(d, rest, s, w);
      var tail := Unfold(rest, s, "", w);
      if toks[0] == Sym(s) {
        assert Apart(w, s);
        CleanAfterWord(d, w, tail);
      } else {
        if SpellsSymbol(d, Unfold(toks, s, "", w)) {
          UnfoldSpells(d, toks, s, w);
        }
        assert Unfold(toks, s, "", w)[1..] == tail;
      }
    }
  }

  lemma UnfoldSpells(d: Dict, toks: seq<Tok>, s: string, w: string)
    requires ApartFromAll(d, w) && toks != [] && toks[0] != Sym(s)
    requires SpellsSymbol(d, Unfold(toks, s, "", w))
    ensures SpellsSymbol(d, toks)
  {
    var m := Unfold(toks, s, "", w);
    var x := [m[0].c, m[1].c, m[2].c];
    assert Apart(w, x);
    ApartHeads(w, x);
    assert m == [toks[0]] + Unfold(toks[1..], s, "", w);
    UnfoldHeads(toks[1..], s, w, m[1].c, m[2].c);
  }

  lemma UnfoldHeads(toks: seq<Tok>, s: string, w: string, a: char, b: char)
    requires |w| >= 2 && w[0] != b && (w[0] != a || w[1] != b)
    requires |Unfold(toks, s, "", w)| >= 2 && Unfold(toks, s, "", w)[0] == Lit(a) && Unfold(toks, s, "", w)[1] == Lit(b)
    ensures |toks| >= 2 && toks[0] == Lit(a) && toks[1] == Lit(b)
  {
    UnfoldHead(toks, s, w);
    UnfoldHead(toks[1..], s, w);
  }

  /** A leading character of split tokens is an old one or begins the word. */
  lemma UnfoldHead(toks: seq<Tok>, s: string, w: string)
    requires |w| >= 2
    ensures var m := Unfold(toks, s, "", w);
            m != [] && m[0].Lit? ==>
              && toks != []
              && if toks[0] == Sym(s) then |m| >= 2 && m[0] == Lit(w[0]) && m[1] == Lit(w[1])
                 else m[0] == toks[0] && m[1..] == Unfold(toks[1..], s, "", w)
  {
    LitsAt(w);
  }

  lemma {:induction false} CleanAfterWord(d: Dict, w: string, tail: seq<Tok>)
    requires ShortSymbols(d) && '$' !in w && Clean(d, tail)
    ensures Clean(d, Lits(w) + tail)
  {
    hide SpellsSymbol;
    if w == "" {
      assert Lits(w) + tail == tail;
    } else {
      CleanAfterWord(d, w[1..], tail);
      ConcatTail(Lits(w), tail);
      assert Lits(w)[1..] == Lits(w[1..]) && w[0] in w;
      NoSymbolHere(d, Lits(w) + tail, w[0]);
    }
  }

  lemma NoSymbolHere(d: Dict, toks: seq<Tok>, c: char)
    requires ShortSymbols(d) && toks != [] && toks[0] == Lit(c) && c != '$'
    ensures !SpellsSymbol(d, toks)
  {
    if |toks| >= 3 && toks[1].Lit? && toks[2].Lit? {
      var x := [c, toks[1].c, toks[2].c];
      assert !ShortSymbol(x);
    }
  }

  // ---- Whole calls ----------------------------------------------------------------------

  /** A text, with the known symbols it spells out taken for symbols. */
  function Tokenize(d: Dict, t: string): seq<Tok> {
    if t == "" then []
    else if |t| >= 3 && t[..3] in d.reverse then [Sym(t[..3])] + Tokenize(d, t[3..])
    else [Lit(t[0])] + Tokenize(d, t[1..])
  }

  lemma {:induction false} TokenizeReads(d: Dict, t: string)
    ensures Render(Tokenize(d, t)) == t && Known(d, Tokenize(d, t))
    decreases |t|
  {
    hide Known, Render;
    if t == "" {
      NoTokens(d);
    } else {
      var n := if |t| >= 3 && t[..3] in d.reverse then 3 else 1;
      TokenizeReads(d, t[n..]);
      FirstToken(d, if n == 3 then Sym(t[..3]) else Lit(t[0]), Tokenize(d, t[n..]));
      assert n == 1 ==> t[..n] == [t[0]];
      TakeDrop(t, n);
    }
  }

  lemma NoTokens(d: Dict)
    ensures Known(d, []) && Render([]) == ""
  {
  }

  lemma FirstToken(d: Dict, tok: Tok, rest: seq<Tok>)
    requires Known(d, rest) && (tok.Sym? ==> tok.s in d.reverse)
    ensures Known(d, [tok] + rest)
    ensures Render([tok] + rest) == (if tok.Sym? then tok.s else [tok.c]) + Render(rest)
  {
    assert ([tok] + rest)[1..] == rest;
  }

  lemma {:induction false} TokenizeClean(d: Dict, t: string)
    ensures Clean(d, Tokenize(d, t))
    decreases |t|
  {
    if t == "" {
    } else if |t| >= 3 && t[..3] in d.reverse {
      TokenizeClean(d, t[3..]);
      assert Tokenize(d, t)[1..] == Tokenize(d, t[3..]);
    } else {
      TokenizeClean(d, t[1..]);
      NotSpelled(d, t);
      assert Tokenize(d, t)[1..] == Tokenize(d, t[1..]);
    }
  }

  lemma NotSpelled(d: Dict, t: string)
    ensures !SpellsSymbol(d, Tokenize(d, t))
  {
    TokenizeHead(d, t);
    if |t| >= 3 {
      TokenizeHead(d, t[1..]);
      TokenizeHead(d, t[2..]);
      assert t[1..][1..] == t[2..];
      assert t[..3] == [t[0], t[1], t[2]];
    } else if |t| == 2 {
      TokenizeHead(d, t[1..]);
      assert t[1..][1..] == "";
    }
  }

  lemma TokenizeHead(d: Dict, t: string)
    ensures var toks := Tokenize(d, t);
            toks != [] && toks[0].Lit? ==>
              && t != "" && toks[0] == Lit(t[0]) && toks[1..] == Tokenize(d, t[1..])
              && !(|t| >= 3 && t[..3] in d.reverse)
  {
  }

  lemma EncodeStep(d: Dict, toks: seq<Tok>, w: string) returns (out: seq<Tok>)
    requires Separated(d) && w in d.codebook && Known(d, toks) && Clean(d, toks)
    ensures Render(out) == ReplaceAll(Render(toks), w, d.codebook[w]) && Meaning(d, out) == Meaning(d, toks)
    ensures Known(d, out) && Clean(d, out)
  {
    hide Merge, Clean, Meaning, ReplaceAll, Untouched, Apart;
    var s := d.codebook[w];
    assert ApartFromAll(d, w);
    NonEmptyWord(w, s);
    ApartUntouched(d, toks, w);
    ReadOne(map[], s);
    ReadOne(d.reverse, s);
    ReplaceIsMerge(toks, w, One(s));
    MeansWord(d, s);
    MergeKeeps(d, toks, w, One(s));
    MergeClean(d, toks, w, s);
    out := Merge(toks, w, One(s));
  }

  lemma NonEmptyWord(w: string, s: string)
    requires Apart(w, s)
    ensures w != "" && '$' !in w
  {
  }

  lemma MeansWord(d: Dict, s: string)
    requires s in d.reverse
    ensures Meaning(d, One(s)) == d.reverse[s]
  {
    ReadOne(d.reverse, s);
  }

  lemma {:induction false} EncodeTokens(d: Dict, order: seq<(string, string)>, toks: seq<Tok>) returns (out: seq<Tok>)
    requires Separated(d) && Codes(d, order) && Known(d, toks) && Clean(d, toks)
    ensures Render(out) == Substitute(order, Render(toks)) && Meaning(d, out) == Meaning(d, toks)
    ensures Known(d, out) && Clean(d, out)
  {
    hide Separated, Known, Clean, Meaning, Render, ReplaceAll;
    if order == [] {
      out := toks;
    } else {
      var (w, s) := order[|order| - 1];
      var mid := EncodeTokens(d, order[..|order| - 1], toks);
      out := EncodeStep(d, mid, w);
    }
  }

  lemma DecodeStep(d: Dict, toks: seq<Tok>, s: string) returns (out: seq<Tok>)
    requires Separated(d) && s in d.reverse && Known(d, toks) && Clean(d, toks)
    ensures Render(out) == ReplaceAll(Render(toks), s, d.reverse[s]) && Meaning(d, out) == Meaning(d, toks)
    ensures Known(d, out) && Clean(d, out)
    ensures forall x :: Sym(x) in out ==> Sym(x) in toks && x != s
  {
    hide Unfold, Clean, Meaning, ReplaceAll, Render, Known, Apart;
    var w := d.reverse[s];
    assert w in d.codebook && ApartFromAll(d, w);
    ReplaceIsUnfold(d, toks, s, "", w);
    assert s + "" == s && w + "" == w;
    UnfoldKeeps(d, toks, s, "");
    UnfoldClean(d, toks, s, w);
    UnfoldSymbols(toks, s, "", w);
    out := Unfold(toks, s, "", w);
    KnownIf(d, toks, out);
  }

  lemma {:induction false} DecodeTokens(d: Dict, order: seq<(string, string)>, toks: seq<Tok>) returns (out: seq<Tok>)
    requires Separated(d) && Known(d, toks) && Clean(d, toks) && Decodes(d, order)
    ensures Render(out) == Substitute(order, Render(toks)) && Meaning(d, out) == Meaning(d, toks)
    ensures Known(d, out) && Clean(d, out)
    ensures Gone(order, out)
  {
    hide Separated, Known, Clean, Meaning, Render, ReplaceAll;
    if order == [] {
      out := toks;
    } else {
      var (s, w) := order[|order| - 1];
      var mid := DecodeTokens(d, order[..|order| - 1], toks);
      out := DecodeStep(d, mid, s);
      GoneKeeps(order[..|order| - 1], mid, out);
    }
  }

  /** Encoding with d and decoding with any later dictionary e, in any orders,
      gives the text with the symbols it spelled out expanded. */
  lemma DecodeAfterEncode(d: Dict, e: Dict, t: string, applying: seq<(string, string)>, decoding: seq<(string, string)>)
    requires Separated(e) && Extends(d, e)
    requires IsOrder(applying, d.codebook.Items) && IsOrder(decoding, e.reverse.Items)
    ensures Substitute(decoding, Substitute(applying, t)) == Meaning(e, Tokenize(e, t))
  {
    TokenizeReads(e, t);
    TokenizeClean(e, t);
    CodesIf(d, e, applying);
    DecodesIf(e, decoding);
    var encoded := EncodeTokens(e, applying, Tokenize(e, t));
    var decoded := DecodeTokens(e, decoding, encoded);
    AllDecoded(e, decoding, decoded);
    NoSymbolsLeft(e.reverse, decoded);
  }

  // ---- When the round trip holds --------------------------------------------------------

  /** Expanding a token adds bytes if and only if it is a symbol. */
  lemma TokGrows(d: Dict, tok: Tok)
    requires Consistent(d) && ShortSymbols(d) && (tok.Sym? ==> tok.s in d.reverse)
    ensures var m, n := ByteLen(ReadTok(d.reverse, tok)), ByteLen(Written(tok)); if tok.Sym? then m > n else m == n
  {
    if tok.Sym? {
      SymbolBytes(tok.s);
      assert LongWords(d) && d.reverse[tok.s] in d.codebook;
    }
  }

  lemma {:induction false} ExpandingGrows(d: Dict, toks: seq<Tok>)
    requires Consistent(d) && ShortSymbols(d) && Known(d, toks)
    ensures ByteLen(Meaning(d, toks)) >= ByteLen(Render(toks))
    ensures AllLit(toks) || ByteLen(Meaning(d, toks)) > ByteLen(Render(toks))
  {
    hide Consistent, ShortSymbols, ByteLen, ReadTok;
    if toks != [] {
      ExpandingGrows(d, toks[1..]);
      TokGrows(d, toks[0]);
      ByteLenConcat(ReadTok(d.reverse, toks[0]), Read(d.reverse, toks[1..]));
      ByteLenConcat(Written(toks[0]), Render(toks[1..]));
    }
  }

  function Written(tok: Tok): string {
    ReadTok(map[], tok)
  }

  lemma SymbolBytes(s: string)
    requires ShortSymbol(s)
    ensures ByteLen(s) == 3
  {
    assert s == [s[0]] + ([s[1]] + [s[2]]);
    ByteLenConcat([s[0]], [s[1]] + [s[2]]);
    ByteLenConcat([s[1]], [s[2]]);
  }

  lemma {:induction false} SymbolFreeIff(d: Dict, t: string)
    requires ShortSymbols(d)
    ensures SymbolFree(d, t) <==> AllLit(Tokenize(d, t))
    decreases |t|
  {
    hide Contains, Tokenize, SymbolFree, ShortSymbols;
    if t == "" {
      NoSymbolInEmpty(d);
    } else if |t| >= 3 && t[..3] in d.reverse {
      SymbolAtStart(d, t);
    } else {
      SymbolFreeIff(d, t[1..]);
      SymbolFreeTail(d, t);
      TokenizeLit(d, t);
    }
  }

  lemma NoSymbolInEmpty(d: Dict)
    requires ShortSymbols(d)
    ensures SymbolFree(d, "") && Tokenize(d, "") == []
  {
    forall s | s in d.reverse ensures !Contains("", s) {
      assert ShortSymbol(s);
    }
  }

  lemma SymbolAtStart(d: Dict, t: string)
    requires |t| >= 3 && t[..3] in d.reverse
    ensures !SymbolFree(d, t) && !AllLit(Tokenize(d, t))
  {
    var s := t[..3];
    assert t[0..] == t && s <= t[0..];
    assert Contains(t, s);
  }

  lemma SymbolFreeTail(d: Dict, t: string)
    requires ShortSymbols(d) && t != "" && !(|t| >= 3 && t[..3] in d.reverse)
    ensures SymbolFree(d, t) <==> SymbolFree(d, t[1..])
  {
    hide Contains;
    forall s | s in d.reverse ensures Contains(t, s) <==> Contains(t[1..], s) {
      assert ShortSymbol(s);
      PrefixThree(t, s);
      ContainsTail(t, s);
    }
  }

  lemma TokenizeLit(d: Dict, t: string)
    requires t != "" && !(|t| >= 3 && t[..3] in d.reverse)
    ensures AllLit(Tokenize(d, t)) <==> AllLit(Tokenize(d, t[1..]))
  {
    ConcatTail([Lit(t[0])], Tokenize(d, t[1..]));
    assert [Lit(t[0])][1..] == [];
  }

  lemma PrefixThree(t: string, s: string)
    requires |s| == 3
    ensures s <= t <==> |t| >= 3 && t[..3] == s
  {
  }

  lemma ContainsTail(t: string, s: string)
    requires t != "" && !(s <= t)
    ensures Contains(t, s) <==> Contains(t[1..], s)
  {
    if Contains(t, s) {
      var i :| 0 <= i <= |t| && s <= t[i..];
      assert t[0..] == t;
      assert t[1..][i - 1..] == t[i..];
    }
    if Contains(t[1..], s) {
      var i :| 0 <= i <= |t[1..]| && s <= t[1..][i..];
      assert t[1..][i..] == t[i + 1..];
    }
  }

  /** For a separated dictionary the round trip through any orders, decoded with
      any later separated dictionary, succeeds exactly on the texts that spell
      out none of its symbols. */
  lemma RoundTripIff(d: Dict, e: Dict, t: string, applying: seq<(string, string)>, decoding: seq<(string, string)>)
    requires Separated(e) && Extends(d, e)
    requires IsOrder(applying, d.codebook.Items) && IsOrder(decoding, e.reverse.Items)
    ensures Substitute(decoding, Substitute(applying, t)) == t <==> SymbolFree(e, t)
  {
    var toks := Tokenize(e, t);
    DecodeAfterEncode(d, e, t, applying, decoding);
    TokenizeReads(e, t);
    SymbolFreeIff(e, t);
    ExpandingGrows(e, toks);
    if SymbolFree(e, t) {
      NoSymbolsLeft(e.reverse, toks);
    }
  }

  // ---- Runs --------------------------------------------------------------------------------

  /** One Encode call of a run: its input, its two iteration orders, its output. */
  datatype Call = Call(text: string, learning: seq<(string, nat)>, applying: seq<(string, string)>, output: string)

  ghost function After(calls: seq<Call>): Dict {
    if calls == [] then FRESH
    else LearnAll(After(calls[..|calls| - 1]), calls[|calls| - 1].learning)
  }

  /** A run of Encode calls on a fresh encoder. */
  ghost predicate Run(calls: seq<Call>) {
    calls == [] || (
      var init, c := calls[..|calls| - 1], calls[|calls| - 1];
      Run(init) && Encodes(After(init), c.text, c.learning, c.applying, After(calls), c.output))
  }

  /** Some text of the run taught the word w. */
  ghost predicate Taught(calls: seq<Call>, w: string) {
    calls != [] && (Frequent(calls[|calls| - 1].text, w) || Taught(calls[..|calls| - 1], w))
  }

  /** Over every run the two maps are inverse bijections of size counter, and the
      codebook holds exactly the words that some text of the run taught it. */
  lemma {:induction false} RunInvariant(calls: seq<Call>)
    requires Run(calls)
    ensures Consistent(After(calls))
    ensures forall w :: w in After(calls).codebook <==> Taught(calls, w)
  {
    if calls == [] {
      assert forall w :: !Taught(calls, w);
    } else {
      RunInvariant(calls[..|calls| - 1]);
      RunStep(calls);
    }
  }

  lemma RunStep(calls: seq<Call>)
    requires Run(calls) && calls != [] && Consistent(After(calls[..|calls| - 1]))
    ensures Consistent(After(calls)) && Extends(After(calls[..|calls| - 1]), After(calls))
    ensures forall w :: w in After(calls).codebook <==>
                        w in After(calls[..|calls| - 1]).codebook || Frequent(calls[|calls| - 1].text, w)
  {
    var init, c := calls[..|calls| - 1], calls[|calls| - 1];
    EncodeLearns(After(init), c.text, c.learning, c.applying, After(calls), c.output);
  }

  lemma ExtendsTransitive(a: Dict, b: Dict, c: Dict)
    requires Extends(a, b) && Extends(b, c)
    ensures Extends(a, c)
  {
  }

  lemma ExtendsSelf(d: Dict)
    ensures Extends(d, d)
  {
  }

  lemma {:induction false} RunExtends(calls: seq<Call>, k: nat)
    requires Run(calls) && k < |calls|
    ensures Extends(After(calls[..k + 1]), After(calls))
    ensures IsOrder(calls[k].applying, After(calls[..k + 1]).codebook.Items)
    ensures calls[k].output == Substitute(calls[k].applying, calls[k].text)
  {
    hide Substitute, IsOrder, Extends, Consistent, LearnAll;
    if k == |calls| - 1 {
      assert calls[..k + 1] == calls;
      ExtendsSelf(After(calls));
    } else {
      var init := calls[..|calls| - 1];
      RunExtends(init, k);
      RunInvariant(init);
      RunStep(calls);
      assert init[..k + 1] == calls[..k + 1] && init[k] == calls[k];
      ExtendsTransitive(After(calls[..k + 1]), After(init), After(calls));
    }
  }
}
