/** The learned codebook of internal/filter/claw_compactor_stages.go: state,
    learning and substitution.  The round trip is proved in DictionaryRoundTrip. */
module Dictionary {
  import opened Collections
  import opened Text

  datatype Dict = Dict(codebook: map<string, string>, reverse: map<string, string>, counter: nat)

  const FRESH := Dict(map[], map[], 0)

  // ---- Symbols: fmt.Sprintf("$%02X", n) --------------------------------------

  function HexDigit(d: nat): (c: char)
    requires d < 16
    ensures IsHexDigit(c) && HexValue(c) == d
  {
    if d < 10 then '0' + d as char else 'A' + (d - 10) as char
  }

  predicate IsHexDigit(c: char) {
    '0' <= c <= '9' || 'A' <= c <= 'F'
  }

  function HexValue(c: char): (d: nat)
    requires IsHexDigit(c)
    ensures d < 16
  {
    if c <= '9' then c as int - '0' as int else 10 + (c as int - 'A' as int)
  }

  /** Upper-case hexadecimal, no leading zero ("" for 0). */
  function Hex(n: nat): (s: string)
    ensures forall c :: c in s ==> IsHexDigit(c)
    ensures n == 0 <==> s == ""
    ensures n < 16 ==> |s| <= 1
    ensures n < 256 ==> |s| <= 2
  {
    if n == 0 then "" else Hex(n / 16) + [HexDigit(n % 16)]
  }

  function ParseHex(s: string): nat
    requires forall c :: c in s ==> IsHexDigit(c)
  {
    if s == "" then 0 else 16 * ParseHex(s[..|s| - 1]) + HexValue(s[|s| - 1])
  }

  function Pad2(s: string): (r: string)
    ensures |r| >= 2
  {
    if |s| == 0 then "00" else if |s| == 1 then "0" + s else s
  }

  function Symbol(n: nat): (s: string)
    ensures |s| >= 3 && s[0] == '$'
    ensures forall c :: c in s[1..] ==> IsHexDigit(c)
    ensures n < 256 ==> |s| == 3
  {
    "$" + Pad2(Hex(n))
  }

  lemma {:induction false} ParseHexOfHex(n: nat)
    ensures ParseHex(Hex(n)) == n
  {
    if n > 0 {
      ParseHexOfHex(n / 16);
      assert Hex(n)[..|Hex(n)| - 1] == Hex(n / 16);
    }
  }

  lemma ParseHexOfPad(s: string)
    requires forall c :: c in s ==> IsHexDigit(c)
    ensures ParseHex(Pad2(s)) == ParseHex(s)
  {
    if |s| == 0 {
      assert "00"[..1] == "0";
      assert "0"[..0] == "";
    } else if |s| == 1 {
      assert ("0" + s)[..1] == "0";
      assert "0"[..0] == "" && s[..0] == "";
    }
  }

  lemma SymbolInjective(m: nat, n: nat)
    requires Symbol(m) == Symbol(n)
    ensures m == n
  {
    assert Symbol(m)[1..] == Pad2(Hex(m)) && Symbol(n)[1..] == Pad2(Hex(n));
    ParseHexOfHex(m);
    ParseHexOfHex(n);
    ParseHexOfPad(Hex(m));
    ParseHexOfPad(Hex(n));
  }

  /** The symbols $01 .. Symbol(n). */
  ghost function Symbols(n: nat): set<string> {
    if n == 0 then {} else Symbols(n - 1) + {Symbol(n)}
  }

  lemma {:induction false} SymbolsMember(m: nat, n: nat)
    ensures Symbol(m) in Symbols(n) <==> 1 <= m <= n
  {
    if n > 0 {
      SymbolsMember(m, n - 1);
      if Symbol(m) == Symbol(n) {
        SymbolInjective(m, n);
      }
    }
  }

  // ---- strings.Count and strings.ReplaceAll -----------------------------------

  /** strings.ReplaceAll: leftmost, non-overlapping; the empty pattern matches
      before every character and at the end. */
  function ReplaceAll(s: string, old_: string, new_: string): string
    decreases |s|
  {
    if s == "" then if old_ == "" then new_ else ""
    else if old_ == "" then new_ + [s[0]] + ReplaceAll(s[1..], old_, new_)
    else if old_ <= s then new_ + ReplaceAll(s[|old_|..], old_, new_)
    else [s[0]] + ReplaceAll(s[1..], old_, new_)
  }

  /** strings.Count. */
  function Count(s: string, old_: string): nat
    decreases |s|
  {
    if s == "" then if old_ == "" then 1 else 0
    else if old_ == "" then 1 + Count(s[1..], old_)
    else if old_ <= s then 1 + Count(s[|old_|..], old_)
    else Count(s[1..], old_)
  }

  lemma {:induction false} ReplaceAllLength(s: string, old_: string, new_: string, diff: int)
    requires old_ != "" && diff == ByteLen(old_) - ByteLen(new_)
    ensures ByteLen(ReplaceAll(s, old_, new_)) == ByteLen(s) - Count(s, old_) * diff
    decreases |s|
  {
    if s == "" {
    } else {
      var k := if old_ <= s then |old_| else 1;
      var rest := s[k..];
      ReplaceAllLength(rest, old_, new_, diff);
      var head := if old_ <= s then new_ else s[..1];
      assert ReplaceAll(s, old_, new_) == head + ReplaceAll(rest, old_, new_);
      ByteLenSplit(ReplaceAll(s, old_, new_), head, ReplaceAll(rest, old_, new_));
      ByteLenSplit(s, s[..k], rest);
      if old_ <= s {
        assert s[..k] == old_;
        Distribute(Count(s, old_), Count(rest, old_), diff);
      } else {
        assert Count(s, old_) == Count(rest, old_);
      }
    }
  }

  lemma Distribute(m: nat, n: nat, x: int)
    requires m == 1 + n
    ensures m * x == x + n * x
  {
  }

  lemma ByteLenSplit(s: string, a: string, b: string)
    requires s == a + b
    ensures ByteLen(s) == ByteLen(a) + ByteLen(b)
  {
    ByteLenConcat(a, b);
  }

  lemma {:induction false} ReplaceAllAbsent(s: string, old_: string, new_: string)
    requires old_ != "" && !Contains(s, old_)
    ensures ReplaceAll(s, old_, new_) == s
    ensures Count(s, old_) == 0
    decreases |s|
  {
    if s != "" {
      assert s[0..] == s;
      assert !Contains(s[1..], old_) by {
        forall i | 0 <= i <= |s[1..]| ensures !(old_ <= s[1..][i..]) {
          assert s[1..][i..] == s[i + 1..];
        }
      }
      ReplaceAllAbsent(s[1..], old_, new_);
    }
  }

  // ---- Learning ----------------------------------------------------------------

  /** The freq map: occurrences of the fields longer than three bytes. */
  function Frequencies(fs: seq<string>): map<string, nat> {
    if fs == [] then map[]
    else
      var m, w := Frequencies(fs[..|fs| - 1]), fs[|fs| - 1];
      if ByteLen(w) > 3 then m[w := (if w in m then m[w] else 0) + 1] else m
  }

  lemma {:induction false} FrequenciesCount(fs: seq<string>)
    ensures forall w :: w in Frequencies(fs) <==> w in fs && ByteLen(w) > 3
    ensures forall w :: w in Frequencies(fs) ==> Frequencies(fs)[w] == multiset(fs)[w]
  {
    if fs != [] {
      var init, w := fs[..|fs| - 1], fs[|fs| - 1];
      FrequenciesCount(init);
      assert fs == init + [w];
      assert forall v :: v in fs <==> v in init || v == w;
    }
  }

  /** The words a text teaches the codebook: more than five bytes without white
      space, standing by themselves at three or more places. */
  ghost predicate Frequent(t: string, w: string) {
    Standing(true, t, w) >= 3 && ByteLen(w) > 5 && Solid(w)
  }

  function Learn(d: Dict, w: string, count: nat): Dict {
    if count >= 3 && ByteLen(w) > 5 && w !in d.codebook then
      var s := Symbol(d.counter + 1);
      Dict(d.codebook[w := s], d.reverse[s := w], d.counter + 1)
    else d
  }

  ghost predicate Teaches(item: (string, nat), w: string) {
    item.0 == w && item.1 >= 3 && ByteLen(w) > 5
  }

  function LearnAll(d: Dict, order: seq<(string, nat)>): Dict {
    if order == [] then d
    else var (w, count) := order[|order| - 1]; Learn(LearnAll(d, order[..|order| - 1]), w, count)
  }

  /** Two maps that undo each other. */
  ghost predicate Inverse(f: map<string, string>, g: map<string, string>) {
    && |f| == |g|
    && (forall w :: w in f ==> f[w] in g && g[f[w]] == w)
    && (forall s :: s in g ==> g[s] in f && f[g[s]] == s)
  }

  ghost predicate LongWords(d: Dict) {
    forall w :: w in d.codebook ==> ByteLen(w) > 5
  }

  /** The invariant of every run: codebook and reverse are mutually inverse
      bijections between the words and the symbols $01 .. Symbol(counter). */
  ghost predicate Consistent(d: Dict) {
    && Inverse(d.codebook, d.reverse)
    && |d.codebook| == d.counter
    && d.reverse.Keys == Symbols(d.counter)
    && LongWords(d)
  }

  lemma InverseAdd(f: map<string, string>, g: map<string, string>, w: string, s: string)
    requires Inverse(f, g) && w !in f && s !in g
    ensures Inverse(f[w := s], g[s := w]) && |f[w := s]| == |f| + 1
  {
  }

  ghost predicate Extends(d: Dict, e: Dict) {
    && (forall w :: w in d.codebook ==> w in e.codebook && e.codebook[w] == d.codebook[w])
    && (forall s :: s in d.reverse ==> s in e.reverse && e.reverse[s] == d.reverse[s])
    && d.counter <= e.counter
  }

  lemma LearnConsistent(d: Dict, w: string, count: nat)
    requires Consistent(d)
    ensures Consistent(Learn(d, w, count)) && Extends(d, Learn(d, w, count))
  {
    SymbolsMember(d.counter + 1, d.counter);
    if count >= 3 && ByteLen(w) > 5 && w !in d.codebook {
      AddCode(d, w, Symbol(d.counter + 1));
    }
  }

  lemma AddCode(d: Dict, w: string, s: string)
    requires Consistent(d) && w !in d.codebook && ByteLen(w) > 5
    requires s == Symbol(d.counter + 1) && s !in Symbols(d.counter)
    ensures var e := Dict(d.codebook[w := s], d.reverse[s := w], d.counter + 1); Consistent(e) && Extends(d, e)
  {
    hide ByteLen, Symbol, Symbols, Inverse, LongWords, Extends;
    InverseAdd(d.codebook, d.reverse, w, s);
    KeysAdd(d.reverse, d.counter, s, w);
    ExtendsAdd(d, w, s);
  }

  lemma KeysAdd(reverse: map<string, string>, n: nat, s: string, w: string)
    requires reverse.Keys == Symbols(n) && s == Symbol(n + 1)
    ensures reverse[s := w].Keys == Symbols(n + 1)
  {
    hide Symbol;
  }

  lemma ExtendsAdd(d: Dict, w: string, s: string)
    requires w !in d.codebook && s !in d.reverse && ByteLen(w) > 5 && LongWords(d)
    ensures var e := Dict(d.codebook[w := s], d.reverse[s := w], d.counter + 1); Extends(d, e) && LongWords(e)
  {
    hide ByteLen;
  }

  lemma {:induction false} LearnAllConsistent(d: Dict, order: seq<(string, nat)>)
    requires Consistent(d)
    ensures Consistent(LearnAll(d, order)) && Extends(d, LearnAll(d, order))
  {
    if order != [] {
      var init := order[..|order| - 1];
      var (w, count) := order[|order| - 1];
      LearnAllConsistent(d, init);
      LearnConsistent(LearnAll(d, init), w, count);
    }
  }

  lemma {:induction false} LearnAllWords(d: Dict, order: seq<(string, nat)>, w: string)
    ensures w in LearnAll(d, order).codebook <==>
            w in d.codebook || exists i :: 0 <= i < |order| && Teaches(order[i], w)
  {
    if order != [] {
      LearnAllWords(d, order[..|order| - 1], w);
      if exists i :: 0 <= i < |order| && Teaches(order[i], w) {
        var i :| 0 <= i < |order| && Teaches(order[i], w);
        assert i < |order| - 1 ==> Teaches(order[..|order| - 1][i], w);
      }
      assert Teaches(order[|order| - 1], w) || !Teaches(order[|order| - 1], w);
    }
  }

  // ---- Encoding and decoding -----------------------------------------------------

  /** Replace the patterns of `order` by their partners, one after the other. */
  function Substitute(order: seq<(string, string)>, t: string): string {
    if order == [] then t
    else
      var (w, s) := order[|order| - 1];
      ReplaceAll(Substitute(order[..|order| - 1], t), w, s)
  }

  /** One Encode call from state d: it iterates freq in the order `learning` and
      the codebook in the order `applying`, ends in state e and returns r. */
  ghost predicate Encodes(d: Dict, t: string, learning: seq<(string, nat)>,
                          applying: seq<(string, string)>, e: Dict, r: string)
  {
    && IsOrder(learning, Frequencies(Fields(t)).Items)
    && e == LearnAll(d, learning)
    && IsOrder(applying, e.codebook.Items)
    && r == Substitute(applying, t)
  }

  /** What an Encode call teaches a consistent dictionary does not depend on the
      iteration order, except for the numbering of the new words. */
  lemma EncodeLearns(d: Dict, t: string, learning: seq<(string, nat)>,
                     applying: seq<(string, string)>, e: Dict, r: string)
    requires Consistent(d) && Encodes(d, t, learning, applying, e, r)
    ensures Consistent(e) && Extends(d, e)
    ensures forall w :: w in e.codebook <==> w in d.codebook || Frequent(t, w)
  {
    LearnAllConsistent(d, learning);
    forall w ensures w in e.codebook <==> w in d.codebook || Frequent(t, w) {
      LearnAllWords(d, learning, w);
      TaughtIffFrequent(t, learning, w);
    }
  }

  lemma TaughtIffFrequent(t: string, learning: seq<(string, nat)>, w: string)
    requires IsOrder(learning, Frequencies(Fields(t)).Items)
    ensures (exists i :: 0 <= i < |learning| && Teaches(learning[i], w)) <==> Frequent(t, w)
  {
    hide Standing;
    var freq := Frequencies(Fields(t));
    FrequenciesCount(Fields(t));
    if w in Fields(t) || (w != "" && Solid(w)) {
      FieldsStanding(t, w);
    }
    if Frequent(t, w) {
      assert w in multiset(Fields(t));
      assert (w, freq[w]) in freq.Items;
      var i :| 0 <= i < |learning| && learning[i] == (w, freq[w]);
      assert Teaches(learning[i], w);
    } else {
      forall i | 0 <= i < |learning| ensures !Teaches(learning[i], w) {
        assert learning[i] in freq.Items;
      }
    }
  }

  class DictionaryEncoding {
    var codebook: map<string, string>
    var reverse: map<string, string>
    var counter: nat

    ghost function View(): Dict
      reads this
    {
      Dict(codebook, reverse, counter)
    }

    constructor ()
      ensures View() == FRESH && Consistent(View())
    {
      codebook, reverse, counter := map[], map[], 0;
    }

    method CountWords(words: seq<string>) returns (freq: map<string, nat>)
      ensures freq == Frequencies(words)
    {
      freq := map[];
      for i := 0 to |words|
        invariant freq == Frequencies(words[..i])
      {
        var w := words[i];
        assert words[..i + 1][..i] == words[..i];
        if ByteLen(w) > 3 {
          freq := freq[w := (if w in freq then freq[w] else 0) + 1];
        }
      }
      assert words[..|words|] == words;
    }

    method LearnWord(w: string, count: nat)
      modifies this
      ensures View() == Learn(old(View()), w, count)
    {
      if count >= 3 && ByteLen(w) > 5 && w !in codebook {
        counter := counter + 1;
        var symbol := Symbol(counter);
        codebook := codebook[w := symbol];
        reverse := reverse[symbol := w];
      }
    }

    method LearnWords(freq: map<string, nat>) returns (ghost order: seq<(string, nat)>)
      modifies this
      ensures IsOrder(order, freq.Items)
      ensures View() == LearnAll(old(View()), order)
    {
      order := [];
      var todo := freq.Items;
      while todo != {}
        invariant todo <= freq.Items && IsOrder(order, freq.Items - todo)
        invariant View() == LearnAll(old(View()), order)
      {
        var item :| item in todo;
        LearnWord(item.0, item.1);
        VisitNext(freq.Items, todo, order, item);
        order := order + [item];
        todo := todo - {item};
      }
    }

    method Encode(content: string) returns (result: string, saved: int)
      requires Consistent(View())
      modifies this
      ensures Consistent(View())
      ensures exists learning, applying :: Encodes(old(View()), content, learning, applying, View(), result)
      ensures saved == ByteLen(content) - ByteLen(result)
    {
      var freq := CountWords(Fields(content));
      ghost var learning := LearnWords(freq);
      LearnAllConsistent(old(View()), learning);
      ghost var applying;
      result, saved, applying := Apply(content);
      assert Encodes(old(View()), content, learning, applying, View(), result);
    }

    method ReplaceCounted(text: string, w: string, symbol: string) returns (result: string, saved: int)
      requires w != ""
      ensures result == ReplaceAll(text, w, symbol)
      ensures saved == ByteLen(text) - ByteLen(result)
    {
      var count := Count(text, w);
      ReplaceAllLength(text, w, symbol, ByteLen(w) - ByteLen(symbol));
      if count > 0 {
        result := ReplaceAll(text, w, symbol);
        saved := count * (ByteLen(w) - ByteLen(symbol));
      } else {
        CountZero(text, w, symbol);
        result, saved := text, 0;
      }
    }

    method Apply(content: string) returns (result: string, saved: int, ghost applying: seq<(string, string)>)
      requires Consistent(View())
      ensures IsOrder(applying, codebook.Items)
      ensures result == Substitute(applying, content)
      ensures saved == ByteLen(content) - ByteLen(result)
    {
      result, saved, applying := content, 0, [];
      var todo := codebook.Items;
      while todo != {}
        invariant todo <= codebook.Items && IsOrder(applying, codebook.Items - todo)
        invariant result == Substitute(applying, content)
        invariant saved == ByteLen(content) - ByteLen(result)
      {
        var item :| item in todo;
        var (w, symbol) := item;
        assert w in codebook;
        var gained;
        result, gained := ReplaceCounted(result, w, symbol);
        saved := saved + gained;
        VisitNext(codebook.Items, todo, applying, item);
        applying := applying + [item];
        todo := todo - {item};
      }
    }

    method Decode(content: string) returns (result: string)
      ensures exists order :: IsOrder(order, reverse.Items) && result == Substitute(order, content)
    {
      result := content;
      ghost var order := [];
      var todo := reverse.Items;
      while todo != {}
        invariant todo <= reverse.Items && IsOrder(order, reverse.Items - todo)
        invariant result == Substitute(order, content)
      {
        var item :| item in todo;
        var (symbol, word) := item;
        result := ReplaceAll(result, symbol, word);
        VisitNext(reverse.Items, todo, order, item);
        order := order + [item];
        todo := todo - {item};
      }
    }
  }

  /** Nothing to count, nothing to replace: skipping the call changes nothing. */
  lemma {:induction false} CountZero(s: string, old_: string, new_: string)
    requires old_ != "" && Count(s, old_) == 0
    ensures ReplaceAll(s, old_, new_) == s
    decreases |s|
  {
    if s != "" {
      CountZero(s[1..], old_, new_);
    }
  }
}
