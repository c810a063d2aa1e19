/** Symbols of any length, and the conditions on a dictionary that decide whether
    its calls are undone. */
module DictionaryCodes {
  import opened Collections
  import opened Text
  import opened Dictionary
  import opened DictionaryTokens

  /** Words as strings.Fields cuts them out of text without '$'. */
  ghost predicate Plain(d: Dict) {
    forall w :: w in d.codebook ==> '$' !in w && Solid(w)
  }

  /** No word occurs in a symbol. */
  ghost predicate Compact(d: Dict) {
    forall s, w :: s in d.reverse && w in d.codebook ==> !Contains(s, w)
  }

  ghost predicate Usable(d: Dict) {
    Consistent(d) && Plain(d) && Compact(d)
  }

  // ---- Two digits and the rest ---------------------------------------------------------------

  /** The word with code n. */
  ghost function WordOf(d: Dict, n: nat): string {
    if Symbol(n) in d.reverse then d.reverse[Symbol(n)] else ""
  }

  /** The last digit of Symbol(n). */
  function LastDigit(n: nat): string {
    [HexDigit(n % 16)]
  }

  /** Past 255 a symbol is an earlier one and a digit. */
  lemma SymbolSnoc(n: nat)
    requires n >= 256
    ensures Symbol(n) == Symbol(n / 16) + LastDigit(n)
  {
    assert Hex(n) == Hex(n / 16) + LastDigit(n);
    assert Hex(n / 16) == Hex(n / 256) + LastDigit(n / 16);
  }

  ghost predicate ChainedAt(d: Dict, n: nat) {
    WordOf(d, n) == WordOf(d, n / 16) + LastDigit(n)
  }

  /** Every word past code 255 continues the word of the symbol it continues. */
  ghost predicate Chained(d: Dict) {
    forall n :: 256 <= n <= d.counter ==> ChainedAt(d, n)
  }

  function Base(n: nat): (b: nat)
    ensures b < 256 && b <= n && (n >= 1 ==> b >= 1)
  {
    if n < 256 then n else Base(n / 16)
  }

  function Tail(n: nat): (t: string)
    ensures '$' !in t
  {
    if n < 256 then "" else Tail(n / 16) + LastDigit(n)
  }

  lemma {:induction false} SymbolBase(n: nat)
    ensures Symbol(n) == Symbol(Base(n)) + Tail(n)
  {
    hide Symbol;
    if n >= 256 {
      SymbolBase(n / 16);
      SymbolSnoc(n);
      Assoc(Symbol(Base(n)), Tail(n / 16), LastDigit(n));
    }
  }

  lemma {:induction false} WordBase(d: Dict, n: nat)
    requires Chained(d) && n <= d.counter
    ensures WordOf(d, n) == WordOf(d, Base(n)) + Tail(n)
  {
    hide WordOf;
    if n >= 256 {
      WordBase(d, n / 16);
      assert ChainedAt(d, n);
      Assoc(WordOf(d, Base(n)), Tail(n / 16), LastDigit(n));
    }
  }

  lemma {:induction false} NumberOf(n: nat, s: string) returns (m: nat)
    requires s in Symbols(n)
    ensures 1 <= m <= n && s == Symbol(m)
  {
    if s == Symbol(n) {
      m := n;
    } else {
      m := NumberOf(n - 1, s);
    }
  }

  /** The codes with two digits. */
  ghost function Short(d: Dict): Dict {
    Dict(map[], map s | s in d.reverse && |s| == 3 :: d.reverse[s], 0)
  }

  lemma ShortForm(d: Dict)
    requires Consistent(d)
    ensures ShortSymbols(Short(d))
  {
    forall s | s in Short(d).reverse ensures ShortSymbol(s) {
      var m := NumberOf(d.counter, s);
      assert s[1] == s[1..][0] && s[2] == s[1..][1];
    }
  }

  lemma BaseCode(d: Dict, n: nat)
    requires Consistent(d) && 1 <= n <= d.counter
    ensures var s := Symbol(Base(n)); s in Short(d).reverse && Short(d).reverse[s] == WordOf(d, Base(n))
  {
    SymbolsMember(Base(n), d.counter);
  }

  lemma CodeWord(d: Dict, n: nat)
    requires Consistent(d) && Plain(d) && 1 <= n <= d.counter
    ensures var w := WordOf(d, n);
            && w in d.codebook && d.codebook[w] == Symbol(n) && w != "" && '$' !in w && Solid(w)
            && Symbol(n) in d.reverse && d.reverse[Symbol(n)] == w && Symbol(n) != "" && Symbol(n)[0] == '$'
  {
    hide Solid;
    SymbolsMember(n, d.counter);
    assert ByteLen(WordOf(d, n)) > 5;
  }

  lemma CodeNumber(d: Dict, s: string, w: string) returns (n: nat)
    requires Consistent(d) && ((w in d.codebook && d.codebook[w] == s) || (s in d.reverse && d.reverse[s] == w))
    ensures 1 <= n <= d.counter && s == Symbol(n) && w == WordOf(d, n)
  {
    n := NumberOf(d.counter, s);
  }

  /** A symbol is '$' and at least two digits. */
  ghost predicate SymbolForm(s: string) {
    |s| >= 3 && s[0] == '$' && '$' !in s[1..]
  }

  lemma FormOf(d: Dict, s: string)
    requires Consistent(d) && s in d.reverse
    ensures SymbolForm(s) && ShortSymbol(s[..3])
  {
    var n := NumberOf(d.counter, s);
    assert s[1..][0] == s[1] && s[1..][1] == s[2];
  }

  // ---- No word occurs in a symbol -----------------------------------------------------------

  lemma {:induction false} HexBytes(s: string)
    requires forall c :: c in s ==> IsHexDigit(c)
    ensures ByteLen(s) == |s|
  {
    if s != "" {
      HexBytes(s[1..]);
      assert s[0] in s;
    }
  }

  lemma {:induction false} HexLength(n: nat, digits: nat, bound: nat)
    requires n < bound && bound == Power16(digits)
    ensures |Hex(n)| <= digits
  {
    if n > 0 {
      HexLength(n / 16, digits - 1, Power16(digits - 1));
    }
  }

  function Power16(k: nat): nat {
    if k == 0 then 1 else 16 * Power16(k - 1)
  }

  lemma ShortDigits(n: nat)
    requires n < 0x10_0000
    ensures |Symbol(n)| <= 6
  {
    assert Power16(1) == 16 && Power16(2) == 256 && Power16(3) == 4096 && Power16(4) == 0x1_0000 && Power16(5) == 0x10_0000;
    HexLength(n, 5, 0x10_0000);
  }

  /** With fewer than 0x100000 codes the symbols are too short to hold a word. */
  lemma CompactIf(d: Dict)
    requires Consistent(d) && Plain(d) && d.counter < 0x10_0000
    ensures Compact(d)
  {
    hide Contains, Symbol, Solid;
    forall s, w | s in d.reverse && w in d.codebook ensures !Contains(s, w) {
      var n := NumberOf(d.counter, s);
      ShortDigits(n);
      assert LongWords(d) && ByteLen(w) > 5;
      NoRoom(n, w);
    }
  }

  lemma NoRoom(n: nat, w: string)
    requires |Symbol(n)| <= 6 && ByteLen(w) > 5 && '$' !in w
    ensures !Contains(Symbol(n), w)
  {
    var s := Symbol(n);
    HexBytes(s[1..]);
    forall i | 0 <= i <= |s| ensures !(w <= s[i..]) {
      assert w != "" && w[0] in w;
      if i > 0 {
        DropDrop(s, 1, i - 1);
        LongerThan(s[1..], i - 1, w);
      }
    }
  }

  lemma LongerThan(t: string, i: nat, w: string)
    requires i <= |t| && ByteLen(t) < ByteLen(w)
    ensures !(w <= t[i..])
  {
    if w <= t[i..] {
      OccurrenceFits(t, i, w);
    }
  }

  lemma OccurrenceFits(t: string, i: nat, w: string)
    requires i <= |t| && w <= t[i..]
    ensures ByteLen(w) <= ByteLen(t)
  {
    hide ByteLen;
    var u := t[i..];
    ByteLenConcat(t[..i], u);
    TakeDrop(t, i);
    ByteLenConcat(w, u[|w|..]);
    TakeDrop(u, |w|);
    assert u[..|w|] == w;
  }

  // ---- The conditions -------------------------------------------------------------------------

  /** The word w continues the symbol s of u from its second or third character on,
      and does not spell u behind it. */
  ghost predicate ReachesAt(u: string, s: string, w: string, k: nat)
    requires |s| >= 3 && 1 <= k <= 2
  {
    s[k..] <= w && !Contains(w[|s| - k..], u)
  }

  ghost predicate Reaches(u: string, s: string, w: string) {
    |s| >= 3 && (ReachesAt(u, s, w, 1) || ReachesAt(u, s, w, 2))
  }

  /** No word reaches into the symbol of another one. */
  ghost predicate Clear(d: Dict) {
    forall u, w :: u in d.codebook && w in d.codebook && u != w ==> !Reaches(u, d.codebook[u], w)
  }

  predicate StartsWithHex(w: string) {
    w != "" && IsHexDigit(w[0])
  }

  ghost predicate HexFree(d: Dict) {
    forall w :: w in d.codebook ==> !StartsWithHex(w)
  }

  /** Words that start with no hexadecimal digit do no harm. */
  lemma HexFreeClear(d: Dict)
    requires Consistent(d) && HexFree(d)
    ensures Clear(d)
  {
    hide Consistent, Reaches;
    forall u, w | u in d.codebook && w in d.codebook && u != w ensures !Reaches(u, d.codebook[u], w) {
      CodeForm(d, u);
      NoReach(u, d.codebook[u], w);
    }
  }

  lemma CodeForm(d: Dict, u: string)
    requires Consistent(d) && u in d.codebook
    ensures var s := d.codebook[u]; |s| >= 3 && IsHexDigit(s[1]) && IsHexDigit(s[2])
  {
    var s := d.codebook[u];
    FormOf(d, s);
    assert s[..3][1] == s[1] && s[..3][2] == s[2];
  }

  lemma NoReach(u: string, s: string, w: string)
    requires |s| >= 3 && IsHexDigit(s[1]) && IsHexDigit(s[2]) && !StartsWithHex(w)
    ensures !Reaches(u, s, w)
  {
    hide Contains;
    assert s[1..][0] == s[1] && s[2..][0] == s[2];
  }

  /** How symbols are written. */
  lemma SymbolExamples()
    ensures Symbol(1) == "$01" && Symbol(171) == "$AB" && Symbol(256) == "$100"
  {
    assert Hex(0) == "";
    assert Hex(1) == "1" && Hex(10) == "A";
    assert Hex(171) == Hex(10) + "B";
    assert Hex(16) == Hex(1) + "0" && Hex(256) == Hex(16) + "0";
  }
}
