/** Strings as the Go standard library treats them.

    A string is a sequence of Unicode scalar values; `len` is the number of
    bytes of its UTF-8 encoding. */
module Text {

  /** unicode.IsSpace. */
  predicate IsSpace(c: char) {
    var n := c as int;
    || 9 <= n <= 13 || n == 0x20 || n == 0x85 || n == 0xA0 || n == 0x1680
    || 0x2000 <= n <= 0x200A || n == 0x2028 || n == 0x2029 || n == 0x202F
    || n == 0x205F || n == 0x3000
  }

  /** The 25 characters with the property White_Space. */
  lemma SpacesAre(c: char)
    ensures IsSpace(c) <==>
            c as int in {0x9, 0xA, 0xB, 0xC, 0xD, 0x20, 0x85, 0xA0, 0x1680, 0x2000, 0x2001, 0x2002, 0x2003, 0x2004, 0x2005,
                         0x2006, 0x2007, 0x2008, 0x2009, 0x200A, 0x2028, 0x2029, 0x202F, 0x205F, 0x3000}
  {
  }

  function Utf8Len(c: char): (n: nat)
    ensures 1 <= n <= 4
  {
    var n := c as int;
    if n < 0x80 then 1 else if n < 0x800 then 2 else if n < 0x10000 then 3 else 4
  }

  /** len(s). */
  function ByteLen(s: string): (n: nat)
    ensures |s| <= n <= 4 * |s|
  {
    if s == "" then 0 else Utf8Len(s[0]) + ByteLen(s[1..])
  }

  lemma {:induction false} ByteLenConcat(a: string, b: string)
    ensures ByteLen(a + b) == ByteLen(a) + ByteLen(b)
  {
    if a == "" {
      assert a + b == b;
    } else {
      ByteLenConcat(a[1..], b);
      assert (a + b)[1..] == a[1..] + b;
    }
  }

  /** strings.Contains: `sub` occurs in `s` at some position. */
  predicate Contains(s: string, sub: string) {
    exists i :: 0 <= i <= |s| && sub <= s[i..]
  }

  /** Length of the leading run of non-space characters. */
  function WordLen(s: string): (n: nat)
    ensures n <= |s|
    ensures forall i :: 0 <= i < n ==> !IsSpace(s[i])
    ensures n < |s| ==> IsSpace(s[n])
  {
    if s == "" || IsSpace(s[0]) then 0 else 1 + WordLen(s[1..])
  }

  /** strings.Fields. */
  function Fields(s: string): (fs: seq<string>)
    ensures forall f :: f in fs ==> f != "" && forall c :: c in f ==> c in s && !IsSpace(c)
    decreases |s|
  {
    if s == "" then []
    else if IsSpace(s[0]) then Fields(s[1..])
    else var n := WordLen(s); [s[..n]] + Fields(s[n..])
  }

  /** No white space. */
  predicate Solid(w: string) {
    forall i :: 0 <= i < |w| ==> !IsSpace(w[i])
  }

  lemma SolidField(t: string)
    requires Solid(t) && t != ""
    ensures Fields(t) == [t]
  {
    var n := WordLen(t);
    assert n == |t| && t[..n] == t && t[n..] == "";
  }

  /** White space separates the fields on its two sides. */
  lemma {:induction false} FieldsSplit(a: string, c: char, b: string)
    requires IsSpace(c)
    ensures Fields(a + [c] + b) == Fields(a) + Fields(b)
    decreases |a|
  {
    hide IsSpace;
    var t := a + [c] + b;
    if a == "" {
      assert t == [c] + b && t[1..] == b;
    } else if IsSpace(a[0]) {
      FieldsSplit(a[1..], c, b);
      assert t[1..] == a[1..] + [c] + b;
    } else {
      var n := WordLen(a);
      FieldsSplit(a[n..], c, b);
      WordLenConcat(a, c, b);
      assert t[..n] == a[..n] && t[n..] == a[n..] + [c] + b;
    }
  }

  lemma {:induction false} WordLenConcat(a: string, c: char, b: string)
    requires IsSpace(c)
    ensures WordLen(a + [c] + b) == WordLen(a)
  {
    hide IsSpace;
    var t := a + [c] + b;
    if a == "" {
      assert t[0] == c;
    } else {
      assert t[0] == a[0] && t[1..] == a[1..] + [c] + b;
      WordLenConcat(a[1..], c, b);
    }
  }

  /** The first field of a text that starts with it. */
  lemma FirstField(w: string, rest: string)
    requires Solid(w) && w != "" && (rest == "" || IsSpace(rest[0]))
    ensures Fields(w + rest) != [] && Fields(w + rest)[0] == w
  {
    hide IsSpace, Solid;
    SolidField(w);
    if rest == "" {
      assert w + rest == w;
    } else {
      assert rest == [rest[0]] + rest[1..];
      assert w + rest == w + [rest[0]] + rest[1..];
      FieldsSplit(w, rest[0], rest[1..]);
    }
  }

  /** w starts the text and white space, or the end, follows. */
  predicate StandsFirst(t: string, w: string) {
    w <= t && (|t| == |w| || IsSpace(t[|w|]))
  }

  /** The number of places where w stands by itself, between white space or the
      ends; `free` tells that nothing or white space is in front of the text. */
  function Standing(free: bool, t: string, w: string): nat
    decreases |t|
  {
    if t == "" then 0
    else (if free && StandsFirst(t, w) then 1 else 0) + Standing(IsSpace(t[0]), t[1..], w)
  }

  /** Inside a word nothing stands. */
  lemma {:induction false} StandingWord(t: string, w: string)
    ensures Standing(false, t, w) == Standing(false, t[WordLen(t)..], w)
  {
    hide IsSpace;
    if t == "" || IsSpace(t[0]) {
      assert t[0..] == t;
    } else {
      StandingWord(t[1..], w);
      assert t[1..][WordLen(t[1..])..] == t[WordLen(t)..];
    }
  }

  lemma StandingSpace(t: string, w: string)
    requires w != "" && Solid(w) && (t == "" || IsSpace(t[0]))
    ensures Standing(true, t, w) == Standing(false, t, w)
  {
    hide IsSpace;
    if t != "" {
      NotFirst(t, w);
    }
  }

  lemma NotFirst(t: string, w: string)
    requires w != "" && Solid(w) && t != "" && IsSpace(t[0])
    ensures !StandsFirst(t, w)
  {
    hide IsSpace;
    assert !IsSpace(w[0]);
  }

  lemma StandsIsWord(t: string, w: string)
    requires t != "" && !IsSpace(t[0]) && w != "" && Solid(w)
    ensures StandsFirst(t, w) <==> t[..WordLen(t)] == w
  {
    hide IsSpace;
    var n := WordLen(t);
    if StandsFirst(t, w) {
      assert t[..|w|] == w;
      assert |w| <= n by { assert forall i :: 0 <= i < |w| ==> t[i] == w[i]; }
    }
  }

  /** Fields lists every word as often as it stands in the text. */
  lemma {:induction false} FieldsStanding(t: string, w: string)
    requires w != "" && Solid(w)
    ensures multiset(Fields(t))[w] == Standing(true, t, w)
    decreases |t|
  {
    hide IsSpace, Solid, StandsFirst;
    if t == "" {
      assert Fields(t) == [];
    } else if IsSpace(t[0]) {
      FieldsStanding(t[1..], w);
      StandingSpace(t, w);
    } else {
      var n := WordLen(t);
      var rest := t[n..];
      FieldsStanding(rest, w);
      StandingSpace(rest, w);
      StandsIsWord(t, w);
      StandingWord(t[1..], w);
      assert t[1..][WordLen(t[1..])..] == rest;
      assert multiset([t[..n]] + Fields(rest))[w] == multiset([t[..n]])[w] + multiset(Fields(rest))[w];
    }
  }

  function TrimLeft(s: string): (r: string)
    ensures |r| <= |s| && r == s[|s| - |r|..]
    ensures r != "" ==> !IsSpace(r[0])
    ensures forall i :: 0 <= i < |s| - |r| ==> IsSpace(s[i])
  {
    if s == "" || !IsSpace(s[0]) then s else TrimLeft(s[1..])
  }

  function TrimRight(s: string): (r: string)
    ensures |r| <= |s| && r == s[..|r|]
    ensures r != "" ==> !IsSpace(r[|r| - 1])
    ensures forall i :: |r| <= i < |s| ==> IsSpace(s[i])
  {
    if s == "" || !IsSpace(s[|s| - 1]) then s else TrimRight(s[..|s| - 1])
  }

  /** strings.TrimSpace. */
  function TrimSpace(s: string): (r: string)
    ensures Trimmed(r)
  {
    TrimRight(TrimLeft(s))
  }

  /** No white space at either end. */
  predicate Trimmed(s: string) {
    s != "" ==> !IsSpace(s[0]) && !IsSpace(s[|s| - 1])
  }

  lemma TrimSpaceOfTrimmed(s: string)
    requires Trimmed(s)
    ensures TrimSpace(s) == s
  {
  }

  /** A prefix of a concatenation ends in the first part or covers it. */
  lemma PrefixOfConcat(p: string, a: string, b: string)
    ensures p <= a + b <==> if |p| <= |a| then p <= a else a <= p && p[|a|..] <= b
  {
    if |p| <= |a| {
      assert (a + b)[..|p|] == a[..|p|];
    } else if a <= p {
      assert p == a + p[|a|..];
    }
  }

  lemma TrimLeftExact(s: string, a: nat)
    requires a < |s| && !IsSpace(s[a]) && forall i :: 0 <= i < a ==> IsSpace(s[i])
    ensures TrimLeft(s) == s[a..]
  {
    hide IsSpace, TrimLeft;
    var l := TrimLeft(s);
    assert l != "" ==> l[0] == s[|s| - |l|];
  }

  lemma TrimRightExact(s: string, b: nat)
    requires 0 < b <= |s| && !IsSpace(s[b - 1]) && forall i :: b <= i < |s| ==> IsSpace(s[i])
    ensures TrimRight(s) == s[..b]
  {
    hide IsSpace, TrimRight;
    var r := TrimRight(s);
    assert r != "" ==> r[|r| - 1] == s[|r| - 1];
  }

  /** Trimming finds the ends of the trimmed text inside its padding. */
  lemma TrimSpaceExact(s: string, a: nat, b: nat)
    requires a < b <= |s| && !IsSpace(s[a]) && !IsSpace(s[b - 1])
    requires forall i :: 0 <= i < a || b <= i < |s| ==> IsSpace(s[i])
    ensures TrimSpace(s) == s[a..b]
  {
    hide IsSpace, TrimLeft, TrimRight;
    TrimLeftExact(s, a);
    SpacesBehind(s, a, b);
    TrimRightExact(s[a..], b - a);
    assert s[a..][..b - a] == s[a..b];
  }

  lemma SpacesBehind(s: string, a: nat, b: nat)
    requires a < b <= |s| && forall i :: b <= i < |s| ==> IsSpace(s[i])
    ensures forall i :: b - a <= i < |s[a..]| ==> IsSpace(s[a..][i])
    ensures s[a..][b - a - 1] == s[b - 1]
  {
    hide IsSpace;
    forall i | b - a <= i < |s[a..]| ensures IsSpace(s[a..][i]) {
      assert s[a..][i] == s[a + i];
    }
  }

  /** The position of the first ch, or |s|. */
  function IndexOf(s: string, ch: char): (i: nat)
    ensures i <= |s| && ch !in s[..i]
    ensures i < |s| ==> s[i] == ch
  {
    if s == "" || s[0] == ch then 0 else 1 + IndexOf(s[1..], ch)
  }

  /** strings.Split(text, "\n"). */
  function Split(text: string): (lines: seq<string>)
    ensures lines != []
    ensures forall i :: 0 <= i < |lines| ==> '\n' !in lines[i]
    decreases |text|
  {
    var i := IndexOf(text, '\n');
    if i == |text| then assert text[..i] == text; [text] else [text[..i]] + Split(text[i + 1..])
  }

  lemma {:induction false} IndexOfFirst(s: string, ch: char, k: nat)
    requires k < |s| && s[k] == ch && ch !in s[..k]
    ensures IndexOf(s, ch) == k
  {
    if k > 0 {
      assert s[0] in s[..k];
      assert s[1..][..k - 1] == s[1..k];
      IndexOfFirst(s[1..], ch, k - 1);
    }
  }

  lemma SplitLine(line: string, rest: string)
    requires '\n' !in line
    ensures Split(line + "\n" + rest) == [line] + Split(rest)
  {
    var text := line + "\n" + rest;
    assert text[..|line|] == line;
    IndexOfFirst(text, '\n', |line|);
    assert text[|line| + 1..] == rest;
  }

  /** strings.Join(lines, "\n"). */
  function Join(lines: seq<string>): string {
    if lines == [] then "" else if |lines| == 1 then lines[0] else lines[0] + "\n" + Join(lines[1..])
  }

  lemma JoinOne(line: string)
    ensures Join([line]) == line
  {
  }

  lemma JoinFirst(line: string, rest: seq<string>)
    requires rest != []
    ensures Join([line] + rest) == line + "\n" + Join(rest)
  {
    assert ([line] + rest)[1..] == rest;
  }

  /** Joining the lines of a text gives it back. */
  lemma {:induction false} JoinSplit(text: string)
    ensures Join(Split(text)) == text
    decreases |text|
  {
    hide IndexOf, Join;
    var i := IndexOf(text, '\n');
    if i == |text| {
      JoinOne(text);
    } else {
      var rest := Split(text[i + 1..]);
      JoinSplit(text[i + 1..]);
      JoinFirst(text[..i], rest);
      assert text == text[..i] + "\n" + text[i + 1..];
    }
  }

  /** Splitting joined lines gives them back. */
  lemma {:induction false} SplitJoin(lines: seq<string>)
    requires lines != [] && forall i :: 0 <= i < |lines| ==> '\n' !in lines[i]
    ensures Split(Join(lines)) == lines
  {
    hide IndexOf, Split;
    if |lines| == 1 {
      OneLine(lines[0]);
    } else {
      SplitJoin(lines[1..]);
      SplitLine(lines[0], Join(lines[1..]));
      assert lines == [lines[0]] + lines[1..];
    }
  }

  lemma OneLine(line: string)
    requires '\n' !in line
    ensures Split(line) == [line]
  {
    assert IndexOf(line, '\n') == |line|;
    assert line[..|line|] == line;
  }

  // ---- UTF-8 -----------------------------------------------------------------------------------

  /** The bytes of a character in UTF-8. */
  function Utf8(c: char): (bytes: seq<int>)
    ensures forall i :: 0 <= i < |bytes| ==> 0 <= bytes[i] < 256
  {
    var n := c as int;
    var m := n / 64;
    var l := m / 64;
    if n < 0x80 then [n]
    else if n < 0x800 then [0xC0 + m, 0x80 + n % 64]
    else if n < 0x1_0000 then [0xE0 + l, 0x80 + m % 64, 0x80 + n % 64]
    else [0xF0 + l / 64, 0x80 + l % 64, 0x80 + m % 64, 0x80 + n % 64]
  }

  /** The number in the payload bits of the bytes. */
  function Payload(bytes: seq<int>): int {
    if |bytes| == 1 then bytes[0]
    else if |bytes| == 2 then 64 * (bytes[0] - 0xC0) + (bytes[1] - 0x80)
    else if |bytes| == 3 then 64 * (64 * (bytes[0] - 0xE0) + (bytes[1] - 0x80)) + (bytes[2] - 0x80)
    else if |bytes| == 4 then
      64 * (64 * (64 * (bytes[0] - 0xF0) + (bytes[1] - 0x80)) + (bytes[2] - 0x80)) + (bytes[3] - 0x80)
    else -1
  }

  /** A character counts for the bytes that encode it. */
  lemma Utf8Length(c: char)
    ensures |Utf8(c)| == Utf8Len(c) && Payload(Utf8(c)) == c as int
  {
  }
}
