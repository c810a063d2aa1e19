/** Parsing what the builder wrote: which definitions come back, exactly. */
module DslRoundTrip {
  import opened Collections
  import opened Text
  import opened BenchmarkDsl

  // ---- Which definitions can be written -------------------------------------------

  /** A key that Build writes in a way the parser reads as a property. */
  predicate KeySyntax(key: string) {
    PropertyKey(key) && !Directive(key + " ")
  }

  /** A key that a property line can have. */
  predicate PropertyKey(key: string) {
    Trimmed(key) && '=' !in key && (key == "" || key[0] != '#') && !("validate {" <= key)
  }

  predicate KeyOk(key: string) {
    KeySyntax(key) && '\n' !in key && key !in RESERVED
  }

  predicate ValueOk(v: Value) {
    v.StrV? ==> QuoteFree(v.s) && '\n' !in v.s
  }

  ghost predicate Printable(def: Definition) {
    && OneToken(def.name)
    && Trimmed(def.typ) && '\n' !in def.typ
    && QuoteFree(def.description) && '\n' !in def.description
    && forall k :: k in def.parameters ==> KeyOk(k) && ValueOk(def.parameters[k])
  }

  /** A value as it comes back: only a float can change, into an int or another
      float, when its printed form reads as one. */
  function Reread(c: Codec, v: Value): Value {
    if v.FloatV? then ReadValue(c, c.formatFloat(v.f)) else v
  }

  /** A printable definition as it comes back. */
  ghost function ReadBack(c: Codec, def: Definition): Definition {
    def.(parameters := map k | k in def.parameters :: Reread(c, def.parameters[k]),
         setup := "", teardown := "", validators := [])
  }

  // ---- Single values ----------------------------------------------------------------

  lemma {:induction false} DigitsTrimmed(n: nat)
    requires n > 0
    ensures forall ch :: ch in Digits(n) ==> IsDigit(ch)
  {
    hide AllDigits, DigitsValue;
    var m, d := n / 10, n % 10;
    LastDigit(d);
    if m > 0 {
      DigitsTrimmed(m);
    }
    assert Digits(n) == Digits(m) + ['0' + d as char];
  }

  lemma LastDigit(d: nat)
    requires d < 10
    ensures IsDigit('0' + d as char)
  {
  }

  lemma AtoiOfItoa(n: Int64)
    ensures Atoi(Itoa(n)) == Some(n)
    ensures OneToken(Itoa(n)) && Itoa(n)[0] != '"'
  {
    if n == 0 {
      ZeroReadsBack();
    } else {
      var m: int := n;
      m := if m < 0 then -m else m;
      DigitsTrimmed(m);
      AtoiOfDigits(Digits(m), n < 0, n);
    }
  }

  lemma AtoiOfDigits(ds: string, negative: bool, n: Int64)
    requires ds != "" && AllDigits(ds) && forall ch :: ch in ds ==> IsDigit(ch)
    requires n == if negative then 0 - DigitsValue(ds) else DigitsValue(ds)
    ensures var s := if negative then "-" + ds else ds;
            Atoi(s) == Some(n) && OneToken(s) && s[0] != '"'
  {
    hide AllDigits, DigitsValue;
    assert ds[0] in ds && ds[|ds| - 1] in ds;
    assert ("-" + ds)[1..] == ds;
  }

  lemma ZeroReadsBack()
    ensures Atoi("0") == Some(0) && OneToken("0")
  {
    assert "0"[..0] == "" && AllDigits("0") && DigitsValue("0") == 0;
  }

  lemma TrimQuotesOfQuoted(s: string)
    requires QuoteFree(s)
    ensures TrimQuotes("\"" + s + "\"") == s
  {
    var q := "\"" + s + "\"";
    assert q[1..] == s + "\"";
    var r := s + "\"";
    if s == "" {
      assert r[1..] == "" && TrimQuotes(r) == TrimQuotes("");
    } else {
      assert r[0] == s[0] && r[..|r| - 1] == s;
      assert TrimQuotes(s) == s;
    }
  }

  lemma ValueReadsBack(c: Codec, v: Value)
    requires Sound(c) && ValueOk(v)
    ensures ReadValue(c, PrintValue(c, v)) == Reread(c, v)
    ensures OneToken(PrintValue(c, v))
  {
    match v
    case IntV(n) =>
      hide Itoa, Atoi;
      AtoiOfItoa(n);
    case FloatV(f) =>
      hide ReadValue;
    case BoolV(b) =>
      BoolReadsBack(c, b);
    case StrV(s) =>
      hide ReadValue, OneToken;
      QuotedReadsBack(c, s);
  }

  lemma BoolReadsBack(c: Codec, b: bool)
    requires Sound(c)
    ensures var s := if b then "true" else "false"; ReadValue(c, s) == BoolV(b) && OneToken(s)
  {
    assert Atoi("true") == None && Atoi("false") == None;
  }

  lemma QuotedReadsBack(c: Codec, s: string)
    requires Sound(c) && QuoteFree(s) && '\n' !in s
    ensures ReadValue(c, "\"" + s + "\"") == StrV(s)
    ensures OneToken("\"" + s + "\"")
  {
    hide Atoi, TrimQuotes;
    var q := "\"" + s + "\"";
    assert q == "\"" + (s + "\"");
    assert c.parseFloat(q) == None;
    NotDigits(q);
    TrimQuotesOfQuoted(s);
    assert q[0] == '"';
  }

  lemma NotDigits(s: string)
    requires s != "" && s[0] == '"'
    ensures Atoi(s) == None
  {
    if AllDigits(s) {
      AllDigitsFirst(s);
    }
  }

  lemma {:induction false} AllDigitsFirst(s: string)
    requires s != "" && AllDigits(s)
    ensures IsDigit(s[0])
  {
    if |s| > 1 {
      AllDigitsFirst(s[..|s| - 1]);
    }
  }

  // ---- Single lines -----------------------------------------------------------------

  /** A property line without its indentation. */
  function Body(key: string, value: string): string {
    (if key == "" then "" else key + " ") + "= " + value
  }

  lemma BodyOfLine(key: string, value: string)
    requires Trimmed(key) && value != "" && Trimmed(value)
    ensures TrimSpace(PropertyLine(key, value)) == Body(key, value)
  {
    hide TrimSpace;
    var line := PropertyLine(key, value);
    var a := if key == "" then 3 else 2;
    assert line == "  " + key + " = " + value;
    assert line[|line| - 1] == value[|value| - 1];
    assert key != "" ==> line[2] == key[0];
    TrimSpaceExact(line, a, |line|);
    assert line[a..|line|] == Body(key, value);
  }

  lemma BodyKeyValue(key: string, value: string)
    requires Trimmed(key) && '=' !in key && value != "" && Trimmed(value)
    ensures var line := Body(key, value); var i := IndexOf(line, '=');
            i < |line| && TrimSpace(line[..i]) == key && TrimSpace(line[i + 1..]) == value
  {
    hide TrimSpace, Trimmed, Body, IndexOf;
    var line := Body(key, value);
    var k := EqualsAt(key, value);
    IndexOfFirst(line, '=', k);
    TrimPadding(key, value);
  }

  lemma EqualsAt(key: string, value: string) returns (k: nat)
    requires '=' !in key
    ensures var line := Body(key, value);
            && k < |line| && line[k] == '=' && '=' !in line[..k]
            && line[..k] == (if key == "" then "" else key + " ") && line[k + 1..] == " " + value
  {
    k := if key == "" then 0 else |key| + 1;
    var line := Body(key, value);
    assert line[..k] == if key == "" then "" else key + " ";
    assert line[k + 1..] == " " + value;
  }

  lemma TrimPadding(key: string, value: string)
    requires Trimmed(key) && value != "" && Trimmed(value)
    ensures TrimSpace(" " + value) == value
    ensures TrimSpace(if key == "" then "" else key + " ") == key
  {
    TrimSpaceExact(" " + value, 1, |value| + 1);
    if key != "" {
      TrimSpaceExact(key + " ", 0, |key|);
    }
  }

  lemma BodyDirective(key: string, value: string)
    ensures Directive(Body(key, value)) <==> Directive(key + " ")
  {
    var p := "benchmark ";
    if key != "" {
      PrefixOfConcat(p, key + " ", "= " + value);
      assert Body(key, value) == (key + " ") + ("= " + value);
      assert forall i :: 0 <= i < 10 && p[i] == ' ' ==> i == 9;
      assert |key| < 9 ==> (key + " ")[|key|] == ' ';
    } else {
      assert Body(key, value)[0] == '=' && (key + " ")[0] == ' ';
    }
  }

  lemma BodyOther(key: string, value: string)
    requires '=' !in key && (key == "" || key[0] != '#') && !("validate {" <= key)
    ensures var line := Body(key, value); !Ignored(line) && line != "}" && !("validate {" <= line)
  {
    var line, p, rest := Body(key, value), "validate {", " = " + value;
    if key != "" {
      assert line == key + rest && line[0] == key[0];
      PrefixOfConcat(p, key, rest);
      assert forall i :: 0 <= i < 10 && p[i] == ' ' ==> i == 8;
      assert rest[0] == ' ' && rest[1] == '=';
    }
  }

  /** The parser assigns the key and the value of a well-written property line. */
  lemma StepProperty(c: Codec, st: State, key: string, value: string, def: Definition)
    requires KeySyntax(key) && value != "" && Trimmed(value)
    requires st.current.Some? && Assign(c, st.current.value, key, value) == Ok(def)
    ensures Step(c, st, PropertyLine(key, value)) == Ok(State(st.done, Some(def)))
  {
    hide TrimSpace, Trimmed, PropertyLine, Assign, Body;
    BodyOfLine(key, value);
    BodyKeyValue(key, value);
    BodyDirective(key, value);
    BodyOther(key, value);
  }

  lemma StepHeader(c: Codec, st: State, name: string)
    requires OneToken(name)
    ensures TrimSpace("benchmark " + name) == "benchmark " + name
    ensures Step(c, st, "benchmark " + name) == Ok(State(st.Flush(), Some(New(name))))
  {
    hide TrimSpace, ParseProperty, Directive, Ignored, Trimmed, OneToken;
    HeaderLine(name, "benchmark " + name);
    TrimSpaceOfTrimmed("benchmark " + name);
    TrimPadding("", name);
  }

  lemma HeaderLine(name: string, line: string)
    requires OneToken(name) && line == "benchmark " + name
    ensures Directive(line) && !Ignored(line) && Trimmed(line) && |line| >= 9 && line[9..] == " " + name
    ensures Trimmed(name) && Trimmed("") && name != ""
  {
    hide IsSpace;
    var word := "benchmark ";
    assert word[..9] == "benchmark" && word[9..] == " ";
    assert line[..10] == word && line[|line| - 1] == name[|name| - 1];
    assert line[0] == 'b';
    NoSpace();
  }

  lemma NoSpace()
    ensures !IsSpace('b')
  {
  }

  lemma {:induction false} FeedConcat(c: Codec, st: State, a: seq<string>, b: seq<string>, n: nat)
    requires Feed(c, st, a, n).Parsed?
    ensures Feed(c, st, a + b, n) == Feed(c, Feed(c, st, a, n).st, b, n + |a|)
    decreases |a|
  {
    hide Step;
    if a == [] {
      assert a + b == b;
    } else {
      assert (a + b)[0] == a[0] && (a + b)[1..] == a[1..] + b;
      FeedConcat(c, Step(c, st, a[0]).value, a[1..], b, n + 1);
    }
  }

  /** Feeding one more line. */
  lemma FeedSnoc(c: Codec, st: State, a: seq<string>, line: string, n: nat, st2: State)
    requires Feed(c, st, a, n).Parsed? && Step(c, Feed(c, st, a, n).st, line) == Ok(st2)
    ensures Feed(c, st, a + [line], n) == Parsed(st2)
  {
    hide Step;
    FeedConcat(c, st, a, [line], n);
    assert [line][1..] == [];
  }

  lemma FeedOptional(c: Codec, st: State, a: seq<string>, n: nat, wanted: bool, key: string, value: string, def: Definition)
    requires Feed(c, st, a, n).Parsed? && Feed(c, st, a, n).st.current.Some?
    requires KeySyntax(key) && (wanted ==> value != "" && Trimmed(value))
    requires wanted ==> Assign(c, Feed(c, st, a, n).st.current.value, key, value) == Ok(def)
    requires !wanted ==> Feed(c, st, a, n).st.current.value == def
    ensures Feed(c, st, a + Optional(wanted, key, value), n) == Parsed(State(Feed(c, st, a, n).st.done, Some(def)))
  {
    hide Step, Feed, Assign, KeySyntax, Trimmed, PropertyLine;
    if wanted {
      StepProperty(c, Feed(c, st, a, n).st, key, value, def);
      FeedSnoc(c, st, a, PropertyLine(key, value), n, State(Feed(c, st, a, n).st.done, Some(def)));
    } else {
      assert a + [] == a;
    }
  }

  // ---- Whole definitions ---------------------------------------------------------------

  ghost function Header(def: Definition): Definition {
    New(def.name).(typ := def.typ, description := def.description, iterations := def.iterations,
                   duration := def.duration, warmup := def.warmup)
  }

  lemma FieldsReadBack(c: Codec, def: Definition, cur: Definition)
    requires Sound(c) && Printable(def)
    ensures Assign(c, cur, "type", def.typ) == Ok(cur.(typ := def.typ))
    ensures Assign(c, cur, "description", "\"" + def.description + "\"") == Ok(cur.(description := def.description))
    ensures Assign(c, cur, "iterations", Itoa(def.iterations)) == Ok(cur.(iterations := def.iterations))
    ensures Assign(c, cur, "duration", c.formatDuration(def.duration)) == Ok(cur.(duration := def.duration))
    ensures Assign(c, cur, "warmup", Itoa(def.warmup)) == Ok(cur.(warmup := def.warmup))
  {
    hide Atoi, Itoa, TrimQuotes;
    TrimQuotesOfQuoted(def.description);
    AtoiOfItoa(def.iterations);
    AtoiOfItoa(def.warmup);
  }

  lemma ReservedSyntax(key: string)
    requires key in {"type", "description", "iterations", "duration", "warmup"}
    ensures KeySyntax(key)
  {
    assert (key + " ")[0] == key[0] && "benchmark "[0] == 'b' && "validate {"[0] == 'v';
  }

  lemma FeedName(c: Codec, st: State, def: Definition, n: nat)
    requires Printable(def)
    ensures Feed(c, st, ["benchmark " + def.name], n) == Parsed(State(st.Flush(), Some(New(def.name))))
  {
    hide Step;
    StepHeader(c, st, def.name);
    FeedOne(c, st, "benchmark " + def.name, n, State(st.Flush(), Some(New(def.name))));
  }

  lemma FeedOne(c: Codec, st: State, line: string, n: nat, st2: State)
    requires Step(c, st, line) == Ok(st2)
    ensures Feed(c, st, [line], n) == Parsed(st2)
  {
    hide Step;
    assert [line][1..] == [];
  }

  lemma FeedHeader(c: Codec, st: State, def: Definition, n: nat)
    requires Sound(c) && Printable(def)
    ensures Feed(c, st, HeaderLines(c, def), n) == Parsed(State(st.Flush(), Some(Header(def))))
  {
    hide Step, Assign, KeySyntax, Trimmed, Optional, Feed, Sound, Printable, Itoa;
    var d0 := New(def.name);
    var a0 := ["benchmark " + def.name];
    FeedName(c, st, def, n);
    ReservedSyntax("type");
    ReservedSyntax("description");
    ReservedSyntax("iterations");
    ReservedSyntax("duration");
    ReservedSyntax("warmup");
    TokensOfHeader(c, def);
    var d1 := d0.(typ := def.typ);
    FieldsReadBack(c, def, d0);
    FeedOptional(c, st, a0, n, def.typ != "", "type", def.typ, d1);
    var a1 := a0 + Optional(def.typ != "", "type", def.typ);
    var d2 := d1.(description := def.description);
    FieldsReadBack(c, def, d1);
    FeedOptional(c, st, a1, n, def.description != "", "description", "\"" + def.description + "\"", d2);
    var a2 := a1 + Optional(def.description != "", "description", "\"" + def.description + "\"");
    var d3 := d2.(iterations := def.iterations);
    FieldsReadBack(c, def, d2);
    FeedOptional(c, st, a2, n, def.iterations != DEFAULT_ITERATIONS, "iterations", Itoa(def.iterations), d3);
    var a3 := a2 + Optional(def.iterations != DEFAULT_ITERATIONS, "iterations", Itoa(def.iterations));
    var d4 := d3.(duration := def.duration);
    FieldsReadBack(c, def, d3);
    FeedOptional(c, st, a3, n, def.duration != DEFAULT_DURATION, "duration", c.formatDuration(def.duration), d4);
    var a4 := a3 + Optional(def.duration != DEFAULT_DURATION, "duration", c.formatDuration(def.duration));
    FieldsReadBack(c, def, d4);
    FeedOptional(c, st, a4, n, def.warmup != DEFAULT_WARMUP, "warmup", Itoa(def.warmup), Header(def));
  }

  lemma TokensOfHeader(c: Codec, def: Definition)
    requires Sound(c) && Printable(def)
    ensures Trimmed(def.typ)
    ensures "\"" + def.description + "\"" != "" && Trimmed("\"" + def.description + "\"")
    ensures Itoa(def.iterations) != "" && Trimmed(Itoa(def.iterations))
    ensures c.formatDuration(def.duration) != "" && Trimmed(c.formatDuration(def.duration))
    ensures Itoa(def.warmup) != "" && Trimmed(Itoa(def.warmup))
  {
    hide Trimmed, KeyOk, ValueOk, Itoa, Atoi;
    AtoiOfItoa(def.iterations);
    AtoiOfItoa(def.warmup);
    QuotedTrimmed(def.description);
  }

  lemma QuotedTrimmed(s: string)
    ensures Trimmed("\"" + s + "\"")
  {
    var q := "\"" + s + "\"";
    assert q[0] == '"' && q[|q| - 1] == '"';
  }

  lemma {:induction false} FeedParameters(c: Codec, st: State, def: Definition, ps: map<string, Value>, order: seq<string>, n: nat)
    requires Sound(c) && st.current == Some(def) && def.parameters == map[]
    requires forall i :: 0 <= i < |order| ==> order[i] in ps
    requires forall k :: k in ps ==> KeyOk(k) && ValueOk(ps[k])
    ensures Feed(c, st, ParameterLines(c, ps, order), n) ==
            Parsed(State(st.done, Some(def.(parameters := Collected(c, ps, order)))))
  {
    hide Step, KeyOk, ValueOk, ReadValue, PrintValue, PropertyLine, Reread;
    if order != [] {
      var init, key := order[..|order| - 1], order[|order| - 1];
      var value := PrintValue(c, ps[key]);
      FeedParameters(c, st, def, ps, init, n);
      var mid := def.(parameters := Collected(c, ps, init));
      var next := def.(parameters := Collected(c, ps, order));
      ValueReadsBack(c, ps[key]);
      AssignParameter(c, mid, key, value);
      StepProperty(c, State(st.done, Some(mid)), key, value, next);
      FeedSnoc(c, st, ParameterLines(c, ps, init), PropertyLine(key, value), n, State(st.done, Some(next)));
    }
  }

  lemma AssignParameter(c: Codec, def: Definition, key: string, value: string)
    requires KeyOk(key)
    ensures Assign(c, def, key, value) == Ok(def.(parameters := def.parameters[key := ReadValue(c, value)]))
    ensures KeySyntax(key)
  {
    hide ReadValue, KeySyntax;
  }

  /** The parameters after reading the lines of the keys in `order`. */
  ghost function Collected(c: Codec, ps: map<string, Value>, order: seq<string>): map<string, Value>
    requires forall i :: 0 <= i < |order| ==> order[i] in ps
  {
    if order == [] then map[]
    else var key := order[|order| - 1]; Collected(c, ps, order[..|order| - 1])[key := Reread(c, ps[key])]
  }

  lemma {:induction false} CollectedAt(c: Codec, ps: map<string, Value>, order: seq<string>)
    requires forall i :: 0 <= i < |order| ==> order[i] in ps
    ensures forall k :: k in Collected(c, ps, order) <==> k in order
    ensures forall k :: k in order ==> Collected(c, ps, order)[k] == Reread(c, ps[k])
  {
    if order != [] {
      CollectedAt(c, ps, order[..|order| - 1]);
      assert order == order[..|order| - 1] + [order[|order| - 1]];
    }
  }

  lemma FeedDefinition(c: Codec, st: State, def: Definition, order: seq<string>, n: nat)
    requires Sound(c) && Printable(def) && IsOrder(order, def.parameters.Keys)
    ensures Feed(c, st, DefinitionLines(c, def, order), n) == Parsed(State(st.Flush(), Some(ReadBack(c, def))))
  {
    hide Step, HeaderLines, ParameterLines, KeyOk, ValueOk, Reread;
    var header, ps := HeaderLines(c, def), ParameterLines(c, def.parameters, order);
    var st1 := State(st.Flush(), Some(Header(def)));
    FeedHeader(c, st, def, n);
    FeedParameters(c, st1, Header(def), def.parameters, order, n + |header|);
    FeedConcat(c, st, header, ps, n);
    CollectedAt(c, def.parameters, order);
    assert Collected(c, def.parameters, order) == ReadBack(c, def).parameters;
    var st2 := State(st.Flush(), Some(ReadBack(c, def)));
    StepBlank(c, st2);
    FeedSnoc(c, st, header + ps, "", n, st2);
  }

  lemma StepBlank(c: Codec, st: State)
    ensures Step(c, st, "") == Ok(st)
  {
  }

  // ---- The whole text ---------------------------------------------------------------------

  ghost function ReadBackAll(c: Codec, defs: seq<Definition>): seq<Definition> {
    if defs == [] then [] else ReadBackAll(c, defs[..|defs| - 1]) + [ReadBack(c, defs[|defs| - 1])]
  }

  ghost predicate AllPrintable(defs: seq<Definition>) {
    defs == [] || (Printable(defs[|defs| - 1]) && AllPrintable(defs[..|defs| - 1]))
  }

  lemma {:induction false} FeedAll(c: Codec, defs: seq<Definition>, orders: seq<seq<string>>, n: nat) returns (st: State)
    requires Sound(c) && AllPrintable(defs) && Orders(defs, orders)
    ensures Feed(c, State([], None), AllLines(c, defs, orders), n) == Parsed(st)
    ensures st.Flush() == ReadBackAll(c, defs)
  {
    hide Step, DefinitionLines, Printable, ReadBack, IsOrder;
    if defs == [] {
      st := State([], None);
    } else {
      var m := |defs| - 1;
      var before := FeedAll(c, defs[..m], orders[..m], n);
      var lines := AllLines(c, defs[..m], orders[..m]);
      FeedDefinition(c, before, defs[m], orders[m], n + |lines|);
      FeedConcat(c, State([], None), lines, DefinitionLines(c, defs[m], orders[m]), n);
      st := State(before.Flush(), Some(ReadBack(c, defs[m])));
    }
  }

  predicate Flat(lines: seq<string>) {
    forall i :: 0 <= i < |lines| ==> '\n' !in lines[i]
  }

  lemma {:induction false} SplitUnlines(lines: seq<string>)
    requires Flat(lines)
    ensures Split(Unlines(lines)) == lines + [""]
  {
    hide IndexOf;
    if lines == [] {
      assert Split("") == [""];
    } else {
      var line, rest := lines[0], lines[1..];
      SplitUnlines(rest);
      assert lines == [line] + rest;
      UnlinesConcat([line], rest);
      assert [line][..0] == [] && Unlines([line]) == line + "\n";
      SplitLine(line, Unlines(rest));
    }
  }

  lemma PropertyFlat(key: string, value: string)
    requires '\n' !in key && '\n' !in value
    ensures '\n' !in PropertyLine(key, value)
  {
  }

  lemma OptionalFlat(a: seq<string>, wanted: bool, key: string, value: string)
    requires Flat(a) && (wanted ==> '\n' !in key && '\n' !in value)
    ensures Flat(a + Optional(wanted, key, value))
  {
    if wanted {
      PropertyFlat(key, value);
    }
  }

  /** There are such conversions: durations written as integers. */
  lemma SoundCodec() returns (c: Codec)
    ensures Sound(c)
  {
    hide Atoi, Itoa;
    c := Codec((s: string) => None, (f: Float64) => "0.5", Atoi, Itoa64);
    forall d: Int64 ensures c.parseDuration(c.formatDuration(d)) == Some(d) && OneToken(c.formatDuration(d)) {
      AtoiOfItoa(d);
    }
  }

  function Itoa64(n: Int64): string {
    Itoa(n)
  }
}
