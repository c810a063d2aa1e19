/** What every single line does to the parser of the benchmark DSL. */
module DslProperties {
  import opened Collections
  import opened Text
  import opened BenchmarkDsl
  import opened DslRoundTrip

  // ---- Values ---------------------------------------------------------------------------------

  /** TrimQuotes takes off the quotes at both ends, and nothing else. */
  lemma {:induction false} TrimQuotesExactly(s: string) returns (i: nat, j: nat)
    ensures i <= j <= |s| && TrimQuotes(s) == s[i..j] && QuoteFree(s[i..j])
    ensures forall k :: 0 <= k < i || j <= k < |s| ==> s[k] == '"'
    decreases |s|
  {
    if QuoteFree(s) {
      i, j := 0, |s|;
      assert s[i..j] == s;
    } else if s[0] == '"' {
      i, j := TrimQuotesExactly(s[1..]);
      i, j := i + 1, j + 1;
      assert s[1..][i - 1..j - 1] == s[i..j];
      assert forall k :: 1 <= k < |s| ==> s[k] == s[1..][k - 1];
    } else {
      i, j := TrimQuotesExactly(s[..|s| - 1]);
      assert s[..|s| - 1][i..j] == s[i..j];
    }
  }

  /** A sign in front of digits. */
  lemma AtoiSigned(d: string)
    requires d == "" || IsDigit(d[0])
    ensures Atoi("+" + d) == Atoi(d)
    ensures Atoi(d).Some? && Atoi(d).value > 0 ==> Atoi("-" + d) == Some(-Atoi(d).value)
  {
    assert ("+" + d)[1..] == d && ("-" + d)[1..] == d;
  }

  /** A leading zero. */
  lemma AtoiZero(d: string)
    requires d != "" && IsDigit(d[0])
    ensures Atoi("0" + d) == Atoi(d)
  {
    ZeroInFront(d);
  }

  lemma {:induction false} ZeroInFront(d: string)
    ensures AllDigits("0" + d) == AllDigits(d)
    ensures AllDigits(d) ==> DigitsValue("0" + d) == DigitsValue(d)
  {
    var z := "0" + d;
    if d == "" {
      assert z[..|z| - 1] == "";
    } else {
      ZeroInFront(d[..|d| - 1]);
      assert z[..|z| - 1] == "0" + d[..|d| - 1];
    }
  }

  /** Nothing else is an integer, and none beyond 64 bits is. */
  lemma AtoiOnlyIf(s: string)
    requires Atoi(s).Some?
    ensures s != "" && forall i :: 0 < i < |s| ==> IsDigit(s[i])
    ensures IsDigit(s[0]) || (|s| >= 2 && (s[0] == '-' || s[0] == '+'))
  {
    var signed := s[0] == '-' || s[0] == '+';
    var digits := if signed then s[1..] else s;
    DigitsAt(digits);
    assert forall i :: 0 < i < |s| ==> s[i] == if signed then digits[i - 1] else digits[i];
  }

  lemma {:induction false} DigitsAt(s: string)
    requires AllDigits(s)
    ensures forall i :: 0 <= i < |s| ==> IsDigit(s[i])
  {
    if s != "" {
      DigitsAt(s[..|s| - 1]);
    }
  }

  lemma ParseBoolExactly(s: string)
    ensures ParseBool(s) == Some(true) <==> s in {"1", "t", "T", "true", "TRUE", "True"}
    ensures ParseBool(s) == Some(false) <==> s in {"0", "f", "F", "false", "FALSE", "False"}
  {
  }

  /** An integer if it converts, or else a float, or else a truth value, or else the
      text without its outer quotes. */
  lemma ReadValueExactly(c: Codec, value: string)
    ensures var v := ReadValue(c, value);
            && (v.IntV? <==> Atoi(value).Some?) && (v.IntV? ==> Atoi(value) == Some(v.n))
            && (v.FloatV? ==> c.parseFloat(value) == Some(v.f))
            && (v.BoolV? ==> c.parseFloat(value) == None && ParseBool(value) == Some(v.b))
            && (v.StrV? <==> Atoi(value) == None && c.parseFloat(value) == None && ParseBool(value) == None)
            && (v.StrV? ==> v.s == TrimQuotes(value))
  {
    hide Atoi, ParseBool, TrimQuotes;
  }

  // ---- Fields -----------------------------------------------------------------------------------

  datatype Field = Words(text: string) | Number(n: int) | Parameter(v: Option<Value>)

  /** What a definition holds under a key.  Name, validators and these fields make
      up the definition. */
  ghost function FieldOf(def: Definition, key: string): Field {
    match key
    case "type" => Words(def.typ)
    case "description" => Words(def.description)
    case "setup" => Words(def.setup)
    case "teardown" => Words(def.teardown)
    case "iterations" => Number(def.iterations)
    case "duration" => Number(def.duration)
    case "warmup" => Number(def.warmup)
    case _ => Parameter(if key in def.parameters then Some(def.parameters[key]) else None)
  }

  /** What a value means under a key, if it converts. */
  ghost function Converted(c: Codec, key: string, value: string): Option<Field> {
    if key in {"iterations", "warmup"} then
      match Atoi(value) case Some(n) => Some(Number(n)) case None => None
    else if key == "duration" then
      match c.parseDuration(value) case Some(n) => Some(Number(n)) case None => None
    else if key in {"description", "setup", "teardown"} then Some(Words(TrimQuotes(value)))
    else if key == "type" then Some(Words(value))
    else Some(Parameter(Some(ReadValue(c, value))))
  }

  /** Exactly the named field changes. */
  ghost predicate Sets(before: Definition, after: Definition, key: string, field: Field) {
    && FieldOf(after, key) == field
    && (forall k :: k != key ==> FieldOf(after, k) == FieldOf(before, k))
    && after.name == before.name && after.validators == before.validators
  }

  lemma AssignSets(c: Codec, def: Definition, key: string, value: string)
    ensures match Converted(c, key, value)
            case Some(field) => Assign(c, def, key, value).Ok? && Sets(def, Assign(c, def, key, value).value, key, field)
            case None =>
              Assign(c, def, key, value) ==
              Err(if key == "iterations" then BadIterations else if key == "duration" then BadDuration else BadWarmup)
  {
    hide Atoi, ReadValue, TrimQuotes;
  }

  // ---- Lines ------------------------------------------------------------------------------------

  /** A property line sets exactly the field it names, to the value it gives, or is
      rejected if the value does not convert. */
  lemma PropertyExactly(c: Codec, st: State, raw: string, left: string, right: string, def: Definition)
    requires TrimSpace(raw) == left + "=" + right && '=' !in left && st.current == Some(def)
    requires !Ignored(TrimSpace(raw)) && !Directive(TrimSpace(raw)) && !("validate {" <= TrimSpace(raw))
    ensures var key, value := TrimSpace(left), TrimSpace(right);
            match Converted(c, key, value)
            case Some(field) =>
              (match Step(c, st, raw)
               case Ok(st2) => st2.done == st.done && st2.current.Some? && Sets(def, st2.current.value, key, field)
               case Err(_) => false)
            case None => Step(c, st, raw).Err? && key in {"iterations", "duration", "warmup"}
  {
    hide Atoi, ReadValue, TrimQuotes, TrimSpace, Sets, Directive, Ignored, IndexOf, Assign;
    var line := TrimSpace(raw);
    EqualsSplits(line, left, right);
    AssignSets(c, def, TrimSpace(left), TrimSpace(right));
  }

  lemma EqualsSplits(line: string, left: string, right: string)
    requires line == left + "=" + right && '=' !in left
    ensures var i := IndexOf(line, '='); i < |line| && line[..i] == left && line[i + 1..] == right && line != "}"
  {
    assert line[..|left|] == left && line[|left|] == '=' && line[|left| + 1..] == right;
    IndexOfFirst(line, '=', |left|);
  }

  /** Blank lines, comments and the lines of a validate block change nothing. */
  lemma IdleLines(c: Codec, st: State, raw: string)
    requires var line := TrimSpace(raw);
             line == "" || line[0] == '#' || (st.current.Some? && (line == "}" || "validate {" <= line))
    ensures Step(c, st, raw) == Ok(st)
  {
    hide TrimSpace;
    assert "validate {"[0] == 'v' && "benchmark "[0] == 'b';
  }

  /** A directive finishes the current benchmark and starts one with the defaults:
      100 iterations, 30 seconds, one warmup, nothing else. */
  lemma DirectiveExactly(c: Codec, st: State, raw: string, name: string)
    requires TrimSpace(raw) == "benchmark " + name
    ensures match Step(c, st, raw)
            case Ok(st2) =>
              && st2.done == st.done + (if st.current.Some? then [st.current.value] else [])
              && st2.current == Some(Definition(TrimSpace(name), "", "", 100, 30_000_000_000, 1, map[], "", "", []))
            case Err(_) => false
  {
    hide TrimSpace;
    var line := "benchmark " + name;
    assert line[0] == 'b' && line[..10] == "benchmark ";
    assert line[9..] == " " + name;
    BlankInFront(name);
  }

  lemma BlankInFront(s: string)
    ensures TrimSpace(" " + s) == TrimSpace(s)
  {
    assert (" " + s)[1..] == s;
  }

  /** Any other line needs a benchmark, and an equals sign. */
  lemma RejectedLines(c: Codec, st: State, raw: string)
    requires !Ignored(TrimSpace(raw)) && !Directive(TrimSpace(raw))
    ensures st.current == None ==> Step(c, st, raw) == Err(NoBenchmark)
    ensures var line := TrimSpace(raw);
            st.current.Some? && '=' !in line && line != "}" && !("validate {" <= line) ==>
              Step(c, st, raw) == Err(Property(BadFormat))
  {
    hide TrimSpace, Ignored, Directive;
    var line := TrimSpace(raw);
    assert IndexOf(line, '=') < |line| ==> '=' in line;
  }

  /** The first line that is rejected ends the parse, with its number and with what
      was read before it. */
  lemma FirstErrorReported(c: Codec, st: State, good: seq<string>, bad: string, rest: seq<string>, n: nat, e: ParseError)
    requires Feed(c, st, good, n).Parsed? && Step(c, Feed(c, st, good, n).st, bad) == Err(e)
    ensures Feed(c, st, good + ([bad] + rest), n) == Failed(Feed(c, st, good, n).st, n + |good|, e)
  {
    hide Step;
    FeedConcat(c, st, good, [bad] + rest, n);
    assert ([bad] + rest)[0] == bad;
  }

  /** And a parse fails only so. */
  lemma {:induction false} FailureHasLine(c: Codec, st: State, lines: seq<string>, n: nat) returns (i: nat)
    requires Feed(c, st, lines, n).Failed?
    ensures i < |lines| && Feed(c, st, lines[..i], n).Parsed? && Feed(c, st, lines, n).line == n + i
    ensures Step(c, Feed(c, st, lines[..i], n).st, lines[i]) == Err(Feed(c, st, lines, n).error)
    decreases |lines|
  {
    hide Step;
    match Step(c, st, lines[0])
    case Err(_) =>
      i := 0;
      assert lines[..0] == [];
    case Ok(st2) =>
      i := FailureHasLine(c, st2, lines[1..], n + 1);
      i := i + 1;
      assert lines[..i][1..] == lines[1..][..i - 1] && lines[..i][0] == lines[0];
  }

  /** The error of a whole parse names a line, counted from 1, that is rejected in the
      state its predecessors leave. */
  lemma ParseFailsAt(c: Codec, done: seq<Definition>, dsl: string) returns (i: nat)
    requires ParseText(c, done, dsl).Failed?
    ensures i < |Split(dsl)| && ParseText(c, done, dsl).line == i + 1
    ensures var before := Feed(c, State(done, None), Split(dsl)[..i], 1);
            before.Parsed? && Step(c, before.st, Split(dsl)[i]) == Err(ParseText(c, done, dsl).error)
  {
    hide Step, Split;
    i := FailureHasLine(c, State(done, None), Split(dsl), 1);
  }

  // ---- The built text ---------------------------------------------------------------------------

  /** How a definition is laid out. */
  lemma BuildExample(c: Codec)
    ensures var def := Definition("b", "cpu", "d", 5, 30_000_000_000, 2, map["k" := BoolV(true)], "", "", []);
            && IsOrder(["k"], def.parameters.Keys)
            && DefinitionLines(c, def, ["k"]) ==
               ["benchmark b", "  type = cpu", "  description = \"d\"", "  iterations = 5", "  warmup = 2", "  k = true", ""]
  {
    hide PropertyLine, Itoa;
    var def := Definition("b", "cpu", "d", 5, 30_000_000_000, 2, map["k" := BoolV(true)], "", "", []);
    OneDigit(5, "5");
    OneDigit(2, "2");
    LineTexts();
    ExampleHeader(c, def);
    assert ["k"][..0] == [];
    assert ParameterLines(c, def.parameters, ["k"]) == ["  k = true"];
  }

  lemma LineTexts()
    ensures PropertyLine("type", "cpu") == "  type = cpu"
    ensures PropertyLine("description", "\"" + "d" + "\"") == "  description = \"d\""
    ensures PropertyLine("iterations", "5") == "  iterations = 5" && PropertyLine("warmup", "2") == "  warmup = 2"
    ensures PropertyLine("k", "true") == "  k = true" && "benchmark " + "b" == "benchmark b"
  {
    hide PropertyLine;
    FirstTexts();
    LastTexts();
  }

  lemma FirstTexts()
    ensures PropertyLine("type", "cpu") == "  type = cpu"
    ensures PropertyLine("description", "\"" + "d" + "\"") == "  description = \"d\""
  {
  }

  lemma LastTexts()
    ensures PropertyLine("iterations", "5") == "  iterations = 5" && PropertyLine("warmup", "2") == "  warmup = 2"
    ensures PropertyLine("k", "true") == "  k = true"
  {
  }

  lemma ExampleHeader(c: Codec, def: Definition)
    requires def.name == "b" && def.typ == "cpu" && def.description == "d" && def.iterations == 5 && def.warmup == 2
    requires def.duration == 30_000_000_000 && Itoa(5) == "5" && Itoa(2) == "2"
    ensures HeaderLines(c, def) ==
            ["benchmark b", "  type = cpu", "  description = \"d\"", "  iterations = 5", "  warmup = 2"]
  {
    hide PropertyLine, Itoa;
    LineTexts();
  }

  lemma OneDigit(n: nat, s: string)
    requires 0 < n < 10 && s == ['0' + n as char]
    ensures Itoa(n) == s
  {
    assert Digits(0) == "" && n / 10 == 0;
  }

  /** Nothing is written for defaults and empty fields. */
  lemma BuildDefaults(c: Codec, name: string)
    ensures DefinitionLines(c, New(name), []) == ["benchmark " + name, ""]
  {
    assert HeaderLines(c, New(name)) == ["benchmark " + name];
    assert ParameterLines(c, map[], []) == [];
  }
}
