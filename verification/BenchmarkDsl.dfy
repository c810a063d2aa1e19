/** The benchmark DSL of internal/benchmarking/dsl.go: the parser and the builder. */
module BenchmarkDsl {
  import opened Collections
  import opened Text

  /** int and time.Duration (nanoseconds) are 64-bit. */
  type Int64 = n: int | -0x8000_0000_0000_0000 <= n < 0x8000_0000_0000_0000

  /** A float64, by its bits. */
  type Float64 = bv64

  datatype Value = IntV(n: Int64) | FloatV(f: Float64) | BoolV(b: bool) | StrV(s: string)

  datatype Validator = Validator(metric: string, operator: string, threshold: Float64, message: string)

  datatype Definition = Definition(
    name: string, typ: string, description: string,
    iterations: Int64, duration: Int64, warmup: Int64,
    parameters: map<string, Value>,
    setup: string, teardown: string, validators: seq<Validator>)

  const DEFAULT_ITERATIONS: Int64 := 100
  const DEFAULT_DURATION: Int64 := 30_000_000_000
  const DEFAULT_WARMUP: Int64 := 1

  function New(name: string): Definition {
    Definition(name, "", "", DEFAULT_ITERATIONS, DEFAULT_DURATION, DEFAULT_WARMUP, map[], "", "", [])
  }

  /** The library conversions the DSL relies on: strconv.ParseFloat, %v of a
      float64, time.ParseDuration and Duration.String. */
  datatype Codec = Codec(
    parseFloat: string -> Option<Float64>, formatFloat: Float64 -> string,
    parseDuration: string -> Option<Int64>, formatDuration: Int64 -> string)

  predicate OneToken(s: string) {
    s != "" && Trimmed(s) && '\n' !in s
  }

  /** What the DSL needs of them: printed values are single tokens, durations read
      back, and ParseFloat accepts neither quoted text nor the booleans. */
  ghost predicate Sound(c: Codec) {
    && (forall d: Int64 :: c.parseDuration(c.formatDuration(d)) == Some(d) && OneToken(c.formatDuration(d)))
    && (forall f :: OneToken(c.formatFloat(f)))
    && (forall s :: c.parseFloat("\"" + s) == None)
    && c.parseFloat("true") == None && c.parseFloat("false") == None
  }

  // ---- strconv and strings ------------------------------------------------------

  predicate IsDigit(ch: char) {
    '0' <= ch <= '9'
  }

  predicate AllDigits(s: string) {
    s == "" || (IsDigit(s[|s| - 1]) && AllDigits(s[..|s| - 1]))
  }

  function DigitValue(ch: char): nat
    requires IsDigit(ch)
  {
    ch as int - '0' as int
  }

  function DigitsValue(s: string): nat
    requires AllDigits(s)
  {
    if s == "" then 0 else 10 * DigitsValue(s[..|s| - 1]) + DigitValue(s[|s| - 1])
  }

  /** strconv.Atoi: an optional sign, at least one digit, within 64 bits. */
  function Atoi(s: string): Option<Int64> {
    var signed := s != "" && (s[0] == '-' || s[0] == '+');
    var digits := if signed then s[1..] else s;
    if digits == "" || !AllDigits(digits) then None
    else
      var m: int := DigitsValue(digits);
      var n := if signed && s[0] == '-' then -m else m;
      if -0x8000_0000_0000_0000 <= n < 0x8000_0000_0000_0000 then Some(n) else None
  }

  function Digits(n: nat): (s: string)
    ensures AllDigits(s) && DigitsValue(s) == n
    ensures n > 0 ==> s != ""
  {
    if n == 0 then ""
    else
      var s := Digits(n / 10) + ['0' + (n % 10) as char];
      assert s[..|s| - 1] == Digits(n / 10);
      s
  }

  /** fmt %d. */
  function Itoa(n: int): string {
    if n == 0 then "0" else if n < 0 then "-" + Digits(-n) else Digits(n)
  }

  /** strconv.ParseBool. */
  function ParseBool(s: string): Option<bool> {
    if s == "1" || s == "t" || s == "T" || s == "TRUE" || s == "true" || s == "True" then Some(true)
    else if s == "0" || s == "f" || s == "F" || s == "FALSE" || s == "false" || s == "False" then Some(false)
    else None
  }

  /** strings.Trim(s, `"`). */
  function TrimQuotes(s: string): (r: string)
    ensures QuoteFree(r)
    ensures forall ch :: ch in r ==> ch in s
    decreases |s|
  {
    if s == "" then s
    else if s[0] == '"' then TrimQuotes(s[1..])
    else if s[|s| - 1] == '"' then TrimQuotes(s[..|s| - 1])
    else s
  }

  /** No quote at either end. */
  predicate QuoteFree(s: string) {
    s == "" || (s[0] != '"' && s[|s| - 1] != '"')
  }

  // ---- Parsing --------------------------------------------------------------------

  datatype PropertyError = BadFormat | BadIterations | BadDuration | BadWarmup
  datatype ParseError = NoBenchmark | Property(error: PropertyError)
  datatype Result<T, E> = Ok(value: T) | Err(error: E)

  /** The value of a parameter as the parser reads it. */
  function ReadValue(c: Codec, value: string): Value {
    match Atoi(value)
    case Some(n) => IntV(n)
    case None =>
      match c.parseFloat(value)
      case Some(f) => FloatV(f)
      case None =>
        match ParseBool(value)
        case Some(b) => BoolV(b)
        case None => StrV(TrimQuotes(value))
  }

  const RESERVED := {"type", "description", "iterations", "duration", "warmup", "setup", "teardown"}

  function Assign(c: Codec, def: Definition, key: string, value: string): Result<Definition, PropertyError> {
    if key == "type" then Ok(def.(typ := value))
    else if key == "description" then Ok(def.(description := TrimQuotes(value)))
    else if key == "iterations" then
      match Atoi(value) case Some(n) => Ok(def.(iterations := n)) case None => Err(BadIterations)
    else if key == "duration" then
      match c.parseDuration(value) case Some(d) => Ok(def.(duration := d)) case None => Err(BadDuration)
    else if key == "warmup" then
      match Atoi(value) case Some(n) => Ok(def.(warmup := n)) case None => Err(BadWarmup)
    else if key == "setup" then Ok(def.(setup := TrimQuotes(value)))
    else if key == "teardown" then Ok(def.(teardown := TrimQuotes(value)))
    else Ok(def.(parameters := def.parameters[key := ReadValue(c, value)]))
  }

  function ParseProperty(c: Codec, def: Definition, line: string): Result<Definition, PropertyError> {
    if "validate {" <= line || line == "}" then Ok(def)
    else
      var i := IndexOf(line, '=');
      if i == |line| then Err(BadFormat)
      else Assign(c, def, TrimSpace(line[..i]), TrimSpace(line[i + 1..]))
  }

  /** The parser between two lines: p.benchmarks and currentDef. */
  datatype State = State(done: seq<Definition>, current: Option<Definition>) {
    function Flush(): seq<Definition> {
      match current case None => done case Some(def) => done + [def]
    }
  }

  predicate Ignored(line: string) {
    line == "" || line[0] == '#'
  }

  predicate Directive(line: string) {
    "benchmark " <= line
  }

  function Step(c: Codec, st: State, raw: string): Result<State, ParseError> {
    var line := TrimSpace(raw);
    if Ignored(line) then Ok(st)
    else if Directive(line) then Ok(State(st.Flush(), Some(New(TrimSpace(line[9..])))))
    else
      match st.current
      case None => Err(NoBenchmark)
      case Some(def) =>
        match ParseProperty(c, def, line)
        case Ok(def2) => Ok(State(st.done, Some(def2)))
        case Err(e) => Err(Property(e))
  }

  /** All lines read, or the state at the first bad line, its number and error. */
  datatype Outcome = Parsed(st: State) | Failed(st: State, line: nat, error: ParseError)

  function Feed(c: Codec, st: State, lines: seq<string>, number: nat): Outcome
    decreases |lines|
  {
    if lines == [] then Parsed(st)
    else
      hide Step;
      match Step(c, st, lines[0])
      case Ok(st2) => Feed(c, st2, lines[1..], number + 1)
      case Err(e) => Failed(st, number, e)
  }

  /** Parse on a parser that already holds `done`. */
  function ParseText(c: Codec, done: seq<Definition>, dsl: string): Outcome {
    Feed(c, State(done, None), Split(dsl), 1)
  }

  class DSLParser {
    const codec: Codec
    var benchmarks: seq<Definition>

    constructor (codec: Codec)
      ensures this.codec == codec && benchmarks == []
    {
      this.codec := codec;
      benchmarks := [];
    }

    /** The body of Parse's loop: one line, with currentDef in and out. */
    method ParseLine(current: Option<Definition>, raw: string) returns (r: Result<Option<Definition>, ParseError>)
      modifies this
      ensures match Step(codec, State(old(benchmarks), current), raw)
              case Ok(st) => benchmarks == st.done && r == Ok(st.current)
              case Err(e) => benchmarks == old(benchmarks) && r == Err(e)
    {
      var line := TrimSpace(raw);
      if Ignored(line) {
        return Ok(current);
      }
      if Directive(line) {
        if current.Some? {
          benchmarks := benchmarks + [current.value];
        }
        return Ok(Some(New(TrimSpace(line[9..]))));
      }
      if current.None? {
        return Err(NoBenchmark);
      }
      var property := ParseProperty(codec, current.value, line);
      if property.Err? {
        return Err(Property(property.error));
      }
      return Ok(Some(property.value));
    }

    /** The benchmarks read before a bad line stay in the parser. */
    method Parse(dsl: string) returns (result: Result<seq<Definition>, (nat, ParseError)>)
      modifies this
      ensures match ParseText(codec, old(benchmarks), dsl)
              case Parsed(st) => benchmarks == st.Flush() && result == Ok(benchmarks)
              case Failed(st, line, e) => benchmarks == st.done && result == Err((line, e))
    {
      hide Step;
      var lines := Split(dsl);
      var current: Option<Definition> := None;
      var i := 0;
      assert lines[0..] == lines;
      while i < |lines|
        invariant 0 <= i <= |lines|
        invariant ParseText(codec, old(benchmarks), dsl) ==
                  Feed(codec, State(benchmarks, current), lines[i..], i + 1)
      {
        assert lines[i..][0] == lines[i] && lines[i..][1..] == lines[i + 1..];
        var r := ParseLine(current, lines[i]);
        if r.Err? {
          return Err((i + 1, r.error));
        }
        current := r.value;
        i := i + 1;
      }
      if current.Some? {
        benchmarks := benchmarks + [current.value];
      }
      result := Ok(benchmarks);
    }
  }

  // ---- Building -------------------------------------------------------------------

  function PrintValue(c: Codec, v: Value): string {
    match v
    case IntV(n) => Itoa(n)
    case FloatV(f) => c.formatFloat(f)
    case BoolV(b) => if b then "true" else "false"
    case StrV(s) => "\"" + s + "\""
  }

  function PropertyLine(key: string, value: string): string {
    "  " + key + " = " + value
  }

  function Optional(wanted: bool, key: string, value: string): seq<string> {
    if wanted then [PropertyLine(key, value)] else []
  }

  function ParameterLines(c: Codec, ps: map<string, Value>, order: seq<string>): seq<string>
    requires forall i :: 0 <= i < |order| ==> order[i] in ps
  {
    if order == [] then []
    else ParameterLines(c, ps, order[..|order| - 1]) +
         [PropertyLine(order[|order| - 1], PrintValue(c, ps[order[|order| - 1]]))]
  }

  function HeaderLines(c: Codec, def: Definition): seq<string> {
    ["benchmark " + def.name]
    + Optional(def.typ != "", "type", def.typ)
    + Optional(def.description != "", "description", "\"" + def.description + "\"")
    + Optional(def.iterations != DEFAULT_ITERATIONS, "iterations", Itoa(def.iterations))
    + Optional(def.duration != DEFAULT_DURATION, "duration", c.formatDuration(def.duration))
    + Optional(def.warmup != DEFAULT_WARMUP, "warmup", Itoa(def.warmup))
  }

  ghost function DefinitionLines(c: Codec, def: Definition, order: seq<string>): seq<string>
    requires IsOrder(order, def.parameters.Keys)
  {
    HeaderLines(c, def) + ParameterLines(c, def.parameters, order) + [""]
  }

  /** The orders in which Build iterates the parameter maps. */
  ghost predicate Orders(defs: seq<Definition>, orders: seq<seq<string>>) {
    && |orders| == |defs|
    && (defs == [] || (
          var n := |defs| - 1;
          IsOrder(orders[n], defs[n].parameters.Keys) && Orders(defs[..n], orders[..n])))
  }

  ghost function AllLines(c: Codec, defs: seq<Definition>, orders: seq<seq<string>>): seq<string>
    requires Orders(defs, orders)
  {
    if defs == [] then []
    else
      var n := |defs| - 1;
      AllLines(c, defs[..n], orders[..n]) + DefinitionLines(c, defs[n], orders[n])
  }

  /** Every line, ended by a newline. */
  function Unlines(lines: seq<string>): string {
    if lines == [] then "" else Unlines(lines[..|lines| - 1]) + lines[|lines| - 1] + "\n"
  }

  lemma {:induction false} UnlinesConcat(a: seq<string>, b: seq<string>)
    ensures Unlines(a + b) == Unlines(a) + Unlines(b)
  {
    if b == [] {
      assert a + b == a;
    } else {
      UnlinesConcat(a, b[..|b| - 1]);
      ConcatInit(a, b);
      Assoc(Unlines(a), Unlines(b[..|b| - 1]), b[|b| - 1]);
      Assoc(Unlines(a), Unlines(b[..|b| - 1]) + b[|b| - 1], "\n");
    }
  }

  class DSLBuilder {
    const codec: Codec
    var definitions: seq<Definition>

    constructor (codec: Codec)
      ensures this.codec == codec && definitions == []
    {
      this.codec := codec;
      definitions := [];
    }

    method AddBenchmark(name: string)
      modifies this
      ensures definitions == old(definitions) + [New(name)]
    {
      definitions := definitions + [New(name)];
    }

    method WriteProperty(output: string, ghost lines: seq<string>, wanted: bool, key: string, value: string)
        returns (output': string, ghost lines': seq<string>)
      requires output == Unlines(lines)
      ensures lines' == lines + Optional(wanted, key, value) && output' == Unlines(lines')
    {
      output', lines' := output, lines;
      if wanted {
        output' := output + PropertyLine(key, value) + "\n";
        lines' := lines + [PropertyLine(key, value)];
        assert lines'[..|lines'| - 1] == lines;
      }
    }

    method WriteHeader(def: Definition) returns (output: string)
      ensures output == Unlines(HeaderLines(codec, def))
    {
      output := "benchmark " + def.name + "\n";
      ghost var lines := ["benchmark " + def.name];
      assert lines[..0] == [];
      output, lines := WriteProperty(output, lines, def.typ != "", "type", def.typ);
      output, lines := WriteProperty(output, lines, def.description != "", "description", "\"" + def.description + "\"");
      output, lines := WriteProperty(output, lines, def.iterations != DEFAULT_ITERATIONS, "iterations", Itoa(def.iterations));
      output, lines := WriteProperty(output, lines, def.duration != DEFAULT_DURATION, "duration", codec.formatDuration(def.duration));
      output, lines := WriteProperty(output, lines, def.warmup != DEFAULT_WARMUP, "warmup", Itoa(def.warmup));
    }

    method WriteParameters(ps: map<string, Value>) returns (output: string, ghost order: seq<string>)
      ensures IsOrder(order, ps.Keys) && output == Unlines(ParameterLines(codec, ps, order))
    {
      output, order := "", [];
      var todo := ps.Keys;
      while todo != {}
        invariant todo <= ps.Keys && IsOrder(order, ps.Keys - todo)
        invariant forall i :: 0 <= i < |order| ==> order[i] in ps
        invariant output == Unlines(ParameterLines(codec, ps, order))
      {
        var key :| key in todo;
        var line := PropertyLine(key, PrintValue(codec, ps[key]));
        VisitNext(ps.Keys, todo, order, key);
        ghost var lines := ParameterLines(codec, ps, order);
        assert (lines + [line])[..|lines + [line]| - 1] == lines;
        output := output + line + "\n";
        order := order + [key];
        todo := todo - {key};
      }
    }

    method WriteDefinition(def: Definition) returns (output: string, ghost order: seq<string>)
      ensures IsOrder(order, def.parameters.Keys) && output == Unlines(DefinitionLines(codec, def, order))
    {
      hide HeaderLines, ParameterLines;
      var header := WriteHeader(def);
      var parameters;
      parameters, order := WriteParameters(def.parameters);
      output := header + parameters + "\n";
      ghost var ps := ParameterLines(codec, def.parameters, order);
      UnlinesConcat(HeaderLines(codec, def), ps);
      UnlinesConcat(HeaderLines(codec, def) + ps, [""]);
      assert Unlines([""]) == "\n" by { assert [""][..0] == []; }
    }

    method Build() returns (output: string)
      ensures exists orders :: Orders(definitions, orders) && output == Unlines(AllLines(codec, definitions, orders))
    {
      hide DefinitionLines, IsOrder;
      output := "";
      ghost var orders: seq<seq<string>> := [];
      for i := 0 to |definitions|
        invariant Orders(definitions[..i], orders)
        invariant output == Unlines(AllLines(codec, definitions[..i], orders))
      {
        var def := definitions[i];
        ghost var before := orders;
        var text, order := WriteDefinition(def);
        UnlinesConcat(AllLines(codec, definitions[..i], orders), DefinitionLines(codec, def, order));
        output := output + text;
        orders := orders + [order];
        assert definitions[..i + 1][..i] == definitions[..i] && orders[..i] == before;
      }
      assert definitions[..|definitions|] == definitions;
    }
  }
}
