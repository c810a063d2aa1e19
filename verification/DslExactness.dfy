/** The exact condition under which a fresh parser gives back what was built. */
module DslExactness {
  import opened Collections
  import opened Text
  import opened BenchmarkDsl
  import opened DslRoundTrip

  // ---- What a parser can produce ------------------------------------------------------

  predicate KeyShape(key: string) {
    PropertyKey(key) && '\n' !in key && key !in RESERVED
  }

  ghost predicate ParametersShaped(ps: map<string, Value>) {
    forall k :: k in ps ==> KeyShape(k) && ValueOk(ps[k])
  }

  /** Every definition that a parser returns, whatever the text. */
  ghost predicate Shaped(def: Definition) {
    && OneToken(def.name)
    && Trimmed(def.typ) && '\n' !in def.typ
    && QuoteFree(def.description) && '\n' !in def.description
    && ParametersShaped(def.parameters)
    && def.validators == []
  }

  ghost predicate AllShaped(defs: seq<Definition>) {
    defs == [] || (Shaped(defs[|defs| - 1]) && AllShaped(defs[..|defs| - 1]))
  }

  ghost predicate StateShaped(st: State) {
    AllShaped(st.done) && (st.current.Some? ==> Shaped(st.current.value))
  }

  lemma TrimSpaceFlat(s: string)
    requires '\n' !in s
    ensures '\n' !in TrimSpace(s)
  {
    var l := TrimLeft(s);
    assert forall i :: 0 <= i < |l| ==> l[i] == s[|s| - |l| + i];
  }

  lemma ReadValueOk(c: Codec, value: string)
    requires '\n' !in value
    ensures ValueOk(ReadValue(c, value))
  {
  }

  lemma AssignShaped(c: Codec, def: Definition, key: string, value: string)
    requires Shaped(def) && Trimmed(value) && '\n' !in value
    requires key !in RESERVED ==> KeyShape(key)
    ensures Assign(c, def, key, value).Ok? ==> Shaped(Assign(c, def, key, value).value)
  {
    hide Trimmed, KeyShape, ReadValue, ValueOk, Atoi;
    ReadValueOk(c, value);
  }

  /** The key of a trimmed line that is no comment and opens no block. */
  lemma KeyOfLine(line: string)
    requires Trimmed(line) && !Ignored(line) && !("validate {" <= line) && '\n' !in line
    requires IndexOf(line, '=') < |line|
    ensures var key := TrimSpace(line[..IndexOf(line, '=')]); key !in RESERVED ==> KeyShape(key)
  {
    hide TrimSpace, IsSpace;
    var i := IndexOf(line, '=');
    var raw := line[..i];
    TrimSpaceFlat(raw);
    TrimSpacePrefix(raw);
    KeyPrefix(line, TrimSpace(raw), i);
  }

  /** What a key inherits from the line it starts. */
  lemma KeyPrefix(line: string, key: string, i: nat)
    requires i <= |line| && key <= line[..i] && '=' !in line[..i] && !Ignored(line) && !("validate {" <= line)
    ensures '=' !in key && (key == "" || key[0] != '#') && !("validate {" <= key)
  {
    assert key <= line;
  }

  /** Text that starts with no white space keeps its start. */
  lemma TrimSpacePrefix(s: string)
    requires s == "" || !IsSpace(s[0])
    ensures TrimSpace(s) <= s
    ensures s != "" ==> TrimSpace(s) != ""
  {
    assert TrimLeft(s) == s;
  }

  lemma StepShaped(c: Codec, st: State, raw: string)
    requires StateShaped(st) && '\n' !in raw
    ensures Step(c, st, raw).Ok? ==> StateShaped(Step(c, st, raw).value)
  {
    hide TrimSpace, Trimmed, KeyShape, Assign, Shaped;
    var line := TrimSpace(raw);
    TrimSpaceFlat(raw);
    if Directive(line) {
      NameOfLine(line);
      NewShaped(TrimSpace(line[9..]));
      FlushShaped(st);
    } else if !Ignored(line) && st.current.Some? && IndexOf(line, '=') < |line| && !("validate {" <= line) {
      var i := IndexOf(line, '=');
      KeyOfLine(line);
      TrimSpaceFlat(line[i + 1..]);
      AssignShaped(c, st.current.value, TrimSpace(line[..i]), TrimSpace(line[i + 1..]));
    }
  }

  lemma FlushShaped(st: State)
    requires StateShaped(st)
    ensures AllShaped(st.Flush())
  {
    hide Shaped;
    if st.current.Some? {
      assert st.Flush()[..|st.Flush()| - 1] == st.done;
    }
  }

  lemma NewShaped(name: string)
    requires OneToken(name)
    ensures Shaped(New(name))
  {
  }

  /** A directive names its benchmark. */
  lemma NameOfLine(line: string)
    requires Trimmed(line) && Directive(line) && '\n' !in line
    ensures OneToken(TrimSpace(line[9..]))
  {
    var tail := line[9..];
    assert tail[0] == ' ' && line[|line| - 1] == tail[|tail| - 1];
    TrimSpaceFlat(tail);
    if TrimSpace(tail) == "" {
      AllSpace(tail);
      assert false;
    }
  }

  lemma AllSpace(s: string)
    requires TrimSpace(s) == "" && s != ""
    ensures IsSpace(s[|s| - 1])
  {
  }

  lemma {:induction false} FeedShaped(c: Codec, st: State, lines: seq<string>, n: nat)
    requires StateShaped(st) && Flat(lines) && Feed(c, st, lines, n).Parsed?
    ensures StateShaped(Feed(c, st, lines, n).st)
    decreases |lines|
  {
    hide Step, StateShaped;
    if lines != [] {
      StepShaped(c, st, lines[0]);
      FeedShaped(c, Step(c, st, lines[0]).value, lines[1..], n + 1);
    }
  }

  // ---- Counting directives ---------------------------------------------------------------

  function Directives(lines: seq<string>): nat {
    if lines == [] then 0
    else Directives(lines[..|lines| - 1]) + (if Directive(TrimSpace(lines[|lines| - 1])) then 1 else 0)
  }

  lemma {:induction false} DirectivesConcat(a: seq<string>, b: seq<string>)
    ensures Directives(a + b) == Directives(a) + Directives(b)
  {
    hide Directive, TrimSpace;
    if b == [] {
      assert a + b == a;
    } else {
      DirectivesConcat(a, b[..|b| - 1]);
      assert (a + b)[..|a + b| - 1] == a + b[..|b| - 1];
    }
  }

  lemma StepCounts(c: Codec, st: State, raw: string)
    requires Step(c, st, raw).Ok?
    ensures |Step(c, st, raw).value.Flush()| == |st.Flush()| + (if Directive(TrimSpace(raw)) then 1 else 0)
  {
    hide TrimSpace, ParseProperty;
  }

  /** A successful parse returns one definition per directive. */
  lemma {:induction false} FeedCounts(c: Codec, st: State, lines: seq<string>, n: nat)
    requires Feed(c, st, lines, n).Parsed?
    ensures |Feed(c, st, lines, n).st.Flush()| == |st.Flush()| + Directives(lines)
    decreases |lines|
  {
    hide Step, Directive, TrimSpace;
    if lines != [] {
      StepCounts(c, st, lines[0]);
      FeedCounts(c, Step(c, st, lines[0]).value, lines[1..], n + 1);
      assert lines == [lines[0]] + lines[1..];
      DirectivesConcat([lines[0]], lines[1..]);
      assert [lines[0]][..0] == [];
    }
  }

  // ---- The lines of shaped definitions ------------------------------------------------------

  lemma {:induction false} ParametersFlat(c: Codec, ps: map<string, Value>, order: seq<string>)
    requires Sound(c) && ParametersShaped(ps) && forall i :: 0 <= i < |order| ==> order[i] in ps
    ensures Flat(ParameterLines(c, ps, order))
  {
    hide PropertyLine, PrintValue;
    if order != [] {
      var key := order[|order| - 1];
      ParametersFlat(c, ps, order[..|order| - 1]);
      ValueReadsBack(c, ps[key]);
      PropertyFlat(key, PrintValue(c, ps[key]));
    }
  }

  lemma HeaderFlat(c: Codec, def: Definition)
    requires Sound(c) && Shaped(def)
    ensures Flat(HeaderLines(c, def))
  {
    hide Optional, Itoa, Flat;
    var a0 := ["benchmark " + def.name];
    assert Flat(a0) by { NameFlat(def.name); }
    AtoiOfItoa(def.iterations);
    AtoiOfItoa(def.warmup);
    KeysFlat();
    var a1 := a0 + Optional(def.typ != "", "type", def.typ);
    OptionalFlat(a0, def.typ != "", "type", def.typ);
    var q := "\"" + def.description + "\"";
    var a2 := a1 + Optional(def.description != "", "description", q);
    OptionalFlat(a1, def.description != "", "description", q);
    var a3 := a2 + Optional(def.iterations != DEFAULT_ITERATIONS, "iterations", Itoa(def.iterations));
    OptionalFlat(a2, def.iterations != DEFAULT_ITERATIONS, "iterations", Itoa(def.iterations));
    var a4 := a3 + Optional(def.duration != DEFAULT_DURATION, "duration", c.formatDuration(def.duration));
    OptionalFlat(a3, def.duration != DEFAULT_DURATION, "duration", c.formatDuration(def.duration));
    OptionalFlat(a4, def.warmup != DEFAULT_WARMUP, "warmup", Itoa(def.warmup));
  }

  lemma NameFlat(name: string)
    requires '\n' !in name
    ensures Flat(["benchmark " + name])
  {
  }

  lemma KeysFlat()
    ensures '\n' !in "type" && '\n' !in "description" && '\n' !in "iterations"
    ensures '\n' !in "duration" && '\n' !in "warmup"
  {
  }

  lemma {:induction false} AllFlat(c: Codec, defs: seq<Definition>, orders: seq<seq<string>>)
    requires Sound(c) && AllShaped(defs) && Orders(defs, orders)
    ensures Flat(AllLines(c, defs, orders))
  {
    hide HeaderLines, ParameterLines, Shaped, IsOrder;
    if defs != [] {
      var m := |defs| - 1;
      AllFlat(c, defs[..m], orders[..m]);
      DefinitionFlat(c, defs[m], orders[m]);
    }
  }

  lemma DefinitionFlat(c: Codec, def: Definition, order: seq<string>)
    requires Sound(c) && Shaped(def) && IsOrder(order, def.parameters.Keys)
    ensures Flat(DefinitionLines(c, def, order))
  {
    hide HeaderLines, ParameterLines;
    HeaderFlat(c, def);
    ParametersFlat(c, def.parameters, order);
  }

  lemma {:induction false} BadKeyCounts(c: Codec, ps: map<string, Value>, order: seq<string>, k: string)
    requires Sound(c) && ParametersShaped(ps) && forall i :: 0 <= i < |order| ==> order[i] in ps
    requires k in order && Directive(k + " ")
    ensures Directives(ParameterLines(c, ps, order)) >= 1
  {
    hide PropertyLine, PrintValue, TrimSpace, Directive, Sound;
    var init, key := order[..|order| - 1], order[|order| - 1];
    var lines := ParameterLines(c, ps, order);
    assert lines[..|lines| - 1] == ParameterLines(c, ps, init);
    if key == k {
      ValueReadsBack(c, ps[k]);
      BodyOfLine(k, PrintValue(c, ps[k]));
      BodyDirective(k, PrintValue(c, ps[k]));
    } else {
      assert order == init + [key];
      BadKeyCounts(c, ps, init, k);
    }
  }

  /** A definition is written with one directive, or with more if a key reads as one. */
  lemma DefinitionCounts(c: Codec, def: Definition, order: seq<string>)
    requires Sound(c) && Shaped(def) && IsOrder(order, def.parameters.Keys)
    ensures Directives(DefinitionLines(c, def, order)) >= if Printable(def) then 1 else 2
  {
    hide ParameterLines, HeaderLines, TrimSpace, Directive, Directives, Sound, Shaped, Printable;
    var header, ps := HeaderLines(c, def), ParameterLines(c, def.parameters, order);
    HeaderCounts(c, def);
    DirectivesConcat(header, ps);
    DirectivesConcat(header + ps, [""]);
    if !Printable(def) {
      var k := UnprintableKey(def, order);
      BadKeyCounts(c, def.parameters, order, k);
    }
  }

  /** What makes a shaped definition unprintable: a key that reads as a directive. */
  lemma UnprintableKey(def: Definition, order: seq<string>) returns (k: string)
    requires Shaped(def) && !Printable(def) && IsOrder(order, def.parameters.Keys)
    ensures ParametersShaped(def.parameters) && k in order && Directive(k + " ")
    ensures forall i :: 0 <= i < |order| ==> order[i] in def.parameters
  {
    hide Directive, Trimmed;
    k :| k in def.parameters && !(KeyOk(k) && ValueOk(def.parameters[k]));
  }

  lemma HeaderCounts(c: Codec, def: Definition)
    requires Shaped(def)
    ensures Directives(HeaderLines(c, def)) >= 1
  {
    hide TrimSpace, Optional;
    var lines := HeaderLines(c, def);
    var first := ["benchmark " + def.name];
    assert lines == first + lines[1..];
    DirectivesConcat(first, lines[1..]);
    StepHeader(c, State([], None), def.name);
    FirstDirective(def.name);
    assert first[..0] == [];
  }

  lemma FirstDirective(name: string)
    ensures Directive("benchmark " + name)
  {
  }

  lemma {:induction false} AllCounts(c: Codec, defs: seq<Definition>, orders: seq<seq<string>>)
    requires Sound(c) && AllShaped(defs) && Orders(defs, orders)
    ensures Directives(AllLines(c, defs, orders)) >= if AllPrintable(defs) then |defs| else |defs| + 1
  {
    hide DefinitionLines, Directive, TrimSpace, Shaped, Printable, IsOrder;
    if defs != [] {
      var m := |defs| - 1;
      AllCounts(c, defs[..m], orders[..m]);
      DefinitionCounts(c, defs[m], orders[m]);
      DirectivesConcat(AllLines(c, defs[..m], orders[..m]), DefinitionLines(c, defs[m], orders[m]));
    }
  }

  // ---- The theorem -------------------------------------------------------------------------------

  /** A float that prints as a float and reads back. */
  predicate FloatStable(c: Codec, f: Float64) {
    Atoi(c.formatFloat(f)) == None && c.parseFloat(c.formatFloat(f)) == Some(f)
  }

  ghost predicate WellFormed(c: Codec, def: Definition) {
    && Printable(def)
    && def.setup == "" && def.teardown == "" && def.validators == []
    && forall k :: k in def.parameters && def.parameters[k].FloatV? ==> FloatStable(c, def.parameters[k].f)
  }

  ghost predicate AllWellFormed(c: Codec, defs: seq<Definition>) {
    defs == [] || (WellFormed(c, defs[|defs| - 1]) && AllWellFormed(c, defs[..|defs| - 1]))
  }

  lemma ReadBackIff(c: Codec, def: Definition)
    requires Printable(def)
    ensures ReadBack(c, def) == def <==> WellFormed(c, def)
  {
    hide Atoi, ParseBool, TrimQuotes, Printable;
    var ps := def.parameters;
    if ReadBack(c, def) == def {
      forall k | k in ps && ps[k].FloatV? ensures FloatStable(c, ps[k].f) {
        assert ReadBack(c, def).parameters[k] == Reread(c, ps[k]) == ps[k];
      }
    }
    if WellFormed(c, def) {
      forall k | k in ps ensures Reread(c, ps[k]) == ps[k] {
        assert ps[k].FloatV? ==> FloatStable(c, ps[k].f);
      }
      assert ReadBack(c, def).parameters == ps;
    }
  }

  lemma {:induction false} ReadBackAllIff(c: Codec, defs: seq<Definition>)
    requires AllPrintable(defs)
    ensures |ReadBackAll(c, defs)| == |defs|
    ensures ReadBackAll(c, defs) == defs <==> AllWellFormed(c, defs)
  {
    hide Printable, WellFormed, ReadBack;
    if defs != [] {
      var init, last := defs[..|defs| - 1], defs[|defs| - 1];
      ReadBackAllIff(c, init);
      ReadBackIff(c, last);
      var back := ReadBackAll(c, defs);
      assert defs == init + [last] && back[..|init|] == ReadBackAll(c, init);
    }
  }

  lemma {:induction false} WellFormedPrintable(c: Codec, defs: seq<Definition>)
    requires AllWellFormed(c, defs)
    ensures AllPrintable(defs) && AllShaped(defs)
  {
    hide KeyOk, KeyShape, ValueOk;
    if defs != [] {
      WellFormedPrintable(c, defs[..|defs| - 1]);
      PrintableShaped(defs[|defs| - 1]);
    }
  }

  lemma PrintableShaped(def: Definition)
    requires Printable(def) && def.validators == []
    ensures Shaped(def)
  {
    hide Trimmed, Directive;
  }

  /** A fresh parser returns exactly these definitions for the text. */
  ghost predicate GivesBack(c: Codec, text: string, defs: seq<Definition>) {
    var r := ParseText(c, [], text);
    r.Parsed? && r.st.Flush() == defs
  }

  lemma ParseOfLines(c: Codec, lines: seq<string>)
    requires Flat(lines)
    ensures ParseText(c, [], Unlines(lines)) == Feed(c, State([], None), lines + [""], 1)
  {
    SplitUnlines(lines);
  }

  /** Printable definitions come back, floats and unprinted fields read anew. */
  lemma ParseOfBuild(c: Codec, defs: seq<Definition>, orders: seq<seq<string>>)
    requires Sound(c) && AllPrintable(defs) && AllShaped(defs) && Orders(defs, orders)
    ensures GivesBack(c, Unlines(AllLines(c, defs, orders)), ReadBackAll(c, defs))
  {
    hide Step, AllPrintable, AllShaped, Unlines;
    var lines := AllLines(c, defs, orders);
    AllFlat(c, defs, orders);
    ParseOfLines(c, lines);
    var st := FeedAll(c, defs, orders, 1);
    StepBlank(c, st);
    FeedSnoc(c, State([], None), lines, "", 1, st);
  }

  /** The text Build writes, in any parameter orders, parses to the definitions it
      was built from if and only if all of them are well-formed. */
  lemma RoundTripExactly(c: Codec, defs: seq<Definition>, orders: seq<seq<string>>)
    requires Sound(c) && Orders(defs, orders)
    ensures GivesBack(c, Unlines(AllLines(c, defs, orders)), defs) <==> AllWellFormed(c, defs)
  {
    hide Feed, AllPrintable, AllShaped, Unlines, AllLines, AllWellFormed;
    var text := Unlines(AllLines(c, defs, orders));
    if AllWellFormed(c, defs) {
      WellFormedPrintable(c, defs);
      ParseOfBuild(c, defs, orders);
      ReadBackAllIff(c, defs);
    }
    if GivesBack(c, text, defs) {
      BuiltIsPrintable(c, defs, orders);
      ParseOfBuild(c, defs, orders);
      ReadBackAllIff(c, defs);
    }
  }

  lemma BuiltIsPrintable(c: Codec, defs: seq<Definition>, orders: seq<seq<string>>)
    requires Sound(c) && Orders(defs, orders) && GivesBack(c, Unlines(AllLines(c, defs, orders)), defs)
    ensures AllShaped(defs) && AllPrintable(defs)
  {
    hide Feed, Unlines, AllLines, Shaped, Split, Directives, Sound, Orders, Flat, AllPrintable;
    var lines := AllLines(c, defs, orders);
    var text := Unlines(lines);
    var st := ParseText(c, [], text).st;
    SplitFlat(text);
    FeedShaped(c, State([], None), Split(text), 1);
    FlushShaped(st);
    AllFlat(c, defs, orders);
    ParseOfLines(c, lines);
    FeedCounts(c, State([], None), lines + [""], 1);
    BlankCounts(lines);
    AllCounts(c, defs, orders);
  }

  lemma SplitFlat(text: string)
    ensures Flat(Split(text))
  {
  }

  lemma BlankCounts(lines: seq<string>)
    ensures Directives(lines + [""]) == Directives(lines)
  {
    assert (lines + [""])[..|lines|] == lines;
  }
}
