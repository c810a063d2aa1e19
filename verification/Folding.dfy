/** The line folders LogCrunch and DiffCrunch of
    internal/filter/claw_compactor_stages.go.  Their output is modelled as items;
    a folded item is what the code formats as a line with a count. */
module Folding {
  import opened Collections

  // ---- LogCrunch ---------------------------------------------------------------------------

  datatype Item = Line(text: string) | Repeated(text: string, count: nat)

  function Copies<T>(x: T, n: nat): seq<T> {
    if n == 0 then [] else [x] + Copies(x, n - 1)
  }

  /** The lines an item stands for. */
  function Lines(item: Item): seq<string> {
    match item case Line(t) => [t] case Repeated(t, n) => Copies(t, n)
  }

  function Expand(items: seq<Item>): seq<string> {
    if items == [] then [] else Lines(items[0]) + Expand(items[1..])
  }

  /** The length of the leading run of a line, which ends where the line changes. */
  function RunLength(lines: seq<string>, line: string): (n: nat)
    ensures n <= |lines| && (n < |lines| ==> lines[n] != line)
    ensures lines[..n] == Copies(line, n)
  {
    if lines == [] || lines[0] != line then 0
    else
      var n := RunLength(lines[1..], line);
      assert lines[..n + 1] == [lines[0]] + lines[1..][..n];
      n + 1
  }

  /** A run of equal lines, folded if it is long enough. */
  function Fold(line: string, count: nat, min: int): seq<Item> {
    if count >= min then [Repeated(line, count)] else Copies(Line(line), count)
  }

  /** Preserved lines one by one, every other maximal run folded or copied. */
  function Crunch(lines: seq<string>, min: int, preserve: string -> bool): seq<Item>
    decreases |lines|
  {
    if lines == [] then []
    else if preserve(lines[0]) then [Line(lines[0])] + Crunch(lines[1..], min, preserve)
    else
      var n := RunLength(lines, lines[0]);
      Fold(lines[0], n, min) + Crunch(lines[n..], min, preserve)
  }

  /** Every line as it is. */
  function Map(lines: seq<string>): (items: seq<Item>)
    ensures |items| == |lines|
  {
    if lines == [] then [] else [Line(lines[0])] + Map(lines[1..])
  }

  lemma CopiesCons<T>(x: T, n: nat)
    requires n > 0
    ensures Copies(x, n) == [x] + Copies(x, n - 1)
  {
  }

  lemma {:induction false} MapCopies(line: string, n: nat, rest: seq<string>)
    ensures Map(Copies(line, n) + rest) == Copies(Line(line), n) + Map(rest)
  {
    if n == 0 {
      assert Copies(line, n) + rest == rest;
    } else {
      hide Copies;
      MapCopies(line, n - 1, rest);
      CopiesCons(line, n);
      CopiesCons(Line(line), n);
      var some := Copies(line, n - 1) + rest;
      assert Copies(line, n) + rest == [line] + some && ([line] + some)[1..] == some;
      Assoc([Line(line)], Copies(Line(line), n - 1), Map(rest));
    }
  }

  /** Fewer lines than the minimum are never folded: the early return is sound. */
  lemma {:induction false} ShortUnfolded(lines: seq<string>, min: int, preserve: string -> bool)
    requires |lines| < min
    ensures Crunch(lines, min, preserve) == Map(lines)
    decreases |lines|
  {
    hide Copies;
    if lines != [] {
      if preserve(lines[0]) {
        ShortUnfolded(lines[1..], min, preserve);
      } else {
        var n := RunLength(lines, lines[0]);
        assert n >= 1;
        ShortUnfolded(lines[n..], min, preserve);
        MapCopies(lines[0], n, lines[n..]);
        assert lines == Copies(lines[0], n) + lines[n..];
      }
    }
  }

  method LogCrunch(lines: seq<string>, min: int, preserve: string -> bool) returns (items: seq<Item>, saved: int)
    ensures items == Crunch(lines, min, preserve)
    ensures saved == |lines| - |items|
  {
    hide Fold, RunLength, Map, Copies;
    if |lines| < min {
      ShortUnfolded(lines, min, preserve);
      return Map(lines), 0;
    }
    items := [];
    var i := 0;
    assert lines[0..] == lines;
    while i < |lines|
      invariant 0 <= i <= |lines|
      invariant items + Crunch(lines[i..], min, preserve) == Crunch(lines, min, preserve)
    {
      var line := lines[i];
      ghost var rest := lines[i..];
      assert rest[0] == line && rest[1..] == lines[i + 1..];
      if preserve(line) {
        Assoc(items, [Line(line)], Crunch(rest[1..], min, preserve));
        items := items + [Line(line)];
        i := i + 1;
      } else {
        var count := CountRun(lines, i);
        var folded := WriteRun(line, count, min);
        assert rest[count..] == lines[i + count..];
        Assoc(items, folded, Crunch(rest[count..], min, preserve));
        items := items + folded;
        i := i + count;
      }
    }
    saved := |lines| - |items|;
  }

  lemma RunNext(lines: seq<string>, line: string, j: nat)
    requires j < |lines|
    ensures RunLength(lines[j..], line) == if lines[j] == line then 1 + RunLength(lines[j + 1..], line) else 0
  {
    DropDrop(lines, j, 1);
  }

  method CountRun(lines: seq<string>, i: nat) returns (count: nat)
    requires i < |lines|
    ensures count == RunLength(lines[i..], lines[i]) && count >= 1
  {
    hide RunLength;
    count := 1;
    var j := i + 1;
    RunNext(lines, lines[i], i);
    while j < |lines| && lines[j] == lines[i]
      invariant i < j <= |lines| && count == j - i
      invariant count + RunLength(lines[j..], lines[i]) == RunLength(lines[i..], lines[i])
    {
      RunNext(lines, lines[i], j);
      count := count + 1;
      j := j + 1;
    }
    RunEnd(lines, lines[i], j);
  }

  lemma RunEnd(lines: seq<string>, line: string, j: nat)
    requires j <= |lines| && (j < |lines| ==> lines[j] != line)
    ensures RunLength(lines[j..], line) == 0
  {
  }

  method WriteRun(line: string, count: nat, min: int) returns (items: seq<Item>)
    ensures items == Fold(line, count, min)
  {
    if count >= min {
      return [Repeated(line, count)];
    }
    items := [];
    for k := 0 to count
      invariant items + Copies(Line(line), count - k) == Copies(Line(line), count)
    {
      Assoc(items, [Line(line)], Copies(Line(line), count - k - 1));
      items := items + [Line(line)];
    }
    assert items + [] == items;
  }

  lemma {:induction false} ExpandConcat(a: seq<Item>, b: seq<Item>)
    ensures Expand(a + b) == Expand(a) + Expand(b)
  {
    hide Lines;
    if a == [] {
      assert a + b == b;
    } else {
      ExpandConcat(a[1..], b);
      assert (a + b)[1..] == a[1..] + b;
      Assoc(Lines(a[0]), Expand(a[1..]), Expand(b));
    }
  }

  lemma {:induction false} ExpandCopies(line: string, n: nat)
    ensures Expand(Copies(Line(line), n)) == Copies(line, n)
  {
    if n > 0 {
      ExpandCopies(line, n - 1);
      assert Copies(Line(line), n)[1..] == Copies(Line(line), n - 1);
    }
  }

  lemma FoldExpands(line: string, count: nat, min: int)
    ensures Expand(Fold(line, count, min)) == Copies(line, count)
  {
    if count >= min {
      var items := [Repeated(line, count)];
      assert items[1..] == [] && Copies(line, count) + [] == Copies(line, count);
    } else {
      ExpandCopies(line, count);
    }
  }

  lemma ExpandLine(line: string, items: seq<Item>)
    ensures Expand([Line(line)] + items) == [line] + Expand(items)
  {
    assert ([Line(line)] + items)[1..] == items;
  }

  /** Nothing is lost: expanding the items gives back the lines. */
  lemma {:induction false} CrunchLossless(lines: seq<string>, min: int, preserve: string -> bool)
    ensures Expand(Crunch(lines, min, preserve)) == lines
    decreases |lines|
  {
    hide Fold, Copies;
    if lines != [] {
      if preserve(lines[0]) {
        CrunchLossless(lines[1..], min, preserve);
        ExpandLine(lines[0], Crunch(lines[1..], min, preserve));
        TakeDrop(lines, 1);
      } else {
        var n := RunLength(lines, lines[0]);
        assert n >= 1;
        CrunchLossless(lines[n..], min, preserve);
        FoldExpands(lines[0], n, min);
        ExpandConcat(Fold(lines[0], n, min), Crunch(lines[n..], min, preserve));
        TakeDrop(lines, n);
      }
    }
  }

  /** How often an item list shows a line by itself. */
  function Singles(items: seq<Item>, text: string): nat {
    if items == [] then 0 else (if items[0] == Line(text) then 1 else 0) + Singles(items[1..], text)
  }

  lemma {:induction false} SinglesConcat(a: seq<Item>, b: seq<Item>, text: string)
    ensures Singles(a + b, text) == Singles(a, text) + Singles(b, text)
  {
    if a == [] {
      assert a + b == b;
    } else {
      SinglesConcat(a[1..], b, text);
      assert (a + b)[1..] == a[1..] + b;
    }
  }

  lemma {:induction false} SinglesOfCopies(line: string, n: nat, text: string)
    requires line != text
    ensures Singles(Copies(Line(line), n), text) == 0 && multiset(Copies(line, n))[text] == 0
  {
    if n > 0 {
      SinglesOfCopies(line, n - 1, text);
      assert Copies(Line(line), n)[1..] == Copies(Line(line), n - 1);
    }
  }

  /** Every preserved line is shown by itself, as often as it occurs. */
  lemma {:induction false} PreservedSurvive(lines: seq<string>, min: int, preserve: string -> bool, text: string)
    requires preserve(text)
    ensures Singles(Crunch(lines, min, preserve), text) == multiset(lines)[text]
    decreases |lines|
  {
    hide Copies, Fold, Singles;
    if lines == [] {
      assert Singles([], text) == 0 by { NoSingles(text); }
    } else if preserve(lines[0]) {
      PreservedSurvive(lines[1..], min, preserve, text);
      SinglesLine(lines[0], Crunch(lines[1..], min, preserve), text);
      OccurrencesSplit(lines, 1, text);
    } else {
      var n := RunLength(lines, lines[0]);
      assert n >= 1;
      PreservedSurvive(lines[n..], min, preserve, text);
      SinglesConcat(Fold(lines[0], n, min), Crunch(lines[n..], min, preserve), text);
      SinglesOfFold(lines[0], n, min, text);
      OccurrencesSplit(lines, n, text);
    }
  }

  lemma NoSingles(text: string)
    ensures Singles([], text) == 0
  {
  }

  lemma SinglesLine(line: string, items: seq<Item>, text: string)
    ensures Singles([Line(line)] + items, text) == multiset([line])[text] + Singles(items, text)
  {
    assert ([Line(line)] + items)[1..] == items;
  }

  /** A run of another line shows the text nowhere, folded or not. */
  lemma SinglesOfFold(line: string, n: nat, min: int, text: string)
    requires line != text
    ensures Singles(Fold(line, n, min), text) == 0 && multiset(Copies(line, n))[text] == 0
  {
    SinglesOfCopies(line, n, text);
    assert [Repeated(line, n)][1..] == [];
  }

  lemma OccurrencesSplit(lines: seq<string>, n: nat, text: string)
    requires n <= |lines|
    ensures multiset(lines)[text] == multiset(lines[..n])[text] + multiset(lines[n..])[text]
    ensures n == 1 ==> lines[..n] == [lines[0]]
  {
    TakeDrop(lines, n);
  }

  /** The number of single copies of a text that the items start with. */
  function LeadingLines(items: seq<Item>, text: string): nat {
    if items == [] || items[0] != Line(text) then 0 else 1 + LeadingLines(items[1..], text)
  }

  /** The items from the n-th on start with another text. */
  ghost predicate EndsAt(items: seq<Item>, n: nat, text: string) {
    n < |items| ==> items[n].text != text
  }

  /** Folded exactly as far as it goes: a folded run is long enough, not preserved
      and ends where the text changes; a run of single lines is preserved, or too
      short to fold and ends where the text changes. */
  ghost predicate WellFolded(items: seq<Item>, min: int, preserve: string -> bool) {
    items == [] || (
      && (match items[0]
          case Repeated(t, n) => n >= 1 && n >= min && !preserve(t) && EndsAt(items, 1, t)
          case Line(t) => preserve(t) || (LeadingLines(items, t) < min && EndsAt(items, LeadingLines(items, t), t)))
      && WellFolded(items[1..], min, preserve))
  }

  lemma LineBefore(line: string, items: seq<Item>, n: nat, min: int, preserve: string -> bool)
    requires WellFolded(items, min, preserve) && LeadingLines(items, line) == n && EndsAt(items, n, line) && n + 1 < min
    ensures WellFolded([Line(line)] + items, min, preserve)
    ensures LeadingLines([Line(line)] + items, line) == n + 1 && EndsAt([Line(line)] + items, n + 1, line)
  {
    assert ([Line(line)] + items)[1..] == items;
  }

  lemma {:induction false} CopiesWellFolded(line: string, n: nat, rest: seq<Item>, min: int, preserve: string -> bool)
    requires n < min && WellFolded(rest, min, preserve) && (rest == [] || rest[0].text != line)
    ensures WellFolded(Copies(Line(line), n) + rest, min, preserve)
    ensures LeadingLines(Copies(Line(line), n) + rest, line) == n
    ensures EndsAt(Copies(Line(line), n) + rest, n, line)
  {
    if n == 0 {
      assert Copies(Line(line), n) + rest == rest;
    } else {
      CopiesWellFolded(line, n - 1, rest, min, preserve);
      LineBefore(line, Copies(Line(line), n - 1) + rest, n - 1, min, preserve);
      Assoc([Line(line)], Copies(Line(line), n - 1), rest);
    }
  }

  lemma CrunchFirst(lines: seq<string>, min: int, preserve: string -> bool)
    requires lines != []
    ensures Crunch(lines, min, preserve) != [] && Crunch(lines, min, preserve)[0].text == lines[0]
  {
    assert RunLength(lines, lines[0]) >= 1;
  }

  /** The items of every input are well folded. */
  lemma {:induction false} CrunchWellFolded(lines: seq<string>, min: int, preserve: string -> bool)
    ensures WellFolded(Crunch(lines, min, preserve), min, preserve)
    decreases |lines|
  {
    hide Copies, LeadingLines;
    if lines != [] {
      if preserve(lines[0]) {
        CrunchWellFolded(lines[1..], min, preserve);
        assert Crunch(lines, min, preserve)[1..] == Crunch(lines[1..], min, preserve);
      } else {
        var line, n := lines[0], RunLength(lines, lines[0]);
        assert n >= 1;
        var rest := Crunch(lines[n..], min, preserve);
        CrunchWellFolded(lines[n..], min, preserve);
        if n < |lines| {
          CrunchFirst(lines[n..], min, preserve);
        }
        if n >= min {
          assert ([Repeated(line, n)] + rest)[1..] == rest;
        } else {
          CopiesWellFolded(line, n, rest, min, preserve);
        }
      }
    }
  }

  lemma {:induction false} RunOfCopies(text: string, n: nat, rest: seq<string>)
    requires rest == [] || rest[0] != text
    ensures RunLength(Copies(text, n) + rest, text) == n && (Copies(text, n) + rest)[n..] == rest
    ensures n > 0 ==> (Copies(text, n) + rest)[0] == text
  {
    var all := Copies(text, n) + rest;
    if n == 0 {
      assert all == rest;
    } else {
      RunOfCopies(text, n - 1, rest);
      CopiesCons(text, n);
      Assoc([text], Copies(text, n - 1), rest);
      assert all[1..] == Copies(text, n - 1) + rest;
      DropDrop(all, 1, n - 1);
    }
  }

  lemma {:induction false} LeadingSplit(items: seq<Item>, text: string, min: int, preserve: string -> bool)
    requires WellFolded(items, min, preserve)
    ensures var n := LeadingLines(items, text);
            && n <= |items| && items == Copies(Line(text), n) + items[n..] && WellFolded(items[n..], min, preserve)
  {
    if items != [] && items[0] == Line(text) {
      LeadingSplit(items[1..], text, min, preserve);
      var n := LeadingLines(items, text);
      assert items == [items[0]] + items[1..] && items[1..][n - 1..] == items[n..];
      Assoc([Line(text)], Copies(Line(text), n - 1), items[n..]);
    } else {
      assert items[0..] == items;
    }
  }

  lemma ExpandFirst(items: seq<Item>, min: int, preserve: string -> bool)
    requires WellFolded(items, min, preserve)
    ensures items == [] <==> Expand(items) == []
    ensures items != [] ==> Expand(items)[0] == items[0].text
  {
  }

  /** A run at the front of the lines is crunched by itself. */
  lemma CrunchRun(text: string, n: nat, rest: seq<string>, min: int, preserve: string -> bool)
    requires n > 0 && !preserve(text) && (rest == [] || rest[0] != text)
    ensures Crunch(Copies(text, n) + rest, min, preserve) == Fold(text, n, min) + Crunch(rest, min, preserve)
  {
    hide Copies, Fold, RunLength;
    RunOfCopies(text, n, rest);
  }

  lemma CrunchPreserved(text: string, rest: seq<string>, min: int, preserve: string -> bool)
    requires preserve(text)
    ensures Crunch([text] + rest, min, preserve) == [Line(text)] + Crunch(rest, min, preserve)
  {
    assert ([text] + rest)[1..] == rest;
  }

  /** Well folded items are what crunching their lines gives. */
  lemma {:induction false} FoldedOnce(items: seq<Item>, min: int, preserve: string -> bool)
    requires WellFolded(items, min, preserve)
    ensures Crunch(Expand(items), min, preserve) == items
    decreases |items|
  {
    hide Copies, LeadingLines, RunLength, Fold;
    if items != [] {
      var first, rest := items[0], items[1..];
      var text := first.text;
      if first.Repeated? || preserve(text) {
        FoldedOnce(rest, min, preserve);
        ExpandFirst(rest, min, preserve);
        assert items == [first] + rest;
        if first.Repeated? {
          CrunchRun(text, first.count, Expand(rest), min, preserve);
          FoldLong(text, first.count, min);
        } else {
          CrunchPreserved(text, Expand(rest), min, preserve);
        }
      } else {
        FoldedRun(items, min, preserve);
        FoldedOnce(items[LeadingLines(items, text)..], min, preserve);
      }
    }
  }

  lemma FoldLong(text: string, n: nat, min: int)
    ensures n >= min ==> Fold(text, n, min) == [Repeated(text, n)]
    ensures n < min ==> Fold(text, n, min) == Copies(Line(text), n)
  {
  }

  /** A run of single lines too short to fold. */
  lemma FoldedRun(items: seq<Item>, min: int, preserve: string -> bool)
    requires WellFolded(items, min, preserve) && items != [] && items[0].Line? && !preserve(items[0].text)
    ensures var text := items[0].text;
            var n := LeadingLines(items, text);
            && 0 < n <= |items| && WellFolded(items[n..], min, preserve)
            && (Crunch(Expand(items[n..]), min, preserve) == items[n..] ==> Crunch(Expand(items), min, preserve) == items)
  {
    hide Copies, RunLength, Fold, Crunch, Expand;
    var text := items[0].text;
    var n := LeadingLines(items, text);
    LeadingSplit(items, text, min, preserve);
    var rest := items[n..];
    assert n < |items| ==> rest[0] == items[n];
    ExpandFirst(rest, min, preserve);
    ExpandConcat(Copies(Line(text), n), rest);
    ExpandCopies(text, n);
    CrunchRun(text, n, Expand(rest), min, preserve);
    FoldLong(text, n, min);
  }

  /** The output is the only well folded list of items that expands to the input. */
  lemma CrunchExactly(lines: seq<string>, min: int, preserve: string -> bool, items: seq<Item>)
    ensures items == Crunch(lines, min, preserve) <==> Expand(items) == lines && WellFolded(items, min, preserve)
  {
    hide Crunch, Expand, WellFolded;
    CrunchLossless(lines, min, preserve);
    CrunchWellFolded(lines, min, preserve);
    if WellFolded(items, min, preserve) {
      FoldedOnce(items, min, preserve);
    }
  }

  // ---- DiffCrunch ------------------------------------------------------------------------------

  datatype DiffItem = Shown(text: string) | Folded(count: int)

  predicate IsContext(line: string) {
    line != "" && line[0] == ' '
  }

  function Marker(context: nat, max: int): seq<DiffItem> {
    if context > max then [Folded(context - max)] else []
  }

  /** What one line adds when `context` context lines have just passed. */
  function Emit(line: string, context: nat, max: int): seq<DiffItem> {
    if IsContext(line) then if context + 1 <= max then [Shown(line)] else []
    else Marker(context, max) + [Shown(line)]
  }

  function NextContext(line: string, context: nat): nat {
    if IsContext(line) then context + 1 else 0
  }

  function Diff(lines: seq<string>, context: nat, max: int): seq<DiffItem>
    decreases |lines|
  {
    if lines == [] then Marker(context, max)
    else Emit(lines[0], context, max) + Diff(lines[1..], NextContext(lines[0], context), max)
  }

  method EmitLine(line: string, context: nat, max: int, items: seq<DiffItem>) returns (items': seq<DiffItem>, context': nat)
    ensures items' == items + Emit(line, context, max) && context' == NextContext(line, context)
  {
    items', context' := items, context;
    if IsContext(line) {
      context' := context + 1;
      if context' <= max {
        items' := items' + [Shown(line)];
      }
    } else {
      if context > max {
        items' := items' + [Folded(context - max)];
      }
      items' := items' + [Shown(line)];
      context' := 0;
    }
  }

  method DiffCrunch(lines: seq<string>, max: int) returns (items: seq<DiffItem>, saved: int)
    ensures items == Diff(lines, 0, max)
    ensures saved == |lines| - |items|
  {
    hide Emit;
    items := [];
    var context: nat := 0;
    assert lines[0..] == lines;
    for i := 0 to |lines|
      invariant items + Diff(lines[i..], context, max) == Diff(lines, 0, max)
    {
      assert lines[i..][0] == lines[i] && lines[i..][1..] == lines[i + 1..];
      Assoc(items, Emit(lines[i], context, max), Diff(lines[i + 1..], NextContext(lines[i], context), max));
      items, context := EmitLine(lines[i], context, max, items);
    }
    if context > max {
      items := items + [Folded(context - max)];
    } else {
      assert items + [] == items;
    }
    saved := |lines| - |items|;
  }

  /** The changed lines of a diff. */
  function Changes(lines: seq<string>): (r: seq<string>)
    ensures |r| <= |lines|
  {
    if lines == [] then [] else (if IsContext(lines[0]) then [] else [lines[0]]) + Changes(lines[1..])
  }

  /** The number of its context lines. */
  function ContextCount(lines: seq<string>): nat {
    |lines| - |Changes(lines)|
  }

  function ShownLines(items: seq<DiffItem>): seq<string> {
    if items == [] then [] else ShownOne(items[0]) + ShownLines(items[1..])
  }

  function ShownOne(item: DiffItem): seq<string> {
    if item.Shown? then [item.text] else []
  }

  function FoldedCount(items: seq<DiffItem>): int {
    if items == [] then 0 else (if items[0].Folded? then items[0].count else 0) + FoldedCount(items[1..])
  }

  lemma {:induction false} ShownConcat(a: seq<DiffItem>, b: seq<DiffItem>)
    ensures ShownLines(a + b) == ShownLines(a) + ShownLines(b)
  {
    hide ShownOne;
    if a == [] {
      assert a + b == b;
    } else {
      ShownConcat(a[1..], b);
      ConcatTail(a, b);
      Assoc(ShownOne(a[0]), ShownLines(a[1..]), ShownLines(b));
    }
  }

  lemma {:induction false} FoldedConcat(a: seq<DiffItem>, b: seq<DiffItem>)
    ensures FoldedCount(a + b) == FoldedCount(a) + FoldedCount(b)
  {
    if a == [] {
      assert a + b == b;
    } else {
      FoldedConcat(a[1..], b);
      assert (a + b)[1..] == a[1..] + b;
    }
  }

  lemma {:induction false} ChangesConcat(a: seq<string>, b: seq<string>)
    ensures Changes(a + b) == Changes(a) + Changes(b)
  {
    hide IsContext;
    if a == [] {
      assert a + b == b;
    } else {
      ChangesConcat(a[1..], b);
      assert (a + b)[1..] == a[1..] + b;
      Assoc(if IsContext(a[0]) then [] else [a[0]], Changes(a[1..]), Changes(b));
    }
  }

  /** Context lines that a marker has to account for at the end of a block. */
  function Pending(context: nat, max: int): nat {
    if context > max then context - max else 0
  }

  lemma EmitCounts(line: string, context: nat, max: int)
    requires max >= 0
    ensures Changes(ShownLines(Emit(line, context, max))) == Changes([line])
    ensures ContextCount(ShownLines(Emit(line, context, max))) + FoldedCount(Emit(line, context, max))
            + Pending(NextContext(line, context), max) == ContextCount([line]) + Pending(context, max)
  {
    var e := Emit(line, context, max);
    assert [line][1..] == [];
    if IsContext(line) {
      assert e == [] || (e == [Shown(line)] && e[1..] == []);
    } else {
      var m := Marker(context, max);
      assert m == [] || m[1..] == [];
      assert [Shown(line)][1..] == [];
      ShownConcat(m, [Shown(line)]);
      FoldedConcat(m, [Shown(line)]);
    }
  }

  /** Every changed line is shown, in order; and the context lines shown plus the
      folded counts are all the context lines. */
  lemma {:induction false} DiffConserves(lines: seq<string>, context: nat, max: int)
    requires max >= 0
    ensures var items := Diff(lines, context, max);
            && Changes(ShownLines(items)) == Changes(lines)
            && ContextCount(ShownLines(items)) + FoldedCount(items) == ContextCount(lines) + Pending(context, max)
    decreases |lines|
  {
    hide Emit, IsContext;
    if lines == [] {
      var m := Marker(context, max);
      assert m == [] || m[1..] == [];
    } else {
      var line, rest := lines[0], lines[1..];
      var e, d := Emit(line, context, max), Diff(rest, NextContext(line, context), max);
      DiffConserves(rest, NextContext(line, context), max);
      EmitCounts(line, context, max);
      ShownConcat(e, d);
      FoldedConcat(e, d);
      ChangesConcat(ShownLines(e), ShownLines(d));
      assert lines == [line] + rest;
      ChangesConcat([line], rest);
    }
  }

  /** With a negative maximum every block is followed by a marker that claims
      too much, so the counts add up if and only if the maximum is not negative. */
  lemma DiffConservesExactly(lines: seq<string>, max: int)
    ensures var items := Diff(lines, 0, max);
            ContextCount(ShownLines(items)) + FoldedCount(items) == ContextCount(lines) <==> max >= 0
  {
    if max >= 0 {
      DiffConserves(lines, 0, max);
    } else {
      NegativeOvercounts(lines, 0, max);
    }
  }

  lemma {:induction false} NegativeOvercounts(lines: seq<string>, context: nat, max: int)
    requires max < 0
    ensures var items := Diff(lines, context, max);
            ContextCount(ShownLines(items)) + FoldedCount(items) > ContextCount(lines) + context
    decreases |lines|
  {
    hide IsContext, Emit;
    if lines == [] {
      var m := Marker(context, max);
      assert m == [Folded(context - max)] && m[1..] == [];
    } else {
      var line, rest := lines[0], lines[1..];
      var e, d := Emit(line, context, max), Diff(rest, NextContext(line, context), max);
      NegativeOvercounts(rest, NextContext(line, context), max);
      NegativeEmit(line, context, max);
      ShownConcat(e, d);
      FoldedConcat(e, d);
      ChangesConcat(ShownLines(e), ShownLines(d));
      assert lines == [line] + rest;
      ChangesConcat([line], rest);
    }
  }

  lemma NegativeEmit(line: string, context: nat, max: int)
    requires max < 0
    ensures var e := Emit(line, context, max);
            ContextCount(ShownLines(e)) + FoldedCount(e) + NextContext(line, context) >= ContextCount([line]) + context
  {
    assert [line][1..] == [];
    if !IsContext(line) {
      var m := Marker(context, max);
      assert m == [Folded(context - max)] && m[1..] == [] && [Shown(line)][1..] == [];
      ShownConcat(m, [Shown(line)]);
      FoldedConcat(m, [Shown(line)]);
    }
  }

  // ---- Diffs, block by block -------------------------------------------------------------------

  /** Lines that start with a blank. */
  ghost predicate AllContext(lines: seq<string>) {
    lines == [] || (" " <= lines[0] && AllContext(lines[1..]))
  }

  lemma ContextIs(line: string)
    ensures IsContext(line) <==> " " <= line
  {
  }

  function ShownAll(lines: seq<string>): seq<DiffItem> {
    if lines == [] then [] else [Shown(lines[0])] + ShownAll(lines[1..])
  }

  /** How many of n more context lines are shown. */
  function Room(n: nat, context: nat, max: int): (r: nat)
    ensures r <= n
  {
    if context >= max then 0 else if max - context < n then max - context else n
  }

  /** A block of context lines shows the first ones, up to the maximum, and a marker with
      the number of the others, if any. */
  lemma {:induction false} DiffBlock(block: seq<string>, rest: seq<string>, context: nat, max: int)
    requires AllContext(block) && (rest == [] || !(" " <= rest[0]))
    ensures Diff(block + rest, context, max) ==
            ShownAll(block[..Room(|block|, context, max)])
            + ((if context + |block| > max then [Folded(context + |block| - max)] else []) + DiffFrom(rest, max))
  {
    hide IsContext, Emit, Room;
    if block == [] {
      assert block + rest == rest;
      if rest != [] {
        ContextIs(rest[0]);
      }
      BlockEnds(rest, context, max);
      assert ShownAll([]) + (Marker(context, max) + DiffFrom(rest, max)) == Marker(context, max) + DiffFrom(rest, max);
    } else {
      hide Diff, ShownAll, DiffFrom;
      DiffBlock(block[1..], rest, context + 1, max);
      ConcatTail(block, rest);
      ContextIs(block[0]);
      ContextStep(block[0], block[1..] + rest, context, max);
      BlockStep(block, context, max);
      Assoc(Emit(block[0], context, max), ShownAll(block[1..][..Room(|block| - 1, context + 1, max)]),
            (if context + |block| > max then [Folded(context + |block| - max)] else []) + DiffFrom(rest, max));
      assert block + rest == [block[0]] + (block[1..] + rest);
    }
  }

  lemma ContextStep(line: string, rest: seq<string>, context: nat, max: int)
    requires IsContext(line)
    ensures Diff([line] + rest, context, max) == Emit(line, context, max) + Diff(rest, context + 1, max)
  {
    hide Emit, IsContext;
    assert ([line] + rest)[1..] == rest;
  }

  /** What follows a block. */
  function DiffFrom(rest: seq<string>, max: int): seq<DiffItem> {
    if rest == [] then [] else [Shown(rest[0])] + Diff(rest[1..], 0, max)
  }

  lemma BlockEnds(rest: seq<string>, context: nat, max: int)
    requires rest == [] || !IsContext(rest[0])
    ensures Diff(rest, context, max) == Marker(context, max) + DiffFrom(rest, max)
  {
    hide IsContext;
    if rest == [] {
      assert Marker(context, max) + [] == Marker(context, max);
    } else {
      Assoc(Marker(context, max), [Shown(rest[0])], Diff(rest[1..], 0, max));
    }
  }

  lemma BlockStep(block: seq<string>, context: nat, max: int)
    requires block != [] && IsContext(block[0])
    ensures ShownAll(block[..Room(|block|, context, max)]) ==
            Emit(block[0], context, max) + ShownAll(block[1..][..Room(|block| - 1, context + 1, max)])
  {
    hide IsContext;
    var room := Room(|block|, context, max);
    if room > 0 {
      assert block[..room][1..] == block[1..][..room - 1];
    } else {
      assert block[..0] == [] && block[1..][..0] == [];
    }
  }
}
