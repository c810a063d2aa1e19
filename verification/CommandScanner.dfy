/** rewriteCompound of internal/discover/registry.go: the index scanner, the
    recursive splitter it refines, and what the splitting preserves. */
module CommandScanner {
  import opened Collections
  import opened Text
  import opened SegmentRewriter

  /** Inside single or double quotes, as the scanner believes. */
  datatype Quotes = Quotes(single: bool, double: bool)

  const UNQUOTED := Quotes(false, false)

  datatype Op = Or | And | Amp | Semi | Pipe

  predicate DoubledAt(s: string, i: nat)
    requires i < |s|
  {
    i + 1 < |s| && s[i + 1] == s[i]
  }

  /** `>&` or `&>`. */
  predicate RedirectAt(s: string, i: nat)
    requires i < |s|
  {
    (i > 0 && s[i - 1] == '>') || (i + 1 < |s| && s[i + 1] == '>')
  }

  /** The operator at position i of unquoted text. */
  function OpAt(s: string, i: nat): Option<Op>
    requires i < |s|
  {
    if s[i] == '|' then Some(if DoubledAt(s, i) then Or else Pipe)
    else if s[i] == '&' && DoubledAt(s, i) then Some(And)
    else if s[i] == '&' && !RedirectAt(s, i) then Some(Amp)
    else if s[i] == ';' then Some(Semi)
    else None
  }

  /** The quote state behind an ordinary character. */
  function Toggle(q: Quotes, c: char): Quotes {
    if c == '\'' && !q.double then Quotes(!q.single, q.double)
    else if c == '"' && !q.single then Quotes(q.single, !q.double)
    else q
  }

  /** The next operator at or behind i, or the end, and the quote state there. */
  function NextOp(s: string, i: nat, q: Quotes): (r: (nat, Quotes))
    ensures r.0 <= |s| && (i <= |s| ==> i <= r.0)
    ensures r.0 < |s| ==> OpAt(s, r.0).Some?
    decreases |s| - i
  {
    if i >= |s| then (|s|, q)
    else if q == UNQUOTED && OpAt(s, i).Some? then (i, q)
    else NextOp(s, i + 1, Toggle(q, s[i]))
  }

  function SkipBlanks(s: string, i: nat): (j: nat)
    requires i <= |s|
    ensures i <= j <= |s| && forall k :: i <= k < j ==> s[k] == ' '
    ensures j < |s| ==> s[j] != ' '
    decreases |s| - i
  {
    if i < |s| && s[i] == ' ' then SkipBlanks(s, i + 1) else i
  }

  /** Where the segment behind the operator at j starts. */
  function NextStart(s: string, j: nat): (k: nat)
    requires j < |s| && OpAt(s, j).Some?
    ensures j < k <= |s|
  {
    match OpAt(s, j).value
    case Or => SkipBlanks(s, j + 2)
    case And => SkipBlanks(s, j + 2)
    case Amp => SkipBlanks(s, j + 1)
    case Semi => j + 1
    case Pipe => j + 1
  }

  /** A compound command: segments, with the text that separates them. */
  datatype Parts =
    | Last(seg: string)
    | Piped(seg: string, tail: string)
    | More(seg: string, op: Op, gap: string, rest: Parts)

  /** Cut at the next operator and go on behind it.  The scan for the operator
      behind the cut starts `skip` characters into the new segment. */
  function Pieces(s: string, start: nat, i: nat, q: Quotes, skip: nat): Parts
    requires start <= |s| && start <= i
    decreases |s| - start
  {
    var (j, q2) := NextOp(s, i, q);
    if j >= |s| || j < start then Last(s[start..])
    else
      var op := OpAt(s, j).value;
      if op == Pipe then Piped(s[start..j], s[j..])
      else
        var k := NextStart(s, j);
        More(s[start..j], op, s[j..k], Pieces(s, k, k + skip, q2, skip))
  }

  /** The separator the scanner writes. */
  function Separator(op: Op, rest: Parts): string {
    match op
    case Or => " || "
    case And => " && "
    case Amp => " & "
    case Pipe => " | "
    case Semi => if FirstChar(rest) == " " then "; " else ";"
  }

  /** The first character behind a cut. */
  function FirstChar(p: Parts): string {
    var s := Source(p);
    if s == "" then "" else s[..1]
  }

  /** The text the parts were cut from. */
  function Source(p: Parts): string {
    match p
    case Last(seg) => seg
    case Piped(seg, tail) => seg + tail
    case More(seg, _, gap, rest) => seg + gap + Source(rest)
  }

  /** The splitter loses nothing: put together again, the parts are the input. */
  lemma {:induction false} PiecesCover(s: string, start: nat, i: nat, q: Quotes, skip: nat)
    requires start <= |s| && start <= i
    ensures Source(Pieces(s, start, i, q, skip)) == s[start..]
    decreases |s| - start
  {
    hide OpAt, NextStart, NextOp;
    var (j, q2) := NextOp(s, i, q);
    if j < |s| && start <= j {
      assert s[start..] == s[start..j] + s[j..];
      if OpAt(s, j).value != Pipe {
        var k := NextStart(s, j);
        PiecesCover(s, k, k + skip, q2, skip);
        SliceThree(s, start, j, k);
      }
    }
  }

  lemma SliceThree(s: string, a: nat, b: nat, c: nat)
    requires a <= b <= c <= |s|
    ensures s[a..] == s[a..b] + s[b..c] + s[c..]
  {
  }

  // ---- Output ------------------------------------------------------------------------------

  /** isInPipe: the segment's output format does not go through a pipe. */
  predicate PipedCommand(seg: string) {
    var fields := Fields(TrimSpace(seg));
    fields != [] && fields[0] in {"find", "fd", "locate"}
  }

  /** The output for the parts, and whether a segment changed. */
  function Render(e: Engine, p: Parts, excluded: set<string>): (string, bool) {
    match p
    case Last(seg) => Rewrite(e, TrimSpace(seg), excluded)
    case Piped(seg, tail) =>
      if PipedCommand(seg) then (TrimSpace(seg) + " " + TrimSpace(tail), false)
      else
        var (r, changed) := Rewrite(e, TrimSpace(seg), excluded);
        (r + " " + TrimSpace(tail), changed)
    case More(seg, op, gap, rest) =>
      var (r, changed) := Rewrite(e, TrimSpace(seg), excluded);
      var (out, more) := Render(e, rest, excluded);
      (r + Separator(op, rest) + out, changed || more)
  }

  /** The scanner's own skip: its loop increment passes over the first character
      of the segment behind an operator. */
  const SKIP := 1

  function Compound(e: Engine, cmd: string, excluded: set<string>): (string, bool) {
    Render(e, Pieces(cmd, 0, 0, UNQUOTED, SKIP), excluded)
  }

  /** What the scanner still has to write when it stands at i. */
  function Remaining(e: Engine, s: string, start: nat, i: nat, q: Quotes, excluded: set<string>): (string, bool)
    requires start <= |s| && start <= i
  {
    Render(e, Pieces(s, start, i, q, SKIP), excluded)
  }

  lemma RemainingOrdinary(e: Engine, s: string, start: nat, i: nat, q: Quotes, excluded: set<string>)
    requires start <= |s| && start <= i < |s| && (q != UNQUOTED || OpAt(s, i).None?)
    ensures Remaining(e, s, start, i, q, excluded) == Remaining(e, s, start, i + 1, Toggle(q, s[i]), excluded)
  {
    hide Render, OpAt, NextStart;
  }

  lemma RemainingPipe(e: Engine, s: string, start: nat, i: nat, excluded: set<string>)
    requires start <= |s| && start <= i < |s| && OpAt(s, i) == Some(Pipe)
    ensures var seg := s[start..i]; var r := Rewrite(e, TrimSpace(seg), excluded);
            Remaining(e, s, start, i, UNQUOTED, excluded) ==
            if PipedCommand(seg) then (TrimSpace(seg) + (" " + TrimSpace(s[i..])), false)
            else (r.0 + (" " + TrimSpace(s[i..])), r.1)
  {
    hide Rewrite, TrimSpace, PipedCommand, OpAt, NextStart;
    assert forall a: string, b: string :: a + " " + b == a + (" " + b);
  }

  lemma RemainingOp(e: Engine, s: string, start: nat, i: nat, k: nat, excluded: set<string>)
      returns (seg: string, op: Op, rest: Parts)
    requires start <= |s| && start <= i < |s| && OpAt(s, i).Some? && OpAt(s, i).value != Pipe
    requires k == NextStart(s, i)
    ensures seg == TrimSpace(s[start..i]) && op == OpAt(s, i).value && Source(rest) == s[k..]
    ensures Remaining(e, s, start, i, UNQUOTED, excluded).0 ==
            Rewrite(e, seg, excluded).0 + Separator(op, rest) + Remaining(e, s, k, k + SKIP, UNQUOTED, excluded).0
    ensures Remaining(e, s, start, i, UNQUOTED, excluded).1 ==
            (Rewrite(e, seg, excluded).1 || Remaining(e, s, k, k + SKIP, UNQUOTED, excluded).1)
  {
    hide Rewrite, TrimSpace, Separator, OpAt, NextStart, Pieces, Source;
    seg, op, rest := TrimSpace(s[start..i]), OpAt(s, i).value, Pieces(s, k, k + SKIP, UNQUOTED, SKIP);
    PiecesOp(s, start, i);
    PiecesCover(s, k, k + SKIP, UNQUOTED, SKIP);
  }

  lemma PiecesOp(s: string, start: nat, i: nat)
    requires start <= |s| && start <= i < |s| && OpAt(s, i).Some? && OpAt(s, i).value != Pipe
    ensures var k := NextStart(s, i);
            Pieces(s, start, i, UNQUOTED, SKIP) ==
            More(s[start..i], OpAt(s, i).value, s[i..k], Pieces(s, k, k + SKIP, UNQUOTED, SKIP))
  {
    hide OpAt, NextStart;
    assert NextOp(s, i, UNQUOTED) == (i, UNQUOTED);
  }

  lemma RemainingEnd(e: Engine, s: string, start: nat, i: nat, q: Quotes, excluded: set<string>)
    requires start <= |s| <= i
    ensures Remaining(e, s, start, i, q, excluded) == Rewrite(e, TrimSpace(s[start..]), excluded)
  {
    hide Rewrite, TrimSpace;
  }

  method SkipSpaces(cmd: string, from: nat) returns (i: nat)
    requires from <= |cmd|
    ensures i == SkipBlanks(cmd, from)
  {
    i := from;
    while i < |cmd| && cmd[i] == ' '
      invariant from <= i <= |cmd| && SkipBlanks(cmd, i) == SkipBlanks(cmd, from)
    {
      i := i + 1;
    }
  }

  /** Step over the operator at i: the separator to write and the next segment. */
  method PassOperator(cmd: string, i: nat) returns (separator: string, next: nat)
    requires i < |cmd| && OpAt(cmd, i).Some? && OpAt(cmd, i).value != Pipe
    ensures next == NextStart(cmd, i)
    ensures forall rest :: Source(rest) == cmd[next..] ==> separator == Separator(OpAt(cmd, i).value, rest)
  {
    if cmd[i] == '|' {
      separator := " || ";
      next := SkipSpaces(cmd, i + 2);
    } else if cmd[i] == '&' && i + 1 < |cmd| && cmd[i + 1] == '&' {
      separator := " && ";
      next := SkipSpaces(cmd, i + 2);
    } else if cmd[i] == '&' {
      separator := " & ";
      next := SkipSpaces(cmd, i + 1);
    } else {
      separator := ";";
      next := i + 1;
      if next < |cmd| && cmd[next] == ' ' {
        separator := separator + " ";
      }
      assert next < |cmd| ==> cmd[next..][..1] == [cmd[next]];
    }
  }

  method RewriteCompound(e: Engine, cmd: string, excluded: set<string>) returns (result: string, anyChanged: bool)
    ensures (result, anyChanged) == Compound(e, cmd, excluded)
  {
    hide Rewrite, TrimSpace, PipedCommand, Separator, OpAt, NextStart, Pieces, Render, Source;
    var b := "";
    anyChanged := false;
    var segStart: nat := 0;
    var q := UNQUOTED;
    var i: nat := 0;
    ghost var whole := Compound(e, cmd, excluded);
    while i < |cmd|
      invariant segStart <= |cmd| && segStart <= i
      invariant whole.0 == b + Remaining(e, cmd, segStart, i, q, excluded).0
      invariant whole.1 == (anyChanged || Remaining(e, cmd, segStart, i, q, excluded).1)
      decreases |cmd| - i
    {
      if q != UNQUOTED || OpAt(cmd, i).None? {
        RemainingOrdinary(e, cmd, segStart, i, q, excluded);
        q := Toggle(q, cmd[i]);
        i := i + 1;
      } else {
        var seg := TrimSpace(cmd[segStart..i]);
        var (rewritten, changed) := Rewrite(e, seg, excluded);
        if OpAt(cmd, i).value == Pipe {
          RemainingPipe(e, cmd, segStart, i, excluded);
          if PipedCommand(cmd[segStart..i]) {
            rewritten, changed := seg, false;
          }
          anyChanged := anyChanged || changed;
          result := b + (rewritten + (" " + TrimSpace(cmd[i..])));
          return;
        }
        anyChanged := anyChanged || changed;
        var separator, next := PassOperator(cmd, i);
        ghost var _, _, rest := RemainingOp(e, cmd, segStart, i, next, excluded);
        ghost var more := Remaining(e, cmd, next, next + SKIP, q, excluded).0;
        assert b + (rewritten + separator + more) == (b + (rewritten + separator)) + more;
        b := b + (rewritten + separator);
        segStart := next;
        i := next + 1;
      }
    }
    RemainingEnd(e, cmd, segStart, i, q, excluded);
    var (rewritten, changed) := Rewrite(e, TrimSpace(cmd[segStart..]), excluded);
    anyChanged := anyChanged || changed;
    result := b + rewritten;
  }

  // ---- What rewriting keeps ------------------------------------------------------------------------

  /** The characters that are not white space, in order. */
  function NonBlank(s: string): string {
    if s == "" then "" else (if IsSpace(s[0]) then "" else s[..1]) + NonBlank(s[1..])
  }

  predicate Blank(s: string) {
    forall i :: 0 <= i < |s| ==> IsSpace(s[i])
  }

  lemma {:induction false} NonBlankConcat(a: string, b: string)
    ensures NonBlank(a + b) == NonBlank(a) + NonBlank(b)
  {
    if a == "" {
      assert a + b == b;
    } else {
      hide IsSpace;
      NonBlankConcat(a[1..], b);
      ConcatTail(a, b);
      assert (a + b)[..1] == a[..1];
      Assoc(if IsSpace(a[0]) then "" else a[..1], NonBlank(a[1..]), NonBlank(b));
    }
  }

  lemma {:induction false} NonBlankSpaces(s: string)
    requires Blank(s)
    ensures NonBlank(s) == ""
  {
    if s != "" {
      NonBlankSpaces(s[1..]);
    }
  }

  lemma NonBlankTrim(s: string)
    ensures NonBlank(TrimSpace(s)) == NonBlank(s)
  {
    hide NonBlank;
    NonBlankTrimLeft(s);
    NonBlankTrimRight(TrimLeft(s));
  }

  lemma NonBlankTrimLeft(s: string)
    ensures NonBlank(TrimLeft(s)) == NonBlank(s)
  {
    hide NonBlank, TrimLeft, IsSpace;
    var l := TrimLeft(s);
    var n := |s| - |l|;
    assert s == s[..n] + l + "";
    NonBlankParts(s, s[..n], l, "");
  }

  lemma NonBlankTrimRight(s: string)
    ensures NonBlank(TrimRight(s)) == NonBlank(s)
  {
    hide NonBlank, TrimRight, IsSpace;
    var r := TrimRight(s);
    assert s == "" + r + s[|r|..];
    NonBlankParts(s, "", r, s[|r|..]);
  }

  /** White space around a text adds nothing to it. */
  lemma NonBlankParts(s: string, a: string, b: string, c: string)
    requires s == a + b + c
    requires Blank(a) && Blank(c)
    ensures NonBlank(s) == NonBlank(b)
  {
    hide NonBlank, IsSpace;
    NonBlankConcat(a + b, c);
    NonBlankConcat(a, b);
    NonBlankSpaces(a);
    NonBlankSpaces(c);
  }

  // ---- What one rewritten command keeps --------------------------------------------------------------

  lemma PrefixText(cmd: string, prefix: string)
    requires StripWordPrefix(cmd, prefix).Some?
    ensures NonBlank(cmd) == NonBlank(prefix) + NonBlank(StripWordPrefix(cmd, prefix).value)
  {
    hide NonBlank, TrimSpace;
    if cmd == prefix {
      assert NonBlank("") == "" by { NonBlankSpaces(""); }
    } else {
      var rest := cmd[|prefix| + 1..];
      assert cmd == prefix + (" " + rest);
      NonBlankConcat(prefix, " " + rest);
      NonBlankConcat(" ", rest);
      NonBlankSpaces(" ");
      NonBlankTrim(rest);
    }
  }

  lemma {:induction false} FirstRestText(cmd: string, prefixes: seq<string>) returns (prefix: string)
    requires FirstRest(cmd, prefixes).Some?
    ensures prefix in prefixes && prefix <= cmd
    ensures NonBlank(cmd) == NonBlank(prefix) + NonBlank(FirstRest(cmd, prefixes).value)
  {
    hide NonBlank;
    if StripWordPrefix(cmd, prefixes[0]).Some? {
      prefix := prefixes[0];
      PrefixText(cmd, prefix);
    } else {
      prefix := FirstRestText(cmd, prefixes[1..]);
    }
  }

  lemma CommandText(env: string, command: string, rest: string)
    ensures NonBlank(env + command + (if rest == "" then "" else " " + rest)) ==
            NonBlank(env) + NonBlank(command) + NonBlank(rest)
  {
    hide NonBlank;
    NonBlankConcat(env, command);
    NonBlankConcat(env + command, if rest == "" then "" else " " + rest);
    NonBlankConcat(" ", rest);
    NonBlankSpaces(" ");
  }

  /** A rule replaces one of its prefixes by its command; the env prefix in front
      and the arguments behind keep all their characters but white space. */
  lemma RuleKeepsArguments(e: Engine, seg: string, trimmed: string, env: string, cmd: string, excluded: set<string>)
      returns (rule: Rule, prefix: string, arguments: string)
    requires ApplyRule(e, seg, trimmed, env, cmd, excluded).1
    ensures rule in e.rules && prefix in rule.prefixes && prefix <= cmd
    ensures NonBlank(cmd) == NonBlank(prefix) + arguments
    ensures NonBlank(ApplyRule(e, seg, trimmed, env, cmd, excluded).0) == NonBlank(env) + NonBlank(rule.command) + arguments
    ensures Fields(cmd) != [] ==> Fields(cmd)[0] !in excluded
  {
    hide NonBlank, Classify, Fields;
    rule := FindRule(e.rules, Classify(e, trimmed).value.command).value;
    var rest := FirstRest(cmd, rule.prefixes).value;
    prefix := FirstRestText(cmd, rule.prefixes);
    arguments := NonBlank(rest);
    CommandText(env, rule.command, rest);
  }

  function OpText(op: Op): string {
    match op case Or => "||" case And => "&&" case Amp => "&" case Semi => ";" case Pipe => "|"
  }

  /** The non-blank text of the input: segments and operators, then the piped tail. */
  function InText(p: Parts): string {
    match p
    case Last(seg) => NonBlank(seg)
    case Piped(seg, tail) => NonBlank(seg) + NonBlank(tail)
    case More(seg, op, _, rest) => NonBlank(seg) + OpText(op) + InText(rest)
  }

  /** The same with every segment replaced by its rewrite; a segment piped out of
      find, fd or locate is kept. */
  function OutText(e: Engine, p: Parts, excluded: set<string>): string {
    match p
    case Last(seg) => NonBlank(Rewrite(e, TrimSpace(seg), excluded).0)
    case Piped(seg, tail) =>
      (if PipedCommand(seg) then NonBlank(seg) else NonBlank(Rewrite(e, TrimSpace(seg), excluded).0)) + NonBlank(tail)
    case More(seg, op, _, rest) =>
      NonBlank(Rewrite(e, TrimSpace(seg), excluded).0) + OpText(op) + OutText(e, rest, excluded)
  }

  lemma SplitSlice(s: string, a: nat, b: nat, c: nat)
    requires a <= b <= c <= |s|
    ensures s[a..c] == s[a..b] + s[b..c]
  {
  }

  lemma GapBlanks(s: string, j: nat, n: nat)
    requires j < |s| && OpAt(s, j).Some? && OpAt(s, j).value != Pipe
    requires n == if OpAt(s, j).value == Or || OpAt(s, j).value == And then 2 else 1
    ensures j + n <= NextStart(s, j)
    ensures Blank(s[j + n..NextStart(s, j)])
  {
  }

  lemma GapText(s: string, j: nat)
    requires j < |s| && OpAt(s, j).Some? && OpAt(s, j).value != Pipe
    ensures NonBlank(s[j..NextStart(s, j)]) == OpText(OpAt(s, j).value)
  {
    var k, op := NextStart(s, j), OpAt(s, j).value;
    var n := if op == Or || op == And then 2 else 1;
    var blanks := s[j + n..k];
    assert s[j..j + n] == OpText(op);
    GapBlanks(s, j, n);
    hide *;
    SplitSlice(s, j, j + n, k);
    NonBlankConcat(OpText(op), blanks);
    NonBlankSpaces(blanks);
    OpTextNonBlank(op);
  }

  lemma OpTextNonBlank(op: Op)
    ensures NonBlank(OpText(op)) == OpText(op)
  {
    OneNonBlank('|');
    OneNonBlank('&');
    OneNonBlank(';');
    NonBlankConcat("|", "|");
    NonBlankConcat("&", "&");
    assert "|" + "|" == "||" && "&" + "&" == "&&";
  }

  lemma OneNonBlank(c: char)
    requires !IsSpace(c)
    ensures NonBlank([c]) == [c]
  {
    assert [c][1..] == "" && [c][..1] == [c];
  }

  /** The input is made of the segments and operators of its parts. */
  lemma {:induction false} InputText(s: string, start: nat, i: nat, q: Quotes, skip: nat)
    requires start <= |s| && start <= i
    ensures NonBlank(s[start..]) == InText(Pieces(s, start, i, q, skip))
    decreases |s| - start
  {
    hide OpAt, NextStart, NonBlank, NextOp, OpText;
    var (j, q2) := NextOp(s, i, q);
    if j < |s| && start <= j {
      SliceDrop(s, start, j);
      NonBlankConcat(s[start..j], s[j..]);
      if OpAt(s, j).value != Pipe {
        var k := NextStart(s, j);
        InputText(s, k, k + skip, q2, skip);
        GapText(s, j);
        SliceDrop(s, j, k);
        NonBlankConcat(s[j..k], s[k..]);
        Assoc(NonBlank(s[start..j]), OpText(OpAt(s, j).value), NonBlank(s[k..]));
      }
    }
  }

  lemma SeparatorText(op: Op, rest: Parts)
    ensures NonBlank(Separator(op, rest)) == OpText(op)
  {
    hide FirstChar, NonBlank;
    OpTextNonBlank(op);
    var sep, t := Separator(op, rest), OpText(op);
    if op == Semi {
      NonBlankParts(sep, "", t, sep[1..]);
    } else {
      NonBlankParts(sep, " ", t, " ");
    }
  }

  lemma PipeText(seg: string, tail: string)
    ensures NonBlank(seg + " " + TrimSpace(tail)) == NonBlank(seg) + NonBlank(tail)
  {
    hide TrimSpace;
    NonBlankTrim(tail);
    NonBlankConcat(seg + " ", TrimSpace(tail));
    NonBlankConcat(seg, " ");
    NonBlankSpaces(" ");
  }

  /** The output is the input with the segments rewritten: operators and piped
      tail are the same and in the same order. */
  lemma {:induction false} OutputText(e: Engine, p: Parts, excluded: set<string>)
    ensures NonBlank(Render(e, p, excluded).0) == OutText(e, p, excluded)
  {
    hide Rewrite, TrimSpace, PipedCommand, Separator, NonBlank;
    match p
    case Last(seg) =>
    case Piped(seg, tail) =>
      PipeText(TrimSpace(seg), tail);
      PipeText(Rewrite(e, TrimSpace(seg), excluded).0, tail);
      NonBlankTrim(seg);
    case More(seg, op, _, rest) =>
      OutputText(e, rest, excluded);
      var r, sep := Rewrite(e, TrimSpace(seg), excluded).0, Separator(op, rest);
      SeparatorText(op, rest);
      NonBlankConcat(r + sep, Render(e, rest, excluded).0);
      NonBlankConcat(r, sep);
  }

  lemma {:induction false} UnchangedText(e: Engine, p: Parts, excluded: set<string>)
    requires !Render(e, p, excluded).1
    ensures OutText(e, p, excluded) == InText(p)
  {
    hide Rewrite, TrimSpace, PipedCommand, NonBlank, Separator;
    var seg := p.seg;
    if !Rewrite(e, TrimSpace(seg), excluded).1 {
      UnchangedShape(e, TrimSpace(seg), excluded);
      NonBlankTrim(seg);
      NonBlankTrim(TrimSpace(seg));
    }
    if p.More? {
      UnchangedText(e, p.rest, excluded);
    }
  }

  /** When no segment changes, input and output differ in white space only. */
  lemma CompoundUnchanged(e: Engine, cmd: string, excluded: set<string>)
    requires !Compound(e, cmd, excluded).1
    ensures NonBlank(Compound(e, cmd, excluded).0) == NonBlank(cmd)
  {
    hide Render, Pieces, NonBlank;
    var p := Pieces(cmd, 0, 0, UNQUOTED, SKIP);
    OutputText(e, p, excluded);
    UnchangedText(e, p, excluded);
    InputText(cmd, 0, 0, UNQUOTED, SKIP);
    assert cmd[0..] == cmd;
  }

  // ---- The skipped character ---------------------------------------------------------------------------

  /** A character that neither quotes nor separates. */
  predicate Plain(c: char) {
    c != '\'' && c != '"' && c != '|' && c != '&' && c != ';'
  }

  /** The quote state in front of position i when every character counts. */
  ghost function QuotesAt(s: string, i: nat): Quotes
    requires i <= |s|
  {
    if i == 0 then UNQUOTED else Toggle(QuotesAt(s, i - 1), s[i - 1])
  }

  /** Every cut falls outside quotes. */
  ghost predicate CutsUnquoted(s: string, start: nat, p: Parts)
    decreases p
  {
    p.Last? || (
      var j := start + |p.seg|;
      && j <= |s| && QuotesAt(s, j) == UNQUOTED
      && (p.More? ==> CutsUnquoted(s, j + |p.gap|, p.rest)))
  }

  lemma {:induction false} NextOpQuotes(s: string, i: nat, q: Quotes)
    requires i <= |s| && q == QuotesAt(s, i)
    ensures NextOp(s, i, q).1 == QuotesAt(s, NextOp(s, i, q).0)
    decreases |s| - i
  {
    hide OpAt;
    if i < |s| && !(q == UNQUOTED && OpAt(s, i).Some?) {
      NextOpQuotes(s, i + 1, Toggle(q, s[i]));
    }
  }

  lemma {:induction false} PlainQuotes(s: string, i: nat, j: nat)
    requires i <= j <= |s| && forall k :: i <= k < j ==> s[k] != '\'' && s[k] != '"'
    ensures QuotesAt(s, j) == QuotesAt(s, i)
  {
    if i < j {
      PlainQuotes(s, i, j - 1);
    }
  }

  lemma GapPlain(s: string, j: nat)
    requires j < |s| && OpAt(s, j).Some?
    ensures forall k :: j <= k < NextStart(s, j) ==> s[k] != '\'' && s[k] != '"'
  {
  }

  /** The splitter that inspects every character never cuts inside quotes. */
  lemma {:induction false} InspectingCutsUnquoted(s: string, start: nat, i: nat)
    requires start <= i <= |s|
    ensures CutsUnquoted(s, start, Pieces(s, start, i, QuotesAt(s, i), 0))
    decreases |s| - start
  {
    hide OpAt, NextStart, NextOp, QuotesAt;
    var q := QuotesAt(s, i);
    var (j, q2) := NextOp(s, i, q);
    NextOpQuotes(s, i, q);
    if j < |s| {
      NextOpUnquoted(s, i, q);
      if OpAt(s, j).value != Pipe {
        var k := NextStart(s, j);
        GapPlain(s, j);
        PlainQuotes(s, j, k);
        InspectingCutsUnquoted(s, k, k);
      }
    }
  }

  lemma NextOpUnquoted(s: string, i: nat, q: Quotes)
    requires NextOp(s, i, q).0 < |s|
    ensures NextOp(s, i, q).1 == UNQUOTED
    decreases |s| - i
  {
  }

  predicate Quote(c: char) {
    c == '\'' || c == '"'
  }

  /** Whether the first character of the segment at k may be skipped: it starts no
      operator, and a quote stands in front of no operator under either reading. */
  ghost predicate Harmless(s: string, k: nat)
    requires k <= |s|
  {
    k == |s| || (
      && OpAt(s, k).None?
      && (Quote(s[k]) ==> NextOp(s, k + 1, UNQUOTED).0 == NextOp(s, k + 1, Toggle(UNQUOTED, s[k])).0 == |s|))
  }

  /** So for all segments of the splitter that inspects every character. */
  ghost predicate AllHarmless(s: string, start: nat, i: nat, q: Quotes)
    requires start <= |s| && start <= i
    decreases |s| - start
  {
    var (j, q2) := NextOp(s, i, q);
    j < |s| && start <= j && OpAt(s, j).value != Pipe ==>
      var k := NextStart(s, j);
      Harmless(s, k) && AllHarmless(s, k, k, q2)
  }

  predicate Proper(q: Quotes) {
    !(q.single && q.double)
  }

  /** Different quote states stay different, so they never see the same operator. */
  lemma {:induction false} QuotesApart(s: string, i: nat, q1: Quotes, q2: Quotes)
    requires i <= |s| && q1 != q2 && Proper(q1) && Proper(q2)
    requires NextOp(s, i, q1).0 == NextOp(s, i, q2).0
    ensures NextOp(s, i, q1).0 == |s|
    decreases |s| - i
  {
    hide OpAt;
    if i < |s| && !(OpAt(s, i).Some? && (q1 == UNQUOTED || q2 == UNQUOTED)) {
      QuotesApart(s, i + 1, Toggle(q1, s[i]), Toggle(q2, s[i]));
    }
  }

  /** The first cut decides how the parts begin. */
  lemma PiecesFirst(s: string, k: nat, i: nat, q: Quotes, skip: nat)
    requires k <= |s| && k <= i
    ensures var p, j := Pieces(s, k, i, q, skip), NextOp(s, i, q).0;
            && (j < |s| && k <= j ==> !p.Last? && p.seg == s[k..j])
            && (j == |s| ==> p == Last(s[k..]))
  {
    hide OpAt, NextStart;
  }

  /** Skipping the first character of the segment at k changes nothing exactly if
      it is harmless there and further on. */
  lemma {:induction false} SegmentExactly(s: string, k: nat)
    requires k <= |s|
    ensures Pieces(s, k, k + SKIP, UNQUOTED, SKIP) == Pieces(s, k, k, UNQUOTED, 0) <==>
            Harmless(s, k) && AllHarmless(s, k, k, UNQUOTED)
    decreases |s| - k, 1
  {
    hide OpAt, NextStart, Pieces;
    PiecesFirst(s, k, k + SKIP, UNQUOTED, SKIP);
    PiecesFirst(s, k, k, UNQUOTED, 0);
    if k < |s| && OpAt(s, k).None? {
      var q := Toggle(UNQUOTED, s[k]);
      assert NextOp(s, k, UNQUOTED) == NextOp(s, k + 1, q);
      if Quote(s[k]) {
        if NextOp(s, k + 1, UNQUOTED).0 == NextOp(s, k + 1, q).0 {
          QuotesApart(s, k + 1, UNQUOTED, q);
        }
      } else {
        SkipExactly(s, k, k + 1, UNQUOTED);
        PiecesSame(s, k, k, k + 1);
      }
    }
  }

  lemma PiecesSame(s: string, k: nat, i: nat, j: nat)
    requires k <= |s| && k <= i && k <= j && NextOp(s, i, UNQUOTED) == NextOp(s, j, UNQUOTED)
    ensures Pieces(s, k, i, UNQUOTED, 0) == Pieces(s, k, j, UNQUOTED, 0)
    ensures AllHarmless(s, k, i, UNQUOTED) == AllHarmless(s, k, j, UNQUOTED)
  {
    hide OpAt, NextStart, NextOp, Harmless;
  }

  /** The scanner cuts as the splitter does that inspects every character, if and
      only if all segments of that splitter are harmless. */
  lemma {:induction false} SkipExactly(s: string, start: nat, i: nat, q: Quotes)
    requires start <= |s| && start <= i
    ensures Pieces(s, start, i, q, SKIP) == Pieces(s, start, i, q, 0) <==> AllHarmless(s, start, i, q)
    decreases |s| - start, 0
  {
    hide NextStart, OpAt, NextOp, Harmless;
    var (j, q2) := NextOp(s, i, q);
    if j < |s| && start <= j && OpAt(s, j).value != Pipe {
      NextOpUnquoted(s, i, q);
      SegmentExactly(s, NextStart(s, j));
    }
  }

  lemma {:induction false} ProperAt(s: string, i: nat)
    requires i <= |s|
    ensures Proper(QuotesAt(s, i))
  {
    if i > 0 {
      ProperAt(s, i - 1);
    }
  }

  /** A scan with the wrong quote state reaches the next cut with a wrong one. */
  lemma {:induction false} WrongStays(s: string, i: nat, q: Quotes)
    requires i <= |s| && q != QuotesAt(s, i) && Proper(q)
    ensures NextOp(s, i, q).1 != QuotesAt(s, NextOp(s, i, q).0)
    decreases |s| - i
  {
    hide OpAt;
    ProperAt(s, i);
    if i < |s| && !(q == UNQUOTED && OpAt(s, i).Some?) {
      WrongStays(s, i + 1, Toggle(q, s[i]));
    }
  }

  /** Behind an operator, only the last segment may start with a quote. */
  predicate QuotesStartLast(p: Parts) {
    p.More? ==>
      && (p.rest.Last? || Source(p.rest) == "" || !Quote(Source(p.rest)[0]))
      && QuotesStartLast(p.rest)
  }

  /** A segment that starts with a quote, which the scanner skips, is cut inside
      quotes if it is cut at all. */
  lemma QuotedSegment(s: string, k: nat)
    requires k < |s| && Quote(s[k]) && QuotesAt(s, k) == UNQUOTED
    ensures var p := Pieces(s, k, k + SKIP, UNQUOTED, SKIP); CutsUnquoted(s, k, p) <==> p.Last?
  {
    hide OpAt, NextStart, Pieces, NextOp, QuotesAt, CutsUnquoted;
    var p := Pieces(s, k, k + SKIP, UNQUOTED, SKIP);
    PiecesFirst(s, k, k + SKIP, UNQUOTED, SKIP);
    QuoteOpens(s, k);
    WrongStays(s, k + 1, UNQUOTED);
    if NextOp(s, k + 1, UNQUOTED).0 < |s| {
      NextOpUnquoted(s, k + 1, UNQUOTED);
    }
    CutsFirst(s, k, p);
  }

  lemma QuoteOpens(s: string, k: nat)
    requires k < |s| && Quote(s[k]) && QuotesAt(s, k) == UNQUOTED
    ensures QuotesAt(s, k + 1) != UNQUOTED
  {
  }

  lemma CutsFirst(s: string, start: nat, p: Parts)
    ensures p.Last? ==> CutsUnquoted(s, start, p)
    ensures !p.Last? && CutsUnquoted(s, start, p) ==>
              start + |p.seg| <= |s| && QuotesAt(s, start + |p.seg|) == UNQUOTED
  {
    hide QuotesAt;
  }

  /** From a right quote state on, the scanner cuts outside quotes if and only if
      no segment but the last one starts with a quote behind an operator. */
  lemma {:induction false} CutsUnquotedExactly(s: string, start: nat, i: nat)
    requires start <= i <= |s|
    ensures var p := Pieces(s, start, i, QuotesAt(s, i), SKIP); CutsUnquoted(s, start, p) <==> QuotesStartLast(p)
    decreases |s| - start, 0
  {
    hide OpAt, NextStart, NextOp, QuotesAt, Source;
    var q := QuotesAt(s, i);
    var (j, q2) := NextOp(s, i, q);
    NextOpQuotes(s, i, q);
    if j < |s| {
      NextOpUnquoted(s, i, q);
      if OpAt(s, j).value != Pipe {
        var k := NextStart(s, j);
        GapPlain(s, j);
        PlainQuotes(s, j, k);
        SegmentCuts(s, k);
      }
    }
  }

  /** What the segment behind an operator, and those after it, contribute. */
  lemma {:induction false} SegmentCuts(s: string, k: nat)
    requires k <= |s| && QuotesAt(s, k) == UNQUOTED
    ensures var p := Pieces(s, k, k + SKIP, UNQUOTED, SKIP);
            CutsUnquoted(s, k, p) <==>
            (p.Last? || Source(p) == "" || !Quote(Source(p)[0])) && QuotesStartLast(p)
    decreases |s| - k, 1
  {
    hide OpAt, NextStart, NextOp, QuotesAt, Source, Pieces, CutsUnquoted;
    PiecesCover(s, k, k + SKIP, UNQUOTED, SKIP);
    NextSegment(s, k);
    CutsFirst(s, k, Pieces(s, k, k + SKIP, UNQUOTED, SKIP));
    if k < |s| && Quote(s[k]) {
      QuotedSegment(s, k);
    } else if k < |s| {
      CutsUnquotedExactly(s, k, k + 1);
    }
  }

  /** The start of the segment at k, and the quote state behind it. */
  lemma NextSegment(s: string, k: nat)
    requires k <= |s| && QuotesAt(s, k) == UNQUOTED
    ensures k == |s| ==> Pieces(s, k, k + SKIP, UNQUOTED, SKIP).Last?
    ensures k < |s| ==> s[k..][0] == s[k]
    ensures k < |s| && !Quote(s[k]) ==> QuotesAt(s, k + 1) == UNQUOTED
  {
    hide OpAt;
  }

  /** So for every command. */
  lemma ScannerCutsUnquoted(cmd: string)
    ensures var p := Pieces(cmd, 0, 0, UNQUOTED, SKIP); CutsUnquoted(cmd, 0, p) <==> QuotesStartLast(p)
  {
    hide Pieces, CutsUnquoted, QuotesStartLast;
    CutsUnquotedExactly(cmd, 0, 0);
  }

  /** No segment of the splitter that inspects every character starts with an operator. */
  ghost predicate NoOpStarts(s: string, start: nat, i: nat, q: Quotes)
    requires start <= |s| && start <= i
    decreases |s| - start
  {
    var (j, q2) := NextOp(s, i, q);
    j < |s| && start <= j && OpAt(s, j).value != Pipe ==>
      var k := NextStart(s, j);
      (k < |s| ==> OpAt(s, k).None?) && NoOpStarts(s, k, k, q2)
  }

  /** Its first segment behind an operator that starts with a quote, if any, has no
      operator behind it once that quote is ignored. */
  ghost predicate FirstQuoteQuiet(s: string, start: nat, i: nat, q: Quotes)
    requires start <= |s| && start <= i
    decreases |s| - start
  {
    var (j, q2) := NextOp(s, i, q);
    j < |s| && start <= j && OpAt(s, j).value != Pipe ==>
      var k := NextStart(s, j);
      if k < |s| && Quote(s[k]) then NextOp(s, k + 1, UNQUOTED).0 == |s| else FirstQuoteQuiet(s, k, k, q2)
  }

  lemma QuietSame(s: string, k: nat)
    requires k < |s| && OpAt(s, k).None? && !Quote(s[k])
    ensures NoOpStarts(s, k, k, UNQUOTED) == NoOpStarts(s, k, k + 1, UNQUOTED)
    ensures FirstQuoteQuiet(s, k, k, UNQUOTED) == FirstQuoteQuiet(s, k, k + 1, UNQUOTED)
  {
    hide NoOpStarts, FirstQuoteQuiet, OpAt;
    assert NextOp(s, k, UNQUOTED) == NextOp(s, k + 1, UNQUOTED);
    QuietFrom(s, k, k + 1);
  }

  lemma QuietFrom(s: string, k: nat, i: nat)
    requires k <= i && k <= |s| && NextOp(s, k, UNQUOTED) == NextOp(s, i, UNQUOTED)
    ensures NoOpStarts(s, k, k, UNQUOTED) == NoOpStarts(s, k, i, UNQUOTED)
    ensures FirstQuoteQuiet(s, k, k, UNQUOTED) == FirstQuoteQuiet(s, k, i, UNQUOTED)
  {
    hide OpAt, NextStart, NextOp, Quote;
  }

  lemma {:induction false} InspectedCuts(s: string, start: nat, i: nat)
    requires start <= i <= |s| && NoOpStarts(s, start, i, QuotesAt(s, i))
    ensures CutsUnquoted(s, start, Pieces(s, start, i, QuotesAt(s, i), SKIP)) <==>
            FirstQuoteQuiet(s, start, i, QuotesAt(s, i))
    decreases |s| - start, 0
  {
    hide OpAt, NextStart, NextOp, QuotesAt;
    var q := QuotesAt(s, i);
    var (j, q2) := NextOp(s, i, q);
    NextOpQuotes(s, i, q);
    if j < |s| {
      NextOpUnquoted(s, i, q);
      if OpAt(s, j).value != Pipe {
        var k := NextStart(s, j);
        GapPlain(s, j);
        PlainQuotes(s, j, k);
        InspectedSegment(s, k);
      }
    }
  }

  lemma {:induction false} InspectedSegment(s: string, k: nat)
    requires k <= |s| && QuotesAt(s, k) == UNQUOTED && (k < |s| ==> OpAt(s, k).None?) && NoOpStarts(s, k, k, UNQUOTED)
    ensures CutsUnquoted(s, k, Pieces(s, k, k + SKIP, UNQUOTED, SKIP)) <==>
            if k < |s| && Quote(s[k]) then NextOp(s, k + 1, UNQUOTED).0 == |s| else FirstQuoteQuiet(s, k, k, UNQUOTED)
    decreases |s| - k, 1
  {
    hide OpAt, NextStart, NextOp, QuotesAt, Pieces, CutsUnquoted;
    NextSegment(s, k);
    PiecesFirst(s, k, k + SKIP, UNQUOTED, SKIP);
    CutsFirst(s, k, Pieces(s, k, k + SKIP, UNQUOTED, SKIP));
    if k == |s| {
      QuietEnd(s);
    } else if Quote(s[k]) {
      QuotedSegment(s, k);
    } else {
      QuietSame(s, k);
      InspectedCuts(s, k, k + 1);
    }
  }

  lemma QuietEnd(s: string)
    ensures FirstQuoteQuiet(s, |s|, |s|, UNQUOTED)
  {
  }

  /** Where no segment starts with an operator, the cuts fall outside quotes if and
      only if the first quote that starts a segment behind an operator may be
      ignored: then no operator follows. */
  lemma InspectedCutsUnquoted(cmd: string)
    requires NoOpStarts(cmd, 0, 0, UNQUOTED)
    ensures CutsUnquoted(cmd, 0, Pieces(cmd, 0, 0, UNQUOTED, SKIP)) <==> FirstQuoteQuiet(cmd, 0, 0, UNQUOTED)
  {
    hide Pieces, CutsUnquoted, NoOpStarts, FirstQuoteQuiet;
    InspectedCuts(cmd, 0, 0);
  }

  /** A command that is cut inside quotes: the opening quote of the second segment
      is the skipped character. */
  lemma SkipCutsQuoted()
    ensures var s := "a&&'b;c'"; !CutsUnquoted(s, 0, Pieces(s, 0, 0, UNQUOTED, SKIP))
  {
    var s := "a&&'b;c'";
    SecondSegment();
    hide Pieces, QuotesStartLast, CutsUnquoted;
    ScannerCutsUnquoted(s);
  }

  lemma SecondSegment()
    ensures var s := "a&&'b;c'"; !QuotesStartLast(Pieces(s, 0, 0, UNQUOTED, SKIP))
  {
    var s := "a&&'b;c'";
    assert OpAt(s, 0).None? && OpAt(s, 1) == Some(And);
    assert NextOp(s, 0, UNQUOTED) == NextOp(s, 1, UNQUOTED) == (1, UNQUOTED);
    assert NextStart(s, 1) == 3;
    assert OpAt(s, 4).None? && OpAt(s, 5) == Some(Semi);
    assert NextOp(s, 4, UNQUOTED) == NextOp(s, 5, UNQUOTED) == (5, UNQUOTED);
    hide OpAt, NextOp, NextStart, Source;
    assert Pieces(s, 3, 4, UNQUOTED, SKIP).More?;
    PiecesCover(s, 3, 4, UNQUOTED, SKIP);
    assert s[3..][0] == s[3];
  }

  /** Looking for the first operator behind the first character finds the same one. */
  ghost predicate SkipKeepsCut(s: string) {
    NextOp(s, 0, UNQUOTED).0 == NextOp(s, 1, UNQUOTED).0
  }

  /** A segment's first character may be skipped whatever follows it exactly if it
      is plain. */
  lemma SkippableExactly(c: char)
    ensures Plain(c) <==> forall t: string :: SkipKeepsCut([c] + t)
  {
    if Plain(c) {
      forall t: string ensures SkipKeepsCut([c] + t) {
        assert ([c] + t)[0] == c;
      }
    } else {
      var t := if c == '\'' || c == '"' then ";" else "a";
      var s := [c] + t;
      assert s[0] == c && s[1] == t[0];
      assert NextOp(s, 1, UNQUOTED).0 == if t == ";" then 1 else 2;
      assert t == ";" ==> Toggle(UNQUOTED, c) != UNQUOTED;
      assert NextOp(s, 0, UNQUOTED).0 == if t == ";" then 2 else 0;
      assert !SkipKeepsCut([c] + t);
    }
  }

  // ---- RewriteCommand ----------------------------------------------------------------------------------

  ghost predicate Heredoc(s: string) {
    Contains(s, "<<") || Contains(s, "$((")
  }

  ghost predicate HasCompound(s: string) {
    Contains(s, "&&") || Contains(s, "||") || Contains(s, ";") || Contains(s, "|") || Contains(s, " & ")
  }

  /** RewriteCommand; an empty result means that nothing was attempted. */
  ghost function RewriteCommand(e: Engine, cmd: string, excluded: set<string>): (string, bool) {
    var trimmed := TrimSpace(cmd);
    if trimmed == "" || Heredoc(trimmed) then ("", false)
    else if !HasCompound(trimmed) && IsTokman(trimmed) then (trimmed, false)
    else Compound(e, trimmed, excluded)
  }

  /** A command that is reported unchanged is returned with its own characters,
      white space aside, or not at all. */
  lemma CommandUnchanged(e: Engine, cmd: string, excluded: set<string>)
    requires !RewriteCommand(e, cmd, excluded).1
    ensures RewriteCommand(e, cmd, excluded).0 == "" || NonBlank(RewriteCommand(e, cmd, excluded).0) == NonBlank(cmd)
  {
    hide TrimSpace, Compound, NonBlank, Heredoc, HasCompound;
    NonBlankTrim(cmd);
    var trimmed := TrimSpace(cmd);
    if !Compound(e, trimmed, excluded).1 {
      CompoundUnchanged(e, trimmed, excluded);
    }
  }
}
