/** Where exactly the compound scanner cuts, stated on the characters of the
    command, and what it reports. */
module ScannerExactness {
  import opened Collections
  import opened Text
  import opened SegmentRewriter
  import opened CommandScanner

  // ---- Quotes ----------------------------------------------------------------------------------

  /** The quote state behind the text, from the state in front of it. */
  ghost function Passing(q: Quotes, t: string): Quotes
    decreases |t|
  {
    if t == "" then q else Passing(Toggle(q, t[0]), t[1..])
  }

  /** Inside a quoted span nothing counts but the same quote. */
  lemma {:induction false} InsideQuotes(q: char, body: string)
    requires Quote(q) && q !in body
    ensures var inside := Toggle(UNQUOTED, q);
            Passing(inside, body) == inside && inside != UNQUOTED && Toggle(inside, q) == UNQUOTED
  {
    if body != "" {
      assert body[0] in body;
      InsideQuotes(q, body[1..]);
    }
  }

  /** Outside, nothing counts but quotes. */
  lemma {:induction false} OutsideQuotes(t: string)
    requires '\'' !in t && '"' !in t
    ensures Passing(UNQUOTED, t) == UNQUOTED
  {
    if t != "" {
      assert t[0] in t;
      OutsideQuotes(t[1..]);
    }
  }

  // ---- Cuts ------------------------------------------------------------------------------------

  /** A character that separates nothing: neither ; nor |, and a & only as part of a
      redirection. */
  ghost predicate Inner(s: string, i: nat)
    requires i < |s|
  {
    && s[i] != ';' && s[i] != '|'
    && (s[i] == '&' ==>
          && !(i + 1 < |s| && s[i + 1] == '&')
          && ((i > 0 && s[i - 1] == '>') || (i + 1 < |s| && s[i + 1] == '>')))
  }

  /** The operator is written at j: a single & has no > on either side. */
  ghost predicate Written(s: string, j: nat, op: Op)
    requires j < |s|
  {
    match op
    case Or => j + 1 < |s| && s[j] == '|' && s[j + 1] == '|'
    case And => j + 1 < |s| && s[j] == '&' && s[j + 1] == '&'
    case Semi => s[j] == ';'
    case Pipe => s[j] == '|' && !(j + 1 < |s| && s[j + 1] == '|')
    case Amp =>
      && s[j] == '&' && !(j + 1 < |s| && (s[j + 1] == '&' || s[j + 1] == '>'))
      && !(j > 0 && s[j - 1] == '>')
  }

  /** From i up to j, inspected with the quote state q, no unquoted character
      separates anything. */
  ghost predicate Kept(s: string, i: nat, j: nat, q: Quotes)
    requires j <= |s|
    decreases j - i
  {
    i >= j || ((q == UNQUOTED ==> Inner(s, i)) && Kept(s, i + 1, j, Toggle(q, s[i])))
  }

  ghost function StateAt(s: string, i: nat, j: nat, q: Quotes): Quotes
    requires j <= |s|
    decreases j - i
  {
    if i >= j then q else StateAt(s, i + 1, j, Toggle(q, s[i]))
  }

  lemma OpIsWritten(s: string, j: nat, op: Op)
    requires j < |s|
    ensures OpAt(s, j) == Some(op) <==> Written(s, j, op)
    ensures OpAt(s, j) == None <==> Inner(s, j)
  {
  }

  /** The operator found is the first one that is unquoted. */
  lemma {:induction false} NextOpExactly(s: string, i: nat, q: Quotes)
    ensures var (j, q2) := NextOp(s, i, q);
            Kept(s, i, j, q) && (i <= |s| ==> q2 == StateAt(s, i, j, q)) && (j < |s| ==> q2 == UNQUOTED)
    decreases |s| - i
  {
    hide OpAt, Inner, Written;
    if i < |s| {
      OpIsWritten(s, i, Semi);
      if !(q == UNQUOTED && OpAt(s, i).Some?) {
        NextOpExactly(s, i + 1, Toggle(q, s[i]));
      }
    }
  }

  lemma {:induction false} KeptAt(s: string, i: nat, j: nat, end: nat, q: Quotes)
    requires end <= |s| && Kept(s, i, end, q) && i <= j < end && StateAt(s, i, j, q) == UNQUOTED
    ensures Inner(s, j)
    decreases j - i
  {
    hide Inner;
    if i < j {
      KeptAt(s, i + 1, j, end, Toggle(q, s[i]));
    }
  }

  // ---- The parts -------------------------------------------------------------------------------

  /** The operator and all blanks behind it; only the operator for ; */
  ghost predicate IsGap(s: string, j: nat, k: nat, op: Op) {
    var n := j + |OpText(op)|;
    && n <= k <= |s| && (forall x :: n <= x < k ==> s[x] == ' ')
    && if op == Semi then k == n else k < |s| ==> s[k] != ' '
  }

  /** The parts of the text from `start` on, inspected from i on: cut at every operator
      that is inspected and unquoted, nowhere else, up to the first single |. */
  ghost predicate Splits(s: string, start: nat, i: nat, q: Quotes, skip: nat, p: Parts)
    decreases p
  {
    var j := start + |p.seg|;
    && j <= |s| && p.seg == s[start..j]
    && match p
       case Last(_) => j == |s| && Kept(s, i, j, q)
       case Piped(_, tail) =>
         && i <= j < |s| && Kept(s, i, j, q) && StateAt(s, i, j, q) == UNQUOTED
         && Written(s, j, Pipe) && tail == s[j..]
       case More(_, op, gap, rest) =>
         var k := j + |gap|;
         && i <= j < |s| && Kept(s, i, j, q) && StateAt(s, i, j, q) == UNQUOTED
         && op != Pipe && Written(s, j, op) && IsGap(s, j, k, op) && gap == s[j..k]
         && Splits(s, k, k + skip, UNQUOTED, skip, rest)
  }

  lemma GapIs(s: string, j: nat)
    requires j < |s| && OpAt(s, j).Some? && OpAt(s, j).value != Pipe
    ensures IsGap(s, j, NextStart(s, j), OpAt(s, j).value)
  {
  }

  lemma {:induction false} PiecesSplit(s: string, start: nat, i: nat, q: Quotes, skip: nat)
    requires start <= |s| && start <= i
    ensures Splits(s, start, i, q, skip, Pieces(s, start, i, q, skip))
    decreases |s| - start
  {
    hide OpAt, NextStart, NextOp, Kept, StateAt, Written, IsGap;
    var (j, q2) := NextOp(s, i, q);
    NextOpExactly(s, i, q);
    if j < |s| && start <= j {
      PastEnd(s, i, q);
      OpIsWritten(s, j, OpAt(s, j).value);
      if OpAt(s, j).value != Pipe {
        GapIs(s, j);
        PiecesSplit(s, NextStart(s, j), NextStart(s, j) + skip, q2, skip);
      }
    } else {
      AllKept(s, start, i, q);
    }
  }

  lemma PastEnd(s: string, i: nat, q: Quotes)
    ensures NextOp(s, i, q).0 < |s| ==> i <= |s|
  {
  }

  lemma AllKept(s: string, start: nat, i: nat, q: Quotes)
    requires start <= |s| && start <= i && !(NextOp(s, i, q).0 < |s| && start <= NextOp(s, i, q).0)
    ensures NextOp(s, i, q).0 == |s|
  {
  }

  lemma GapUnique(s: string, j: nat, k: nat, m: nat, op: Op)
    requires IsGap(s, j, k, op) && IsGap(s, j, m, op)
    ensures k == m
  {
  }

  lemma WrittenUnique(s: string, j: nat, a: Op, b: Op)
    requires j < |s| && Written(s, j, a) && Written(s, j, b)
    ensures a == b && !Inner(s, j)
  {
  }

  lemma SameCut(s: string, start: nat, i: nat, q: Quotes, skip: nat, p: Parts, r: Parts)
    requires Splits(s, start, i, q, skip, p) && Splits(s, start, i, q, skip, r) && |p.seg| <= |r.seg|
    ensures |p.seg| == |r.seg| && (p.Last? <==> r.Last?)
  {
    hide Kept, StateAt, Inner, Written, IsGap;
    var j, end := start + |p.seg|, start + |r.seg|;
    if !p.Last? && j < end {
      KeptAt(s, i, j, end, q);
      WrittenUnique(s, j, if p.Piped? then Pipe else p.op, if p.Piped? then Pipe else p.op);
      assert false;
    }
  }

  lemma {:induction false} SplitsUnique(s: string, start: nat, i: nat, q: Quotes, skip: nat, p: Parts, r: Parts)
    requires Splits(s, start, i, q, skip, p) && Splits(s, start, i, q, skip, r)
    ensures p == r
    decreases p
  {
    hide Kept, StateAt, Inner, Written, IsGap;
    if |p.seg| <= |r.seg| {
      SameCut(s, start, i, q, skip, p, r);
    } else {
      SameCut(s, start, i, q, skip, r, p);
    }
    if !p.Last? {
      var j := start + |p.seg|;
      WrittenUnique(s, j, if p.Piped? then Pipe else p.op, if r.Piped? then Pipe else r.op);
      if p.More? {
        GapUnique(s, j, j + |p.gap|, j + |r.gap|, p.op);
        SplitsUnique(s, j + |p.gap|, j + |p.gap| + skip, UNQUOTED, skip, p.rest, r.rest);
      }
    }
  }

  /** The parts the scanner cuts a command into are the only ones that are cut at
      every operator it inspects outside quotes, and nowhere else. */
  lemma CutsExactly(cmd: string, p: Parts)
    ensures p == Pieces(cmd, 0, 0, UNQUOTED, SKIP) <==> Splits(cmd, 0, 0, UNQUOTED, 1, p)
  {
    hide Pieces, Splits;
    PiecesSplit(cmd, 0, 0, UNQUOTED, SKIP);
    if Splits(cmd, 0, 0, UNQUOTED, 1, p) {
      SplitsUnique(cmd, 0, 0, UNQUOTED, SKIP, p, Pieces(cmd, 0, 0, UNQUOTED, SKIP));
    }
  }

  // ---- The output ------------------------------------------------------------------------------

  /** The segments that rewriting looks at; one piped out of find, fd or locate is not. */
  ghost function Rewritable(p: Parts): seq<string> {
    match p
    case Last(seg) => [TrimSpace(seg)]
    case Piped(seg, _) => if PipedCommand(seg) then [] else [TrimSpace(seg)]
    case More(seg, _, _, rest) => [TrimSpace(seg)] + Rewritable(rest)
  }

  /** A change is reported if and only if one of them changes. */
  lemma {:induction false} ReportedExactly(e: Engine, p: Parts, excluded: set<string>)
    ensures Render(e, p, excluded).1 <==>
            exists seg :: seg in Rewritable(p) && Rewrite(e, seg, excluded).1
  {
    hide Rewrite, TrimSpace, PipedCommand, Separator;
    if p.More? {
      ReportedExactly(e, p.rest, excluded);
      var first := TrimSpace(p.seg);
      assert forall seg :: seg in Rewritable(p) <==> seg == first || seg in Rewritable(p.rest);
    } else {
      assert forall seg :: seg in Rewritable(p) ==> seg == TrimSpace(p.seg);
      assert !(p.Piped? && PipedCommand(p.seg)) ==> TrimSpace(p.seg) in Rewritable(p);
    }
  }

  /** Operators are written with one blank on either side; ; directly, and with a blank
      behind it if there was one. */
  lemma SeparatorExactly(op: Op, rest: Parts)
    ensures op != Semi ==> Separator(op, rest) == [' '] + OpText(op) + [' ']
    ensures op == Semi ==> Separator(op, rest) == (if Source(rest) != "" && Source(rest)[0] == ' ' then "; " else ";")
  {
    var s := Source(rest);
    assert s != "" ==> s[..1] == [s[0]];
  }

  /** A command whose first word is find, fd or locate. */
  lemma PipedExactly(seg: string, word: string, rest: string)
    requires TrimSpace(seg) == word + rest && word != "" && Solid(word) && (rest == "" || IsSpace(rest[0]))
    ensures PipedCommand(seg) <==> word == "find" || word == "fd" || word == "locate"
  {
    hide Fields, TrimSpace, IsSpace, Solid;
    FirstField(word, rest);
  }

  // ---- RewriteCommand --------------------------------------------------------------------------

  /** Nothing is attempted on blank text, a here-document or an arithmetic expansion;
      a single tokman command is returned trimmed; all else is scanned. */
  lemma CommandExactly(e: Engine, cmd: string, excluded: set<string>)
    ensures var t := TrimSpace(cmd);
            var simple := !Contains(t, "&&") && !Contains(t, "||") && !Contains(t, ";") && !Contains(t, "|") && !Contains(t, " & ");
            RewriteCommand(e, cmd, excluded) ==
            if t == "" || Contains(t, "<<") || Contains(t, "$((") then ("", false)
            else if simple && ("tokman " <= t || t == "tokman") then (t, false)
            else Compound(e, t, excluded)
  {
    hide TrimSpace, Contains, Compound;
  }
}
