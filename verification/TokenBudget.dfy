/** Budget enforcement of internal/core/budget.go: greedy line selection and how
    far the joined result can overshoot. */
module TokenBudget {
  import opened Collections
  import opened Text

  /** The heuristic of EstimateTokens: a token per four bytes, rounded up. */
  function Heuristic(text: string): (n: nat)
    ensures 4 * n - 4 < ByteLen(text) <= 4 * n
  {
    (ByteLen(text) + 3) / 4
  }

  /** EstimateTokens, whichever estimator is in use. */
  type Estimator = string -> nat

  function Cost(est: Estimator, lines: seq<string>): nat {
    if lines == [] then 0 else est(lines[0]) + Cost(est, lines[1..])
  }

  // ---- Greedy selection ----------------------------------------------------------------------

  /** The lines taken, one after the other, while they fit. */
  function Pick(est: Estimator, limit: int, used: nat, lines: seq<string>): seq<string>
    decreases |lines|
  {
    if lines == [] then []
    else if used + est(lines[0]) <= limit then [lines[0]] + Pick(est, limit, used + est(lines[0]), lines[1..])
    else Pick(est, limit, used, lines[1..])
  }

  /** The lines passed over. */
  ghost function Passed(est: Estimator, limit: int, used: nat, lines: seq<string>): seq<string>
    decreases |lines|
  {
    if lines == [] then []
    else if used + est(lines[0]) <= limit then Passed(est, limit, used + est(lines[0]), lines[1..])
    else [lines[0]] + Passed(est, limit, used, lines[1..])
  }

  function Select(lines: seq<string>, essential: string -> bool, wanted: bool): seq<string> {
    if lines == [] then []
    else if essential(lines[0]) == wanted then [lines[0]] + Select(lines[1..], essential, wanted)
    else Select(lines[1..], essential, wanted)
  }

  /** Essential lines first, then the rest, in what is left of the limit. */
  function Strict(est: Estimator, limit: int, lines: seq<string>, essential: string -> bool): seq<string> {
    var kept := Pick(est, limit, 0, Select(lines, essential, true));
    kept + Pick(est, limit, Cost(est, kept), Select(lines, essential, false))
  }

  /** One of the two passes: keep the wanted lines that fit. */
  method Pass(est: Estimator, limit: int, lines: seq<string>, essential: string -> bool, wanted: bool,
              kept0: seq<string>, tokens0: nat) returns (kept: seq<string>, tokens: nat)
    requires tokens0 == Cost(est, kept0)
    ensures kept == kept0 + Pick(est, limit, tokens0, Select(lines, essential, wanted))
    ensures tokens == Cost(est, kept)
  {
    hide Cost;
    kept, tokens := kept0, tokens0;
    var i := 0;
    assert lines[0..] == lines;
    while i < |lines|
      invariant 0 <= i <= |lines| && tokens == Cost(est, kept)
      invariant kept + Pick(est, limit, tokens, Select(lines[i..], essential, wanted)) ==
                kept0 + Pick(est, limit, tokens0, Select(lines, essential, wanted))
    {
      var line := lines[i];
      assert lines[i..][0] == line && lines[i..][1..] == lines[i + 1..];
      ghost var rest := Select(lines[i + 1..], essential, wanted);
      if essential(line) == wanted {
        assert ([line] + rest)[1..] == rest;
        if tokens + est(line) <= limit {
          CostSnoc(est, kept, line);
          Assoc(kept, [line], Pick(est, limit, tokens + est(line), rest));
          kept := kept + [line];
          tokens := tokens + est(line);
        }
      }
      i := i + 1;
    }
  }

  method EnforceStrict(est: Estimator, limit: int, content: string, essential: string -> bool)
      returns (result: string, finalTokens: nat)
    ensures var kept := Strict(est, limit, Split(content), essential);
            result == Join(kept) && finalTokens == Cost(est, kept)
  {
    var lines := Split(content);
    var kept, tokens := Pass(est, limit, lines, essential, true, [], 0);
    assert [] + Pick(est, limit, 0, Select(lines, essential, true)) == Pick(est, limit, 0, Select(lines, essential, true));
    kept, tokens := Pass(est, limit, lines, essential, false, kept, tokens);
    result, finalTokens := Join(kept), tokens;
  }

  lemma {:induction false} CostSnoc(est: Estimator, lines: seq<string>, line: string)
    ensures Cost(est, lines + [line]) == Cost(est, lines) + est(line)
  {
    if lines == [] {
      assert [] + [line] == [line] && [line][1..] == [];
    } else {
      CostSnoc(est, lines[1..], line);
      assert (lines + [line])[1..] == lines[1..] + [line];
    }
  }

  lemma {:induction false} CostConcat(est: Estimator, a: seq<string>, b: seq<string>)
    ensures Cost(est, a + b) == Cost(est, a) + Cost(est, b)
  {
    if a == [] {
      assert a + b == b;
    } else {
      CostConcat(est, a[1..], b);
      assert (a + b)[1..] == a[1..] + b;
    }
  }

  lemma {:induction false} PickFits(est: Estimator, limit: int, used: nat, lines: seq<string>)
    requires used <= limit
    ensures used + Cost(est, Pick(est, limit, used, lines)) <= limit
    decreases |lines|
  {
    if lines != [] {
      var l, rest := lines[0], lines[1..];
      if used + est(l) <= limit {
        PickFits(est, limit, used + est(l), rest);
        assert Pick(est, limit, used, lines)[1..] == Pick(est, limit, used + est(l), rest);
      } else {
        PickFits(est, limit, used, rest);
      }
    }
  }

  /** What is passed over would not fit even at the end. */
  lemma {:induction false} PassedTooBig(est: Estimator, limit: int, used: nat, lines: seq<string>, l: string)
    requires l in Passed(est, limit, used, lines)
    ensures used + Cost(est, Pick(est, limit, used, lines)) + est(l) > limit
    decreases |lines|
  {
    var first, rest := lines[0], lines[1..];
    if used + est(first) <= limit {
      PassedTooBig(est, limit, used + est(first), rest, l);
      assert Pick(est, limit, used, lines)[1..] == Pick(est, limit, used + est(first), rest);
    } else if l in Passed(est, limit, used, rest) {
      PassedTooBig(est, limit, used, rest, l);
    }
  }

  /** Every line is taken or passed over. */
  lemma PickStep(est: Estimator, limit: int, used: nat, l: string, rest: seq<string>)
    ensures Pick(est, limit, used, [l] + rest) ==
            if used + est(l) <= limit then [l] + Pick(est, limit, used + est(l), rest) else Pick(est, limit, used, rest)
    ensures Passed(est, limit, used, [l] + rest) ==
            if used + est(l) <= limit then Passed(est, limit, used + est(l), rest) else [l] + Passed(est, limit, used, rest)
  {
    assert ([l] + rest)[1..] == rest;
  }

  lemma {:induction false} PickPartitions(est: Estimator, limit: int, used: nat, lines: seq<string>)
    ensures multiset(Pick(est, limit, used, lines)) + multiset(Passed(est, limit, used, lines)) == multiset(lines)
    decreases |lines|
  {
    if lines == [] {
      assert Pick(est, limit, used, []) == [] && Passed(est, limit, used, []) == [];
    } else {
      hide Pick, Passed;
      var l, rest := lines[0], lines[1..];
      PickPartitions(est, limit, if used + est(l) <= limit then used + est(l) else used, rest);
      PickPartitionsCons(est, limit, used, l, rest);
      assert [l] + rest == lines;
    }
  }

  lemma PickPartitionsCons(est: Estimator, limit: int, used: nat, l: string, rest: seq<string>)
    requires var used' := if used + est(l) <= limit then used + est(l) else used;
             multiset(Pick(est, limit, used', rest)) + multiset(Passed(est, limit, used', rest)) == multiset(rest)
    ensures multiset(Pick(est, limit, used, [l] + rest)) + multiset(Passed(est, limit, used, [l] + rest)) == multiset([l] + rest)
  {
    hide Pick, Passed;
    PickStep(est, limit, used, l, rest);
    if used + est(l) <= limit {
      OneMore(l, Pick(est, limit, used + est(l), rest), Passed(est, limit, used + est(l), rest), rest);
    } else {
      OneMore(l, Passed(est, limit, used, rest), Pick(est, limit, used, rest), rest);
    }
  }

  lemma OneMore(l: string, a: seq<string>, b: seq<string>, rest: seq<string>)
    requires multiset(a) + multiset(b) == multiset(rest)
    ensures multiset([l] + a) + multiset(b) == multiset([l] + rest)
  {
  }

  /** The lines taken keep their order. */
  lemma {:induction false} PickInOrder(est: Estimator, limit: int, used: nat, lines: seq<string>)
    ensures Subsequence(Pick(est, limit, used, lines), lines)
    decreases |lines|
  {
    if lines != [] {
      var l, rest := lines[0], lines[1..];
      if used + est(l) <= limit {
        PickInOrder(est, limit, used + est(l), rest);
        assert Pick(est, limit, used, lines)[1..] == Pick(est, limit, used + est(l), rest);
      } else {
        PickInOrder(est, limit, used, rest);
      }
    }
  }

  ghost predicate Subsequence(a: seq<string>, b: seq<string>) {
    if a == [] then true
    else if b == [] then false
    else (a[0] == b[0] && Subsequence(a[1..], b[1..])) || Subsequence(a, b[1..])
  }

  lemma {:induction false} SelectPartitions(lines: seq<string>, essential: string -> bool)
    ensures multiset(Select(lines, essential, true)) + multiset(Select(lines, essential, false)) == multiset(lines)
    ensures forall l, w :: l in Select(lines, essential, w) ==> essential(l) == w
  {
    if lines != [] {
      SelectPartitions(lines[1..], essential);
      assert lines == [lines[0]] + lines[1..];
    }
  }

  /** The lines that strict enforcement drops. */
  ghost function Dropped(est: Estimator, limit: int, lines: seq<string>, essential: string -> bool): seq<string> {
    var kept := Pick(est, limit, 0, Select(lines, essential, true));
    Passed(est, limit, 0, Select(lines, essential, true))
    + Passed(est, limit, Cost(est, kept), Select(lines, essential, false))
  }

  /** Strict enforcement with a non-negative limit: the kept lines cost at most
      the limit, no dropped line would still fit, every line is kept or dropped,
      the essential lines kept are those a greedy choice among the essential lines
      alone would keep, and the other ones follow, chosen likewise in what is left. */
  lemma StrictBudget(est: Estimator, limit: int, lines: seq<string>, essential: string -> bool)
    requires limit >= 0
    ensures var kept := Strict(est, limit, lines, essential);
            var dropped := Dropped(est, limit, lines, essential);
            && Cost(est, kept) <= limit
            && (forall l :: l in dropped ==> Cost(est, kept) + est(l) > limit)
            && multiset(kept) + multiset(dropped) == multiset(lines)
            && Select(kept, essential, true) == Pick(est, limit, 0, Select(lines, essential, true))
            && kept == Select(kept, essential, true) + Select(kept, essential, false)
            && Select(kept, essential, false) ==
               Pick(est, limit, Cost(est, Select(kept, essential, true)), Select(lines, essential, false))
  {
    hide Pick, Passed, Select;
    var first, second := Select(lines, essential, true), Select(lines, essential, false);
    var kept1 := Pick(est, limit, 0, first);
    var kept2 := Pick(est, limit, Cost(est, kept1), second);
    CostConcat(est, kept1, kept2);
    PickFits(est, limit, 0, first);
    PickFits(est, limit, Cost(est, kept1), second);
    forall l | l in Passed(est, limit, 0, first) ensures Cost(est, kept1) + est(l) > limit {
      PassedTooBig(est, limit, 0, first, l);
    }
    forall l | l in Passed(est, limit, Cost(est, kept1), second) ensures Cost(est, kept1) + Cost(est, kept2) + est(l) > limit {
      PassedTooBig(est, limit, Cost(est, kept1), second, l);
    }
    PickPartitions(est, limit, 0, first);
    PickPartitions(est, limit, Cost(est, kept1), second);
    SelectPartitions(lines, essential);
    PickInOrder(est, limit, 0, first);
    PickInOrder(est, limit, Cost(est, kept1), second);
    KeptEssential(kept1, kept2, first, second, essential);
  }

  lemma {:induction false} SelectConcat(a: seq<string>, b: seq<string>, essential: string -> bool, w: bool)
    ensures Select(a + b, essential, w) == Select(a, essential, w) + Select(b, essential, w)
  {
    if a == [] {
      assert a + b == b;
    } else {
      SelectConcat(a[1..], b, essential, w);
      ConcatTail(a, b);
      Assoc([a[0]], Select(a[1..], essential, w), Select(b, essential, w));
    }
  }

  lemma {:induction false} SelectAll(a: seq<string>, essential: string -> bool, w: bool)
    requires forall l :: l in a ==> essential(l) == w
    ensures Select(a, essential, true) == if w then a else []
  {
    if a != [] {
      assert a == [a[0]] + a[1..];
      SelectAll(a[1..], essential, w);
    }
  }

  lemma KeptEssential(kept1: seq<string>, kept2: seq<string>, first: seq<string>, second: seq<string>, essential: string -> bool)
    requires Subsequence(kept1, first) && Subsequence(kept2, second)
    requires forall l :: l in first ==> essential(l)
    requires forall l :: l in second ==> !essential(l)
    ensures Select(kept1 + kept2, essential, true) == kept1 && Select(kept1 + kept2, essential, false) == kept2
  {
    hide Select;
    SubsequenceIn(kept1, first);
    SubsequenceIn(kept2, second);
    SelectConcat(kept1, kept2, essential, true);
    SelectConcat(kept1, kept2, essential, false);
    SelectAll(kept1, essential, true);
    SelectAll(kept2, essential, false);
    SelectOthers(kept1, essential, true);
    SelectOthers(kept2, essential, false);
    assert kept1 + [] == kept1 && [] + kept2 == kept2;
  }

  lemma {:induction false} SubsequenceIn(a: seq<string>, b: seq<string>)
    requires Subsequence(a, b)
    ensures forall l :: l in a ==> l in b
  {
    if a != [] {
      assert a == [a[0]] + a[1..] && b == [b[0]] + b[1..];
      if a[0] == b[0] && Subsequence(a[1..], b[1..]) {
        SubsequenceIn(a[1..], b[1..]);
      } else {
        SubsequenceIn(a, b[1..]);
      }
    }
  }

  // ---- What the joined lines cost -------------------------------------------------------------------

  ghost function Bytes(lines: seq<string>): nat {
    if lines == [] then 0 else ByteLen(lines[0]) + Bytes(lines[1..])
  }

  /** A newline between any two lines. */
  lemma {:induction false} JoinBytes(lines: seq<string>)
    ensures ByteLen(Join(lines)) == Bytes(lines) + if lines == [] then 0 else |lines| - 1
  {
    if |lines| > 1 {
      JoinBytes(lines[1..]);
      ByteLenConcat(lines[0] + "\n", Join(lines[1..]));
      ByteLenConcat(lines[0], "\n");
      assert ByteLen("\n") == 1;
    }
  }

  lemma {:induction false} CostBounds(lines: seq<string>)
    ensures Bytes(lines) <= 4 * Cost(Heuristic, lines) <= Bytes(lines) + 3 * |lines|
  {
    if lines != [] {
      CostBounds(lines[1..]);
    }
  }

  /** The joined lines cost at most what they cost one by one plus a token per
      four newlines, rounded up; and they fit a limit exactly when their bytes
      and newlines do. */
  lemma JoinedCost(lines: seq<string>, limit: nat)
    requires lines != []
    ensures Heuristic(Join(lines)) <= Cost(Heuristic, lines) + (|lines| - 1 + 3) / 4
    ensures Heuristic(Join(lines)) <= limit <==> Bytes(lines) + |lines| - 1 <= 4 * limit
  {
    hide ByteLen, Join, Cost;
    JoinBytes(lines);
    CostBounds(lines);
  }

  /** The bound is attained whenever every line is a multiple of four bytes long. */
  lemma JoinedCostAttained(lines: seq<string>)
    requires lines != [] && forall i :: 0 <= i < |lines| ==> ByteLen(lines[i]) % 4 == 0
    ensures Heuristic(Join(lines)) == Cost(Heuristic, lines) + (|lines| - 1 + 3) / 4
  {
    hide ByteLen, Join;
    JoinBytes(lines);
    CostOfFours(lines);
  }

  lemma {:induction false} CostOfFours(lines: seq<string>)
    requires forall i :: 0 <= i < |lines| ==> ByteLen(lines[i]) % 4 == 0
    ensures 4 * Cost(Heuristic, lines) == Bytes(lines)
  {
    hide ByteLen;
    if lines != [] {
      CostOfFours(lines[1..]);
      assert ByteLen(lines[0]) % 4 == 0;
    }
  }

  // ---- Where strict enforcement fails its limit -----------------------------------------------------

  lemma {:induction false} PickAll(est: Estimator, limit: int, used: nat, lines: seq<string>)
    requires used + Cost(est, lines) <= limit
    ensures Pick(est, limit, used, lines) == lines
    decreases |lines|
  {
    if lines != [] {
      PickAll(est, limit, used + est(lines[0]), lines[1..]);
      assert lines == [lines[0]] + lines[1..];
    }
  }

  /** Copies of one line that cost at most the limit are all kept. */
  lemma StrictUniform(est: Estimator, limit: int, lines: seq<string>, essential: string -> bool, line: string)
    requires (forall l :: l in lines ==> l == line) && Cost(est, lines) <= limit
    ensures Strict(est, limit, lines, essential) == lines
  {
    hide Pick, Select;
    SelectAll(lines, essential, essential(line));
    SelectOthers(lines, essential, essential(line));
    PickAll(est, limit, 0, lines);
    PickAll(est, limit, 0, []);
    PickNone(est, limit, Cost(est, lines));
  }

  lemma PickNone(est: Estimator, limit: int, used: nat)
    ensures Pick(est, limit, used, []) == []
  {
  }

  lemma {:induction false} SelectOthers(a: seq<string>, essential: string -> bool, w: bool)
    requires forall l :: l in a ==> essential(l) == w
    ensures Select(a, essential, false) == if w then [] else a
  {
    if a != [] {
      assert a == [a[0]] + a[1..];
      SelectOthers(a[1..], essential, w);
    }
  }

  function Newlines(n: nat): string {
    if n == 0 then "" else "\n" + Newlines(n - 1)
  }

  function Blanks(n: nat): (lines: seq<string>)
    ensures |lines| == n + 1 && forall l :: l in lines ==> l == ""
  {
    if n == 0 then [""] else [""] + Blanks(n - 1)
  }

  lemma {:induction false} BlankLines(n: nat)
    ensures Split(Newlines(n)) == Blanks(n)
  {
    if n > 0 {
      hide Split;
      BlankLines(n - 1);
      SplitLine("", Newlines(n - 1));
      assert "" + "\n" + Newlines(n - 1) == Newlines(n);
    }
  }

  lemma {:induction false} BlankCost(n: nat)
    ensures Cost(Heuristic, Blanks(n)) == 0
  {
    assert Heuristic("") == 0;
    if n == 0 {
      assert Blanks(0)[1..] == [];
    } else {
      BlankCost(n - 1);
      assert Blanks(n)[0] == "" && Blanks(n)[1..] == Blanks(n - 1);
    }
  }

  /** No limit is safe and the overshoot has no bound: 4n + 1 blank lines are all
      kept under every limit, reported at no cost, and cost n tokens joined. */
  lemma StrictOvershoots(limit: nat, n: nat, essential: string -> bool)
    ensures var kept := Strict(Heuristic, limit, Split(Newlines(4 * n)), essential);
            && kept == Split(Newlines(4 * n)) && |kept| == 4 * n + 1
            && Cost(Heuristic, kept) == 0 && Heuristic(Join(kept)) == n
  {
    hide Split, Newlines, Strict, Join, Blanks;
    var lines := Blanks(4 * n);
    BlankLines(4 * n);
    BlankCost(4 * n);
    StrictUniform(Heuristic, limit, lines, essential, "");
    forall i | 0 <= i < |lines| ensures ByteLen(lines[i]) % 4 == 0 {
      assert lines[i] in lines;
    }
    JoinedCostAttained(lines);
  }

  /** What rounding up adds to the lines, in bytes. */
  ghost function Slack(lines: seq<string>): nat {
    if lines == [] then 0 else 4 * Heuristic(lines[0]) - ByteLen(lines[0]) + Slack(lines[1..])
  }

  lemma {:induction false} SlackIs(lines: seq<string>)
    ensures Slack(lines) == 4 * Cost(Heuristic, lines) - Bytes(lines)
  {
    hide ByteLen;
    if lines != [] {
      SlackIs(lines[1..]);
    }
  }

  /** The result of strict enforcement is within the limit if and only if its
      newlines fit into the unused tokens and the rounding of its lines. */
  lemma StrictFits(limit: nat, lines: seq<string>, essential: string -> bool)
    ensures var kept := Strict(Heuristic, limit, lines, essential);
            Heuristic(Join(kept)) <= limit <==>
            kept == [] || |kept| - 1 <= 4 * (limit - Cost(Heuristic, kept)) + Slack(kept)
  {
    hide Strict, ByteLen, Join, Cost;
    var kept := Strict(Heuristic, limit, lines, essential);
    if kept == [] {
      EmptyJoin();
    } else {
      JoinedCost(kept, limit);
      SlackIs(kept);
    }
  }

  lemma EmptyJoin()
    ensures Heuristic(Join([])) == 0
  {
  }

  /** The content consists of lines that are allowed. */
  ghost predicate MadeOf(allowed: string -> bool, content: string) {
    forall l :: l in Split(content) ==> allowed(l)
  }

  ghost predicate StaysWithin(limit: nat, content: string, essential: string -> bool) {
    Heuristic(Join(Strict(Heuristic, limit, Split(content), essential))) <= limit
  }

  lemma {:induction false} UnevenFits(lines: seq<string>)
    requires forall l :: l in lines ==> ByteLen(l) % 4 != 0
    ensures Bytes(lines) + |lines| <= 4 * Cost(Heuristic, lines)
  {
    hide ByteLen;
    if lines != [] {
      MemberTail(lines);
      UnevenFits(lines[1..]);
    }
  }

  lemma StrictKeepsLines(limit: nat, lines: seq<string>, essential: string -> bool)
    ensures forall l :: l in Strict(Heuristic, limit, lines, essential) ==> l in lines
    ensures Cost(Heuristic, Strict(Heuristic, limit, lines, essential)) <= limit
  {
    hide Strict, Dropped, Heuristic;
    StrictBudget(Heuristic, limit, lines, essential);
    var kept, dropped := Strict(Heuristic, limit, lines, essential), Dropped(Heuristic, limit, lines, essential);
    forall l | l in kept ensures l in lines {
      assert l in multiset(kept) + multiset(dropped);
    }
  }

  lemma UnevenStays(limit: nat, content: string, essential: string -> bool)
    requires forall l :: l in Split(content) ==> ByteLen(l) % 4 != 0
    ensures StaysWithin(limit, content, essential)
  {
    hide Strict, Split, ByteLen, Join, Cost;
    var kept := Strict(Heuristic, limit, Split(content), essential);
    StrictKeepsLines(limit, Split(content), essential);
    if kept == [] {
      EmptyJoin();
    } else {
      UnevenFits(kept);
      JoinedCost(kept, limit);
    }
  }

  /** Twice a line of a multiple of four bytes, with a limit of just its cost. */
  lemma EvenFails(line: string, essential: string -> bool)
    requires '\n' !in line && ByteLen(line) % 4 == 0
    ensures Split(line + "\n" + line) == [line, line]
    ensures !StaysWithin(2 * Heuristic(line), line + "\n" + line, essential)
  {
    hide Strict, ByteLen, Join;
    var lines := [line, line];
    SplitLine(line, line);
    OneLine(line);
    assert [line] + [line] == lines && lines[1..] == [line] && [line][1..] == [];
    assert Cost(Heuristic, [line]) == Heuristic(line) + Cost(Heuristic, []);
    assert Cost(Heuristic, lines) == Heuristic(line) + Cost(Heuristic, [line]);
    StrictUniform(Heuristic, 2 * Heuristic(line), lines, essential, line);
    JoinedCostAttained(lines);
  }

  /** Whatever lines count as essential: strict enforcement keeps within every
      limit all contents made of the allowed lines if and only if no allowed line
      has a multiple of four bytes. */
  lemma StrictFitsExactly(essential: string -> bool, allowed: string -> bool)
    ensures (forall limit: nat, content :: MadeOf(allowed, content) ==> StaysWithin(limit, content, essential)) <==>
            (forall l :: allowed(l) && '\n' !in l ==> ByteLen(l) % 4 != 0)
  {
    hide StaysWithin, Split, ByteLen;
    if forall l :: allowed(l) && '\n' !in l ==> ByteLen(l) % 4 != 0 {
      forall limit: nat, content | MadeOf(allowed, content) ensures StaysWithin(limit, content, essential) {
        UnevenStays(limit, content, essential);
      }
    } else {
      var l :| allowed(l) && '\n' !in l && ByteLen(l) % 4 == 0;
      EvenFails(l, essential);
      assert MadeOf(allowed, l + "\n" + l);
    }
  }

  // ---- Adaptive enforcement -------------------------------------------------------------------------------

  /** The three text stages before truncation. */
  datatype Stages = Stages(removeComments: string -> string, normalise: string -> string, collapse: string -> string)

  datatype Stage = CommentsRemoved | WhitespaceNormalized | ImportsCollapsed | Truncate

  datatype Adapted = Adapted(content: string, finalTokens: nat, applied: seq<Stage>)

  const STAGES := [CommentsRemoved, WhitespaceNormalized, ImportsCollapsed, Truncate]

  /** An estimator, a limit, the text stages and what counts as essential. */
  datatype Setup = Setup(est: Estimator, limit: int, stages: Stages, essential: string -> bool)

  function Apply(p: Setup, stage: Stage, text: string): string {
    match stage
    case CommentsRemoved => p.stages.removeComments(text)
    case WhitespaceNormalized => p.stages.normalise(text)
    case ImportsCollapsed => p.stages.collapse(text)
    case Truncate => Join(Strict(p.est, p.limit, Split(text), p.essential))
  }

  /** The content after the first n stages. */
  function StageText(p: Setup, content: string, n: nat): string
    requires n <= |STAGES|
  {
    if n == 0 then content else Apply(p, STAGES[n - 1], StageText(p, content, n - 1))
  }

  /** Still too long after each of the first n - 1 stages, and before them. */
  ghost predicate TooLong(p: Setup, content: string, n: nat) {
    n <= |STAGES| && forall m :: 0 <= m < n ==> p.est(StageText(p, content, m)) > p.limit
  }

  /** n stages are enough: all of them, or the first number after which the
      content fits. */
  ghost predicate Enough(p: Setup, content: string, n: nat) {
    TooLong(p, content, n) && (n < |STAGES| ==> p.est(StageText(p, content, n)) <= p.limit)
  }

  ghost predicate Reached(p: Setup, content: string, applied: seq<Stage>, current: string) {
    && TooLong(p, content, |applied|) && applied == STAGES[..|applied|]
    && current == StageText(p, content, |applied|)
  }

  lemma Advance(p: Setup, content: string, applied: seq<Stage>, current: string, stage: Stage)
    requires Reached(p, content, applied, current) && p.est(current) > p.limit
    requires |applied| < |STAGES| && STAGES[|applied|] == stage
    ensures Reached(p, content, applied + [stage], Apply(p, stage, current))
  {
    hide Apply;
  }

  /** Whatever the estimator, the stages are applied in order and no further than
      needed. */
  method EnforceAdaptive(p: Setup, content: string) returns (r: Adapted)
    ensures Enough(p, content, |r.applied|) && r.applied == STAGES[..|r.applied|]
    ensures r.content == StageText(p, content, |r.applied|) && r.finalTokens == p.est(r.content)
  {
    hide Strict, Split, Join, StageText, Reached;
    var current := content;
    var tokens := p.est(current);
    var applied: seq<Stage> := [];
    ReachedStart(p, content);
    if tokens > p.limit {
      Advance(p, content, applied, current, CommentsRemoved);
      current := p.stages.removeComments(current);
      applied := applied + [CommentsRemoved];
      tokens := p.est(current);
    }
    if tokens > p.limit {
      Advance(p, content, applied, current, WhitespaceNormalized);
      current := p.stages.normalise(current);
      applied := applied + [WhitespaceNormalized];
      tokens := p.est(current);
    }
    if tokens > p.limit {
      Advance(p, content, applied, current, ImportsCollapsed);
      current := p.stages.collapse(current);
      applied := applied + [ImportsCollapsed];
      tokens := p.est(current);
    }
    if tokens > p.limit {
      Advance(p, content, applied, current, Truncate);
      current := TruncateNonEssential(p.est, current, p.limit, p.essential);
      applied := applied + [Truncate];
      tokens := p.est(current);
    }
    r := Adapted(current, tokens, applied);
    ReachedFacts(p, content, applied, current);
  }

  lemma ReachedStart(p: Setup, content: string)
    ensures Reached(p, content, [], content)
  {
  }

  lemma ReachedFacts(p: Setup, content: string, applied: seq<Stage>, current: string)
    requires Reached(p, content, applied, current)
    ensures TooLong(p, content, |applied|) && applied == STAGES[..|applied|] && current == StageText(p, content, |applied|)
  {
    hide StageText;
  }

  /** Joined lines that fit the limit one by one, too long by the newlines only. */
  ghost predicate Overshoots(limit: int, text: string) {
    exists kept ::
      && text == Join(kept) && Cost(Heuristic, kept) <= limit && kept != []
      && Heuristic(text) <= limit + (|kept| - 1 + 3) / 4
  }

  /** With the four-bytes estimate and a non-negative limit, the result is within
      the limit or, after all four stages, within the newlines' overshoot. */
  lemma AdaptiveWithin(p: Setup, content: string, n: nat)
    requires p.est == Heuristic && p.limit >= 0 && Enough(p, content, n)
    ensures var text := StageText(p, content, n);
            Heuristic(text) <= p.limit || (n == |STAGES| && Overshoots(p.limit, text))
  {
    hide Strict, Split, Join, Heuristic;
    if n == |STAGES| {
      var lines := Split(StageText(p, content, n - 1));
      assert StageText(p, content, n) == Join(Strict(p.est, p.limit, lines, p.essential));
      Truncated(p.limit, lines, p.essential);
    }
  }

  /** Sort the lines into essential and other ones, then fill up from both lists:
      the same selection as the two passes of strict enforcement. */
  method TruncateNonEssential(est: Estimator, content: string, limit: int, essential: string -> bool)
      returns (result: string)
    ensures result == Join(Strict(est, limit, Split(content), essential))
  {
    hide Split, Join;
    var first, others := Partition(Split(content), essential);
    var kept, tokens := Fill(est, limit, first, [], 0);
    assert [] + Pick(est, limit, 0, first) == Pick(est, limit, 0, first);
    kept, tokens := Fill(est, limit, others, kept, tokens);
    result := Join(kept);
  }

  method Partition(lines: seq<string>, essential: string -> bool) returns (first: seq<string>, others: seq<string>)
    ensures first == Select(lines, essential, true) && others == Select(lines, essential, false)
  {
    first, others := [], [];
    var i := 0;
    assert lines[0..] == lines;
    while i < |lines|
      invariant 0 <= i <= |lines|
      invariant first + Select(lines[i..], essential, true) == Select(lines, essential, true)
      invariant others + Select(lines[i..], essential, false) == Select(lines, essential, false)
    {
      var line := lines[i];
      ghost var rest := lines[i + 1..];
      assert lines[i..][0] == line && lines[i..][1..] == rest;
      if essential(line) {
        Assoc(first, [line], Select(rest, essential, true));
        first := first + [line];
      } else {
        Assoc(others, [line], Select(rest, essential, false));
        others := others + [line];
      }
      i := i + 1;
    }
    assert lines[|lines|..] == [];
  }

  method Fill(est: Estimator, limit: int, lines: seq<string>, kept0: seq<string>, tokens0: nat) returns (kept: seq<string>, tokens: nat)
    requires tokens0 == Cost(est, kept0)
    ensures kept == kept0 + Pick(est, limit, tokens0, lines) && tokens == Cost(est, kept)
  {
    hide Cost;
    kept, tokens := kept0, tokens0;
    var i := 0;
    assert lines[0..] == lines;
    while i < |lines|
      invariant 0 <= i <= |lines| && tokens == Cost(est, kept)
      invariant kept + Pick(est, limit, tokens, lines[i..]) == kept0 + Pick(est, limit, tokens0, lines)
    {
      var line := lines[i];
      ghost var rest := lines[i + 1..];
      assert lines[i..][0] == line && lines[i..][1..] == rest;
      if tokens + est(line) <= limit {
        CostSnoc(est, kept, line);
        Assoc(kept, [line], Pick(est, limit, tokens + est(line), rest));
        kept := kept + [line];
        tokens := tokens + est(line);
      }
      i := i + 1;
    }
  }

  /** What truncation leaves is within the limit, but for the newlines. */
  lemma Truncated(limit: nat, lines: seq<string>, essential: string -> bool)
    ensures var kept := Strict(Heuristic, limit, lines, essential);
            && Cost(Heuristic, kept) <= limit
            && (kept == [] ==> Heuristic(Join(kept)) == 0)
            && (kept != [] ==> Heuristic(Join(kept)) <= limit + (|kept| - 1 + 3) / 4)
  {
    hide Strict, ByteLen;
    var kept := Strict(Heuristic, limit, lines, essential);
    StrictBudget(Heuristic, limit, lines, essential);
    if kept != [] {
      JoinedCost(kept, limit);
    }
  }

  /** The stages one inside the other: comments, white space, imports, truncation. */
  lemma StagesAre(p: Setup, content: string)
    ensures var third := p.stages.collapse(p.stages.normalise(p.stages.removeComments(content)));
            && StageText(p, content, 3) == third
            && StageText(p, content, 4) == Join(Strict(p.est, p.limit, Split(third), p.essential))
            && StageText(p, content, 1) == p.stages.removeComments(content)
            && StageText(p, content, 2) == p.stages.normalise(p.stages.removeComments(content))
  {
    hide Strict, Split, Join;
    assert StageText(p, content, 1) == Apply(p, CommentsRemoved, content);
    assert StageText(p, content, 2) == Apply(p, WhitespaceNormalized, StageText(p, content, 1));
    assert StageText(p, content, 3) == Apply(p, ImportsCollapsed, StageText(p, content, 2));
    assert StageText(p, content, 4) == Apply(p, Truncate, StageText(p, content, 3));
  }
}
