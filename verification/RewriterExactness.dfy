/** Exactly what rewriting one command does. */
module RewriterExactness {
  import opened Collections
  import opened Text
  import opened SegmentRewriter

  // ---- The env prefix ---------------------------------------------------------------------------

  /** The classes of the pattern, character by character. */
  lemma ClassesAre(c: char)
    ensures Is(Space, c) <==> c as int in {9, 10, 12, 13, 32}
    ensures Is(NonSpace, c) <==> c as int !in {9, 10, 12, 13, 32}
    ensures Is(Name, c) <==> 0x30 <= c as int <= 0x39 || 0x41 <= c as int <= 0x5A || c as int == 0x5F
  {
  }

  /** NAME=value, the name in capitals. */
  ghost predicate IsAssignment(a: string) {
    exists n :: 0 < n < |a| && NamesUpTo(a, n)
  }

  ghost predicate NamesUpTo(a: string, n: nat)
    requires n < |a|
  {
    a[n] == '=' && n > 0 && !('0' <= a[0] <= '9') && AllOf(Name, a[..n]) && AllOf(NonSpace, a[n + 1..])
  }

  /** sudo, env or an assignment, and white space. */
  ghost predicate IsItem(t: string) {
    exists k :: 0 < k < |t| && ItemUpTo(t, k)
  }

  ghost predicate ItemUpTo(t: string, k: nat)
    requires k <= |t|
  {
    AllOf(Space, t[k..]) && (t[..k] == "sudo" || t[..k] == "env" || IsAssignment(t[..k]))
  }

  /** Any number of items. */
  ghost predicate IsPrefix(p: string)
    decreases |p|
  {
    p == "" || exists n :: 0 < n <= |p| && IsItem(p[..n]) && IsPrefix(p[n..])
  }

  /** What Item recognises is an item. */
  lemma ItemIsItem(s: string)
    requires Item(s) > 0
    ensures IsItem(s[..Item(s)])
  {
    hide Run;
    var n := Item(s);
    var t := s[..n];
    var k := ItemHead(s);
    TakeSlice(s, k, n);
    assert t[k..] == s[k..n] && t[..k] == s[..k];
    assert ItemUpTo(t, k);
  }

  /** Where its white space starts. */
  lemma ItemHead(s: string) returns (k: nat)
    requires Item(s) > 0
    ensures 0 < k < Item(s) && AllOf(Space, s[k..Item(s)]) && (Item(s) < |s| ==> !RegexSpace(s[Item(s)]))
    ensures s[..k] == "sudo" || s[..k] == "env" || IsAssignment(s[..k])
  {
    hide Run, RegexSpace;
    if WordItem("sudo", s) > 0 {
      k := 4;
      SpaceRun(s, 4);
    } else if WordItem("env", s) > 0 {
      k := 3;
      SpaceRun(s, 3);
    } else {
      k := AssignmentHead(s);
    }
  }

  lemma SpaceRun(s: string, k: nat)
    requires k <= |s|
    ensures var n := Run(Space, s[k..]);
            && k + n <= |s| && AllOf(Space, s[k..k + n]) && (k + n < |s| ==> !RegexSpace(s[k + n]))
  {
    hide RegexSpace;
    var n := Run(Space, s[k..]);
    TakeSlice(s, k, k + n);
    assert k + n < |s| ==> s[k..][n] == s[k + n];
  }

  lemma AssignmentHead(s: string) returns (k: nat)
    requires AssignmentItem(s) > 0
    ensures var m := AssignmentItem(s);
            0 < k < m && AllOf(Space, s[k..m]) && (m < |s| ==> !RegexSpace(s[m])) && IsAssignment(s[..k])
  {
    hide Run, RegexSpace, AssignmentItem, AllOf, NamesUpTo;
    var n, v := AssignmentParts(s);
    k := n + 1 + v;
    SpaceRun(s, k);
    HeadNames(s, n, v, k);
  }

  lemma AssignmentParts(s: string) returns (n: nat, v: nat)
    requires AssignmentItem(s) > 0
    ensures 0 < n && n + 1 + v < |s| && s[n] == '=' && !('0' <= s[0] <= '9')
    ensures AllOf(Name, s[..n]) && AllOf(NonSpace, s[n + 1..][..v])
    ensures Run(Space, s[n + 1 + v..]) > 0 && AssignmentItem(s) == n + 1 + v + Run(Space, s[n + 1 + v..])
  {
    hide Run, Is;
    n := Run(Name, s);
    v := Run(NonSpace, s[n + 1..]);
    DropDrop(s, n + 1, v);
  }

  lemma HeadNames(s: string, n: nat, v: nat, k: nat)
    requires 0 < n < k <= |s| && k == n + 1 + v && s[n] == '=' && !('0' <= s[0] <= '9')
    requires AllOf(Name, s[..n]) && AllOf(NonSpace, s[n + 1..][..v])
    ensures NamesUpTo(s[..k], n)
  {
    hide Is;
    assert s[..k][n + 1..] == s[n + 1..][..v] && s[..k][..n] == s[..n];
  }

  /** An item at the start of s is what Item recognises there, but for white space
      that follows. */
  lemma ItemRecognised(s: string, n: nat)
    requires n <= |s| && IsItem(s[..n])
    ensures 0 < n <= Item(s) && AllOf(Space, s[n..Item(s)])
  {
    hide Run, RegexSpace, AllOf;
    var t := s[..n];
    var k :| 0 < k < |t| && ItemUpTo(t, k);
    assert t[..k] == s[..k] && t[k..] == s[k..n];
    if t[..k] == "sudo" {
      WordRecognised("sudo", s, n);
    } else if t[..k] == "env" {
      WordRecognised("env", s, n);
      assert s[0] == 'e' && "sudo"[0] == 's';
    } else {
      AssignmentRecognised(s, k, n);
    }
  }

  lemma WordRecognised(word: string, s: string, n: nat)
    requires |word| < n <= |s| && s[..|word|] == word && AllOf(Space, s[|word|..n])
    ensures n <= WordItem(word, s) && AllOf(Space, s[n..WordItem(word, s)])
  {
    hide RegexSpace;
    RunAtLeast(Space, s, |word|, n);
  }

  lemma {:induction false} RunCovers(c: Class, t: string, n: nat)
    requires n <= |t| && AllOf(c, t[..n])
    ensures n <= Run(c, t)
  {
    hide Is;
    if n > 0 {
      assert t[..n][0] == t[0] && t[1..][..n - 1] == t[..n][1..];
      RunCovers(c, t[1..], n - 1);
    }
  }

  /** A run covers what is in its class, and what it adds is too. */
  lemma RunAtLeast(c: Class, s: string, k: nat, n: nat)
    requires k <= n <= |s| && AllOf(c, s[k..n])
    ensures var m := k + Run(c, s[k..]); n <= m <= |s| && AllOf(c, s[n..m])
  {
    hide Is, Run;
    TakeSlice(s, k, n);
    RunCovers(c, s[k..], n - k);
    var m := k + Run(c, s[k..]);
    assert forall i :: 0 <= i < m - n ==> s[n..m][i] == s[k..][n - k + i];
  }

  /** A run ends where a character outside its class comes. */
  lemma RunEndsAt(c: Class, s: string, n: nat)
    requires n < |s| && AllOf(c, s[..n]) && !Is(c, s[n])
    ensures Run(c, s) == n
  {
    RunConcat(c, s[..n], s[n..]);
    TakeDrop(s, n);
  }

  lemma AssignmentRecognised(s: string, k: nat, n: nat)
    requires 0 < k < n <= |s| && IsAssignment(s[..k]) && AllOf(Space, s[k..n])
    ensures n <= Item(s) && AllOf(Space, s[n..Item(s)])
  {
    hide Run, RegexSpace, AllOf, WordItem, NameChar, NamesUpTo, AssignmentItem, Is;
    var m :| 0 < m < |s[..k]| && NamesUpTo(s[..k], m);
    NameEnds(s, k, m);
    SpaceStarts(s, k, n);
    ValueEnds(s, k, m);
    RunAtLeast(Space, s, k, n);
    AssignmentIs(s, k, m);
    NoWord("sudo", s);
    NoWord("env", s);
  }

  lemma AssignmentIs(s: string, k: nat, m: nat)
    requires 0 < m < k < |s| && Run(Name, s) == m && s[m] == '=' && !('0' <= s[0] <= '9')
    requires Run(NonSpace, s[m + 1..]) == k - m - 1 && s[m + 1..][k - m - 1..] == s[k..] && Run(Space, s[k..]) > 0
    ensures AssignmentItem(s) == k + Run(Space, s[k..])
  {
    hide Run;
  }

  lemma SpaceStarts(s: string, k: nat, n: nat)
    requires k < n <= |s| && AllOf(Space, s[k..n])
    ensures Is(Space, s[k])
  {
    assert s[k..n][0] == s[k];
  }

  lemma NameEnds(s: string, k: nat, m: nat)
    requires 0 < m < k <= |s| && NamesUpTo(s[..k], m)
    ensures Run(Name, s) == m && s[m] == '=' && NameChar(s[0]) && !('0' <= s[0] <= '9')
  {
    hide Run;
    var a := s[..k];
    assert s[..m] == a[..m] && s[m] == a[m] && a[..m][0] == s[0];
    assert Is(Name, a[..m][0]);
    RunEndsAt(Name, s, m);
  }

  lemma ValueEnds(s: string, k: nat, m: nat)
    requires 0 < m < k < |s| && NamesUpTo(s[..k], m) && Is(Space, s[k])
    ensures Run(NonSpace, s[m + 1..]) == k - m - 1 && s[m + 1..][k - m - 1..] == s[k..]
  {
    hide Run;
    var rest, v := s[m + 1..], k - m - 1;
    assert rest[..v] == s[..k][m + 1..] && rest[v] == s[k];
    RunEndsAt(NonSpace, rest, v);
    DropDrop(s, m + 1, v);
  }

  lemma NoWord(word: string, s: string)
    requires (word == "sudo" || word == "env") && s != "" && NameChar(s[0])
    ensures WordItem(word, s) == 0
  {
    hide Run;
    assert word[0] == 's' || word[0] == 'e';
  }

  lemma ItemStartsSolid(t: string)
    requires IsItem(t)
    ensures t != "" && !RegexSpace(t[0])
  {
    var k :| 0 < k < |t| && ItemUpTo(t, k);
    var a := t[..k];
    assert a[0] == t[0];
    if a != "sudo" && a != "env" {
      var n :| 0 < n < |a| && NamesUpTo(a, n);
      assert Is(Name, a[..n][0]);
    }
  }

  /** EnvPrefix is the longest prefix that consists of items. */
  lemma {:induction false} EnvPrefixIsPrefix(s: string)
    ensures IsPrefix(EnvPrefix(s))
    decreases |s|
  {
    hide Item;
    var n := Item(s);
    if n > 0 {
      EnvPrefixIsPrefix(s[n..]);
      ItemIsItem(s);
      var p := EnvPrefix(s);
      assert p[..n] == s[..n] && p[n..] == EnvPrefix(s[n..]);
    }
  }

  lemma {:induction false} EnvPrefixLongest(s: string, p: string)
    requires p <= s && IsPrefix(p)
    ensures p <= EnvPrefix(s)
    decreases |p|
  {
    hide Item, IsItem, RegexSpace;
    if p != "" {
      var n :| 0 < n <= |p| && IsItem(p[..n]) && IsPrefix(p[n..]);
      assert p[..n] == s[..n];
      ItemRecognised(s, n);
      var m := Item(s);
      if n == m {
        assert p[n..] <= s[n..];
        EnvPrefixLongest(s[n..], p[n..]);
        TakeDrop(p, n);
      } else {
        assert p == p[..n] by { NothingFollows(s, p, n, m); }
        assert s[..n] <= s[..m];
      }
    }
  }

  lemma PrefixStartsSolid(q: string)
    requires IsPrefix(q) && q != ""
    ensures !RegexSpace(q[0])
  {
    hide IsItem, RegexSpace;
    var i :| 0 < i <= |q| && IsItem(q[..i]) && IsPrefix(q[i..]);
    ItemStartsSolid(q[..i]);
    assert q[..i][0] == q[0];
  }

  /** No item starts within the white space behind one. */
  lemma NothingFollows(s: string, p: string, n: nat, m: nat)
    requires 0 < n <= |p| && p <= s && n < m <= |s| && AllOf(Space, s[n..m]) && IsPrefix(p[n..])
    ensures n == |p|
  {
    hide IsPrefix, RegexSpace;
    SpaceStarts(s, n, m);
    if n < |p| {
      assert p[n..][0] == s[n];
      PrefixStartsSolid(p[n..]);
    }
  }

  // ---- Preparing the command ---------------------------------------------------------------------

  /** Options behind git go first, then the directory of the binary. */
  lemma NormaliseExactly(e: Engine, clean: string)
    ensures !("git " <= clean) && !("/" <= clean) ==> Normalise(e, clean) == clean
    ensures "/" <= clean ==> Normalise(e, clean) == e.binaryName(clean)
    ensures "git " <= clean && !("/" <= e.gitOptions(clean)) ==> Normalise(e, clean) == e.gitOptions(clean)
    ensures "git " <= clean && "/" <= e.gitOptions(clean) ==> Normalise(e, clean) == e.binaryName(e.gitOptions(clean))
  {
    assert "git "[0] == 'g';
  }

  // ---- The cases ----------------------------------------------------------------------------------

  /** The command is the prefix, or goes on with a blank behind it. */
  predicate Applies(cmd: string, prefix: string) {
    cmd == prefix || prefix + " " <= cmd
  }

  /** What stands behind the prefix. */
  function Arguments(cmd: string, prefix: string): string
    requires |prefix| <= |cmd|
  {
    TrimSpace(cmd[|prefix|..])
  }

  lemma StripExactly(cmd: string, prefix: string)
    ensures Applies(cmd, prefix) ==> |prefix| <= |cmd| && StripWordPrefix(cmd, prefix) == Some(Arguments(cmd, prefix))
    ensures !Applies(cmd, prefix) ==> StripWordPrefix(cmd, prefix) == None
  {
    hide TrimSpace;
    var n := |prefix|;
    BlankBehind(cmd, prefix);
    if cmd == prefix {
      assert cmd[n..] == "" && TrimSpace("") == "" by { TrimSpaceOfTrimmed(""); }
    } else if prefix + " " <= cmd {
      TrimBlank(cmd[n + 1..]);
    }
  }

  lemma BlankBehind(cmd: string, prefix: string)
    ensures var n := |prefix|; prefix + " " <= cmd <==> n < |cmd| && prefix <= cmd && cmd[n] == ' '
    ensures var n := |prefix|; prefix + " " <= cmd ==> cmd[n..] == " " + cmd[n + 1..]
  {
    var n := |prefix|;
    if n < |cmd| && prefix <= cmd && cmd[n] == ' ' {
      assert cmd[..n + 1] == prefix + " ";
    }
    if prefix + " " <= cmd {
      assert cmd[n] == (prefix + " ")[n] && cmd[..n] == (prefix + " ")[..n] == prefix;
    }
  }

  lemma TrimBlank(s: string)
    ensures TrimSpace(" " + s) == TrimSpace(s)
  {
    assert (" " + s)[1..] == s;
  }

  ghost predicate FirstRule(rules: seq<Rule>, command: string, r: Rule) {
    exists k :: 0 <= k < |rules| && rules[k] == r && r.command == command && NoneBefore(rules, command, k)
  }

  ghost predicate NoneBefore(rules: seq<Rule>, command: string, k: nat) {
    forall j :: 0 <= j < k && j < |rules| ==> rules[j].command != command
  }

  lemma {:induction false} FindRuleExactly(rules: seq<Rule>, command: string, i: nat)
    requires i < |rules| && rules[i].command == command
    ensures FindRule(rules, command).Some? && FirstRule(rules, command, FindRule(rules, command).value)
    ensures forall r :: FirstRule(rules, command, r) ==> FindRule(rules, command) == Some(r)
  {
    var k := FirstIndex(rules, command);
    assert FirstRule(rules, command, rules[k]);
    forall r | FirstRule(rules, command, r) ensures r == rules[k] {
      var j :| 0 <= j < |rules| && rules[j] == r && r.command == command && NoneBefore(rules, command, j);
    }
  }

  lemma {:induction false} FirstIndex(rules: seq<Rule>, command: string) returns (k: nat)
    requires exists i :: 0 <= i < |rules| && rules[i].command == command
    ensures k < |rules| && rules[k].command == command && NoneBefore(rules, command, k)
    ensures FindRule(rules, command) == Some(rules[k])
  {
    if rules[0].command == command {
      k := 0;
    } else {
      assert exists i :: 0 <= i < |rules[1..]| && rules[1..][i].command == command by {
        var i :| 0 <= i < |rules| && rules[i].command == command;
        assert rules[1..][i - 1] == rules[i];
      }
      k := FirstIndex(rules[1..], command);
      k := k + 1;
      assert forall j :: 0 < j < k ==> rules[j] == rules[1..][j - 1];
    }
  }

  ghost predicate FirstPrefix(prefixes: seq<string>, cmd: string, p: string) {
    exists k :: 0 <= k < |prefixes| && prefixes[k] == p && Applies(cmd, p) && NoPrefixBefore(prefixes, cmd, k)
  }

  ghost predicate NoPrefixBefore(prefixes: seq<string>, cmd: string, k: nat) {
    forall j :: 0 <= j < k && j < |prefixes| ==> !Applies(cmd, prefixes[j])
  }

  lemma {:induction false} FirstRestExactly(cmd: string, prefixes: seq<string>) returns (k: nat)
    ensures k <= |prefixes| && NoPrefixBefore(prefixes, cmd, k)
    ensures k == |prefixes| ==> FirstRest(cmd, prefixes) == None
    ensures k < |prefixes| ==> Applies(cmd, prefixes[k]) && |prefixes[k]| <= |cmd|
    ensures k < |prefixes| ==> FirstRest(cmd, prefixes) == Some(Arguments(cmd, prefixes[k]))
  {
    hide Applies, StripWordPrefix, Arguments;
    if prefixes == [] {
      k := 0;
    } else {
      StripExactly(cmd, prefixes[0]);
      if Applies(cmd, prefixes[0]) {
        k := 0;
      } else {
        k := FirstRestExactly(cmd, prefixes[1..]);
        k := k + 1;
        assert forall j :: 0 < j < k ==> prefixes[j] == prefixes[1..][j - 1];
        assert k < |prefixes| ==> prefixes[k] == prefixes[1..][k - 1];
      }
    }
  }

  /** The env prefix of a command, the rest, and the rest as the rules see it. */
  function EnvOf(seg: string): string {
    EnvPrefix(TrimSpace(seg))
  }

  function RestOf(seg: string): string {
    TrimSpace(TrimSpace(seg)[|EnvOf(seg)|..])
  }

  function CommandOf(e: Engine, seg: string): string {
    Normalise(e, RestOf(seg))
  }

  /** A command that may be rewritten at all. */
  ghost predicate Open(seg: string) {
    var t := TrimSpace(seg);
    t != "" && t != "tokman" && !("tokman " <= t) && !Contains(EnvOf(seg), "TOKMAN_DISABLED=")
  }

  ghost predicate HeadCase(e: Engine, cmd: string) {
    "head" <= cmd && e.headLines(cmd).Some?
  }

  ghost predicate TailCase(e: Engine, cmd: string) {
    "tail" <= cmd && e.tailLines(cmd).Some?
  }

  ghost predicate Foreign(rest: string) {
    rest != "" && rest != "tokman" && !("tokman " <= rest)
  }

  ghost predicate LastToMatch(patterns: seq<string -> bool>, rest: string, i: nat) {
    i < |patterns| && patterns[i](rest) && forall j :: i < j < |patterns| ==> !patterns[j](rest)
  }

  /** The first word is not excluded, gh gives no structured output, and p is the first
      prefix that applies. */
  ghost predicate Fits(e: Engine, cmd: string, excluded: set<string>, r: Rule, p: string) {
    && (Fields(cmd) == [] || Fields(cmd)[0] !in excluded)
    && !(r.command == "tokman gh" && e.structured(cmd))
    && FirstPrefix(r.prefixes, cmd, p)
  }

  /** Pattern i is the last to match, r the first rule with the command of rule i and
      p the first of its prefixes that applies; and nothing speaks against it. */
  ghost predicate RuleCase(e: Engine, seg: string, excluded: set<string>, i: nat, r: Rule, p: string) {
    && !Ignored(e, TrimSpace(seg)) && Foreign(RestOf(seg))
    && LastToMatch(e.patterns, RestOf(seg), i)
    && i < |e.rules| && FirstRule(e.rules, e.rules[i].command, r)
    && Fits(e, CommandOf(e, seg), excluded, r, p)
  }

  function Behind(s: string): string {
    if s == "" then "" else " " + s
  }

  /** A rule puts its command in place of the prefix. */
  lemma RuleApplies(e: Engine, seg: string, excluded: set<string>, i: nat, r: Rule, p: string)
    requires Sound(e) && Open(seg) && !HeadCase(e, CommandOf(e, seg)) && !TailCase(e, CommandOf(e, seg))
    requires RuleCase(e, seg, excluded, i, r, p)
    ensures var cmd := CommandOf(e, seg);
            |p| <= |cmd| && Rewrite(e, seg, excluded) == (EnvOf(seg) + r.command + Behind(Arguments(cmd, p)), true)
  {
    hide TrimSpace, EnvPrefix, Fields, FirstRest, FindRule, Normalise, Contains, Arguments, FirstPrefix, FirstRule, NoPrefixBefore;
    var cmd := CommandOf(e, seg);
    TrimSpaceOfTrimmed(TrimSpace(seg));
    FindRuleExactly(e.rules, e.rules[i].command, i);
    var k := FirstRestExactly(cmd, r.prefixes);
    SomePrefix(r.prefixes, cmd, p, k);
    assert Classify(e, TrimSpace(seg)) == Some(e.rules[i]);
  }

  lemma SomePrefix(prefixes: seq<string>, cmd: string, p: string, k: nat)
    requires k <= |prefixes| && NoPrefixBefore(prefixes, cmd, k) && FirstPrefix(prefixes, cmd, p)
    requires k < |prefixes| ==> Applies(cmd, prefixes[k])
    ensures k < |prefixes| && prefixes[k] == p
  {
    hide Applies;
    var j :| 0 <= j < |prefixes| && prefixes[j] == p && Applies(cmd, p) && NoPrefixBefore(prefixes, cmd, j);
  }

  /** Nothing else is rewritten. */
  lemma RuleNeeded(e: Engine, seg: string, excluded: set<string>) returns (i: nat, r: Rule, p: string)
    requires Sound(e) && Open(seg) && !HeadCase(e, CommandOf(e, seg)) && !TailCase(e, CommandOf(e, seg))
    requires Rewrite(e, seg, excluded).1
    ensures RuleCase(e, seg, excluded, i, r, p)
  {
    hide TrimSpace, EnvPrefix, Fields, FirstRest, FindRule, Normalise, Contains, Arguments, Applies;
    TrimSpaceOfTrimmed(TrimSpace(seg));
    i := LastMatch(e.patterns, RestOf(seg)).value;
    FindRuleExactly(e.rules, e.rules[i].command, i);
    r := FindRule(e.rules, e.rules[i].command).value;
    var k := FirstRestExactly(CommandOf(e, seg), r.prefixes);
    p := r.prefixes[k];
    assert FirstPrefix(r.prefixes, CommandOf(e, seg), p);
  }

  ghost predicate SomeRule(e: Engine, seg: string, excluded: set<string>) {
    exists i, r, p :: RuleCase(e, seg, excluded, i, r, p)
  }

  /** Rewriting, case by case: a command is changed if and only if it is open to
      rewriting and head, tail or a rule applies, and then it becomes what that case
      says; else it is returned as it came, or trimmed if it is tokman already. */
  lemma RewriteExactly(e: Engine, seg: string, excluded: set<string>)
    requires Sound(e)
    ensures var cmd := CommandOf(e, seg);
            && (Open(seg) && HeadCase(e, cmd) ==>
                  var (n, file) := e.headLines(cmd).value;
                  Rewrite(e, seg, excluded) == (EnvOf(seg) + "tokman read " + file + " --max-lines " + n, true))
            && (Open(seg) && !HeadCase(e, cmd) && TailCase(e, cmd) ==>
                  var (n, file) := e.tailLines(cmd).value;
                  Rewrite(e, seg, excluded) == (EnvOf(seg) + "tokman read " + file + " --tail-lines " + n, true))
            && (Rewrite(e, seg, excluded).1 <==>
                Open(seg) && (HeadCase(e, cmd) || TailCase(e, cmd) || SomeRule(e, seg, excluded)))
    ensures !Rewrite(e, seg, excluded).1 ==>
              var t := TrimSpace(seg);
              Rewrite(e, seg, excluded).0 == if t == "tokman" || "tokman " <= t then t else seg
  {
    hide TrimSpace, EnvPrefix, Fields, Normalise, Contains, RuleCase, Classify, FirstRest, FindRule;
    var cmd := CommandOf(e, seg);
    if Open(seg) && !HeadCase(e, cmd) && !TailCase(e, cmd) {
      if Rewrite(e, seg, excluded).1 {
        var i, r, p := RuleNeeded(e, seg, excluded);
      }
      if SomeRule(e, seg, excluded) {
        var i, r, p :| RuleCase(e, seg, excluded, i, r, p);
        RuleApplies(e, seg, excluded, i, r, p);
      }
    }
  }
}
