/** Rewriting one command of internal/discover/registry.go, and why rewriting it
    again changes nothing. */
module SegmentRewriter {
  import opened Collections
  import opened Text

  datatype Rule = Rule(command: string, prefixes: seq<string>)

  /** The rule table and the regular expressions.  `gitOptions` is
      stripGitGlobalOpts on a command that starts with "git ", `binaryName` is
      stripAbsolutePath on one that starts with '/', `lines` are the head and tail
      patterns (count and file) and `patterns` those of the rules, one for each. */
  datatype Engine = Engine(
    rules: seq<Rule>,
    patterns: seq<string -> bool>,
    ignoredExact: set<string>,
    ignoredPrefixes: seq<string>,
    gitOptions: string -> string,
    binaryName: string -> string,
    headLines: string -> Option<(string, string)>,
    tailLines: string -> Option<(string, string)>,
    structured: string -> bool)

  /** Rules and patterns are parallel tables, every rule's command is "tokman " and a
      name, and line counts are words. */
  ghost predicate Sound(e: Engine) {
    && |e.patterns| == |e.rules|
    && (forall i :: 0 <= i < |e.rules| ==> "tokman " <= e.rules[i].command && Trimmed(e.rules[i].command))
    && (forall s :: e.headLines(s).Some? ==> e.headLines(s).value.0 != "" && Trimmed(e.headLines(s).value.0))
    && (forall s :: e.tailLines(s).Some? ==> e.tailLines(s).value.0 != "" && Trimmed(e.tailLines(s).value.0))
  }

  /** There are such engines: here one with a rule for git. */
  lemma SoundEngine() returns (e: Engine)
    ensures Sound(e) && e.rules != []
  {
    var count := "5";
    var rule := Rule("tokman git", ["git"]);
    e := Engine([rule], [(s: string) => true], {"cd"}, ["cd "], (s: string) => s, (s: string) => s,
                (s: string) => Some((count, s)), (s: string) => None, (s: string) => false);
    assert "tokman " <= rule.command && Trimmed(rule.command);
    assert Trimmed(count) && count != "";
    forall i | 0 <= i < |e.rules| ensures "tokman " <= e.rules[i].command && Trimmed(e.rules[i].command) {
      assert e.rules[i] == rule;
    }
  }

  // ---- The env prefix: ^(?:sudo\s+|env\s+|[A-Z_][A-Z0-9_]*=[^\s]*\s+)+ -----------------

  /** \s of the regexp package. */
  predicate RegexSpace(c: char) {
    c == ' ' || c == '\t' || c == '\n' || c == '\r' || c as int == 12
  }

  predicate NameChar(c: char) {
    'A' <= c <= 'Z' || c == '_' || '0' <= c <= '9'
  }

  datatype Class = Space | NonSpace | Name

  predicate Is(k: Class, c: char) {
    match k case Space => RegexSpace(c) case NonSpace => !RegexSpace(c) case Name => NameChar(c)
  }

  /** Length of the leading run of a character class. */
  function Run(k: Class, s: string): (n: nat)
    ensures n <= |s| && (forall i :: 0 <= i < n ==> Is(k, s[i])) && (n < |s| ==> !Is(k, s[n]))
  {
    if s == "" || !Is(k, s[0]) then 0 else 1 + Run(k, s[1..])
  }

  /** The word and the white space behind it: sudo\s+ or env\s+. */
  function WordItem(word: string, s: string): (n: nat)
    ensures n <= |s|
  {
    if word <= s && Run(Space, s[|word|..]) > 0 then |word| + Run(Space, s[|word|..]) else 0
  }

  /** [^\s]*\s+ */
  function ValueItem(s: string): (n: nat)
    ensures n <= |s|
  {
    var v := Run(NonSpace, s);
    var w := Run(Space, s[v..]);
    if w > 0 then v + w else 0
  }

  /** [A-Z_][A-Z0-9_]*=[^\s]*\s+ */
  function AssignmentItem(s: string): (n: nat)
    ensures n <= |s|
  {
    var n := Run(Name, s);
    if 0 < n < |s| && !('0' <= s[0] <= '9') && s[n] == '=' && ValueItem(s[n + 1..]) > 0
    then n + 1 + ValueItem(s[n + 1..]) else 0
  }

  /** The length of the item that starts s, or 0. */
  function Item(s: string): (n: nat)
    ensures n <= |s|
  {
    if WordItem("sudo", s) > 0 then WordItem("sudo", s)
    else if WordItem("env", s) > 0 then WordItem("env", s)
    else AssignmentItem(s)
  }

  /** envPrefixRegex.FindString. */
  function EnvPrefix(s: string): (p: string)
    ensures p <= s
    decreases |s|
  {
    var n := Item(s);
    if n == 0 then ""
    else
      var rest := EnvPrefix(s[n..]);
      PrefixAfter(s, n, rest);
      s[..n] + rest
  }

  lemma PrefixAfter(s: string, n: nat, p: string)
    requires n <= |s| && p <= s[n..]
    ensures s[..n] + p <= s
  {
    TakeDrop(s, n);
  }

  ghost predicate AllOf(k: Class, s: string) {
    forall i :: 0 <= i < |s| ==> Is(k, s[i])
  }

  lemma {:induction false} RunConcat(k: Class, a: string, b: string)
    requires AllOf(k, a) && (b == "" || !Is(k, b[0]))
    ensures Run(k, a + b) == |a|
  {
    hide Is;
    if a == "" {
      assert a + b == b;
    } else {
      ConcatTail(a, b);
      RunConcat(k, a[1..], b);
    }
  }

  lemma WordItemStable(word: string, s: string, v: string)
    requires word != "" && WordItem(word, s) > 0 && (v == "" || !RegexSpace(v[0]))
    ensures WordItem(word, s[..WordItem(word, s)] + v) == WordItem(word, s)
    ensures s[0] == word[0]
  {
    hide Run, RegexSpace;
    var k, m := WordItem(word, s), |word|;
    var blanks, t := s[m..k], s[..k] + v;
    DropSlice(s, m, k, v);
    TakeSlice(s, m, k);
    assert AllOf(Space, blanks);
    RunConcat(Space, blanks, v);
    assert t[..m] == word;
  }

  lemma ValueItemStable(s: string, v: string)
    requires ValueItem(s) > 0 && (v == "" || !RegexSpace(v[0]))
    ensures ValueItem(s[..ValueItem(s)] + v) == ValueItem(s)
  {
    hide Run, RegexSpace;
    var k, n := ValueItem(s), Run(NonSpace, s);
    var a, b := s[..n], s[n..k];
    TakeSlice(s, n, k);
    Assoc(a, b, v);
    assert AllOf(NonSpace, a) && AllOf(Space, b);
    ConcatTail(b, v);
    RunConcat(NonSpace, a, b + v);
    RunConcat(Space, b, v);
    assert (a + (b + v))[n..] == b + v;
  }

  lemma AssignmentItemStable(s: string, v: string)
    requires AssignmentItem(s) > 0 && (v == "" || !RegexSpace(v[0]))
    ensures AssignmentItem(s[..AssignmentItem(s)] + v) == AssignmentItem(s)
    ensures NameChar(s[0])
  {
    hide ValueItem, Run, RegexSpace;
    var k, n := AssignmentItem(s), Run(Name, s);
    var a, b := s[..n], s[n..k] + v;
    assert Is(Name, s[0]) && AllOf(Name, a) && b[0] == '=';
    TakeSlice(s, n, k);
    Assoc(a, s[n..k], v);
    RunConcat(Name, a, b);
    ValueItemStable(s[n + 1..], v);
    DropSlice(s, n + 1, k, v);
  }

  lemma DropSlice(s: string, a: nat, k: nat, v: string)
    requires a <= k <= |s|
    ensures (s[..k] + v)[a..] == s[a..][..k - a] + v
  {
    assert s[a..][..k - a] == s[a..k];
    assert s[..k] == s[..a] + s[a..k];
    Assoc(s[..a], s[a..k], v);
  }

  /** An item is recognised by its own text when no white space follows it. */
  lemma ItemStable(s: string, v: string)
    requires Item(s) > 0 && (v == "" || !RegexSpace(v[0]))
    ensures Item(s[..Item(s)] + v) == Item(s)
    ensures !RegexSpace(s[0])
  {
    hide AssignmentItem;
    var t := s[..Item(s)] + v;
    assert t[0] == s[0];
    if WordItem("sudo", s) > 0 {
      WordItemStable("sudo", s, v);
    } else if WordItem("env", s) > 0 {
      WordItemStable("env", s, v);
      assert !("sudo" <= t);
    } else {
      AssignmentItemStable(s, v);
      assert !("sudo" <= t) && !("env" <= t);
    }
  }

  /** The maximal env prefix is recovered from itself and any text that starts no item. */
  lemma {:induction false} EnvPrefixStable(s: string, v: string)
    requires Item(v) == 0 && (v == "" || !RegexSpace(v[0]))
    ensures EnvPrefix(EnvPrefix(s) + v) == EnvPrefix(s)
    decreases |s|
  {
    hide Item;
    var n := Item(s);
    if n == 0 {
      assert EnvPrefix(s) + v == v;
    } else {
      var rest := EnvPrefix(s[n..]);
      EnvPrefixStable(s[n..], v);
      EnvPrefixStart(s[n..], v);
      ItemStable(s, rest + v);
      Assoc(s[..n], rest, v);
      EnvPrefixStep(s[..n], rest + v);
    }
  }

  lemma EnvPrefixStep(item: string, rest: string)
    requires item != "" && Item(item + rest) == |item|
    ensures EnvPrefix(item + rest) == item + EnvPrefix(rest)
  {
    hide Item;
    var t := item + rest;
    assert t[..|item|] == item && t[|item|..] == rest;
  }

  lemma EnvPrefixStart(s: string, v: string)
    requires v == "" || !RegexSpace(v[0])
    ensures var t := EnvPrefix(s) + v; t == "" || !RegexSpace(t[0])
  {
    hide Item;
    if Item(s) > 0 {
      ItemStable(s, "");
    }
  }

  lemma TokmanIsNoItem(v: string)
    requires "tokman " <= v
    ensures Item(v) == 0
  {
    assert v[0] == 't';
  }

  // ---- ClassifyCommand and rewriteSegment ---------------------------------------------------

  const DISABLED := "TOKMAN_DISABLED="

  predicate IsTokman(s: string) {
    "tokman " <= s || s == "tokman"
  }

  predicate Ignored(e: Engine, cmd: string) {
    cmd in e.ignoredExact || exists i :: 0 <= i < |e.ignoredPrefixes| && e.ignoredPrefixes[i] <= cmd
  }

  /** The last pattern that matches, which is taken to be the most specific. */
  function LastMatch(patterns: seq<string -> bool>, cmd: string): (r: Option<nat>)
    ensures r.Some? ==> r.value < |patterns| && patterns[r.value](cmd)
    ensures forall j :: (if r.Some? then r.value + 1 else 0) <= j < |patterns| ==> !patterns[j](cmd)
  {
    if patterns == [] then None
    else if patterns[|patterns| - 1](cmd) then Some(|patterns| - 1)
    else LastMatch(patterns[..|patterns| - 1], cmd)
  }

  /** The rule of the last matching pattern, if the command is supported. */
  function Classify(e: Engine, cmd: string): Option<Rule> {
    var trimmed := TrimSpace(cmd);
    if trimmed == "" || Ignored(e, trimmed) then None
    else
      var clean := TrimSpace(trimmed[|EnvPrefix(trimmed)|..]);
      if clean == "" || IsTokman(clean) then None
      else
        match LastMatch(e.patterns, clean)
        case Some(i) => if i < |e.rules| then Some(e.rules[i]) else None
        case None => None
  }

  /** The first rule with this command. */
  function FindRule(rules: seq<Rule>, command: string): (r: Option<Rule>)
    ensures r.Some? ==> r.value in rules && r.value.command == command
  {
    if rules == [] then None
    else if rules[0].command == command then Some(rules[0])
    else FindRule(rules[1..], command)
  }

  /** stripWordPrefix. */
  function StripWordPrefix(cmd: string, prefix: string): (r: Option<string>)
    ensures r.Some? ==> Trimmed(r.value)
  {
    if cmd == prefix then Some("")
    else if |cmd| > |prefix| && prefix <= cmd && cmd[|prefix|] == ' ' then Some(TrimSpace(cmd[|prefix| + 1..]))
    else None
  }

  /** The rest behind the first prefix that applies. */
  function FirstRest(cmd: string, prefixes: seq<string>): (r: Option<string>)
    ensures r.Some? ==> Trimmed(r.value)
  {
    if prefixes == [] then None
    else if StripWordPrefix(cmd, prefixes[0]).Some? then StripWordPrefix(cmd, prefixes[0])
    else FirstRest(cmd, prefixes[1..])
  }

  function Normalise(e: Engine, clean: string): string {
    var git := if "git " <= clean then e.gitOptions(clean) else clean;
    if git != "" && git[0] == '/' then e.binaryName(git) else git
  }

  function ReadLines(env: string, file: string, option: string, count: string): string {
    env + "tokman read " + file + option + count
  }

  function Rewrite(e: Engine, seg: string, excluded: set<string>): (string, bool) {
    var trimmed := TrimSpace(seg);
    if trimmed == "" then (seg, false)
    else if IsTokman(trimmed) then (trimmed, false)
    else
      var env := EnvPrefix(trimmed);
      var clean := TrimSpace(trimmed[|env|..]);
      if Contains(env, DISABLED) then (seg, false)
      else
        var cmd := Normalise(e, clean);
        if "head" <= cmd && e.headLines(cmd).Some? then
          (ReadLines(env, e.headLines(cmd).value.1, " --max-lines ", e.headLines(cmd).value.0), true)
        else if "tail" <= cmd && e.tailLines(cmd).Some? then
          (ReadLines(env, e.tailLines(cmd).value.1, " --tail-lines ", e.tailLines(cmd).value.0), true)
        else ApplyRule(e, seg, trimmed, env, cmd, excluded)
  }

  function ApplyRule(e: Engine, seg: string, trimmed: string, env: string, cmd: string, excluded: set<string>): (string, bool) {
    match Classify(e, trimmed)
    case None => (seg, false)
    case Some(found) =>
      if Fields(cmd) != [] && Fields(cmd)[0] in excluded then (seg, false)
      else
        match FindRule(e.rules, found.command)
        case None => (seg, false)
        case Some(rule) =>
          if rule.command == "tokman gh" && e.structured(cmd) then (seg, false)
          else
            match FirstRest(cmd, rule.prefixes)
            case None => (seg, false)
            case Some(rest) => (env + rule.command + (if rest == "" then "" else " " + rest), true)
  }

  // ---- Rewriting twice -----------------------------------------------------------------------------

  /** A rewritten command: an env prefix, then a tokman command. */
  ghost predicate Rewritten(env: string, r: string) {
    && env <= r && "tokman " <= r[|env|..] && Trimmed(r[|env|..])
  }

  lemma ReadLinesShape(env: string, file: string, option: string, count: string)
    requires count != "" && Trimmed(count)
    ensures Rewritten(env, ReadLines(env, file, option, count))
  {
    var r := ReadLines(env, file, option, count);
    var body := "tokman read " + file + option + count;
    assert r == env + body;
    assert r[|env|..] == body;
    assert body[|body| - 1] == count[|count| - 1];
  }

  lemma RuleShape(env: string, command: string, rest: string)
    requires "tokman " <= command && Trimmed(command) && Trimmed(rest)
    ensures Rewritten(env, env + command + (if rest == "" then "" else " " + rest))
  {
    var body := command + (if rest == "" then "" else " " + rest);
    var r := env + command + (if rest == "" then "" else " " + rest);
    assert r == env + body && r[|env|..] == body;
    assert body[..7] == command[..7];
    assert body[|body| - 1] == if rest == "" then command[|command| - 1] else rest[|rest| - 1];
  }

  /** A change puts a tokman command behind the env prefix of the input. */
  lemma ChangedShape(e: Engine, seg: string, excluded: set<string>)
    requires Sound(e) && Rewrite(e, seg, excluded).1
    ensures var env := EnvPrefix(TrimSpace(seg)); Rewritten(env, Rewrite(e, seg, excluded).0) && !Contains(env, DISABLED)
  {
    hide TrimSpace, EnvPrefix, Contains, Classify, Normalise, Fields, ReadLines, Rewritten;
    var trimmed := TrimSpace(seg);
    var env := EnvPrefix(trimmed);
    var cmd := Normalise(e, TrimSpace(trimmed[|env|..]));
    if "head" <= cmd && e.headLines(cmd).Some? {
      var (n, file) := e.headLines(cmd).value;
      ReadLinesShape(env, file, " --max-lines ", n);
    } else if "tail" <= cmd && e.tailLines(cmd).Some? {
      var (n, file) := e.tailLines(cmd).value;
      ReadLinesShape(env, file, " --tail-lines ", n);
    } else {
      var rule := FindRule(e.rules, Classify(e, trimmed).value.command).value;
      var rest := FirstRest(cmd, rule.prefixes).value;
      RuleShape(env, rule.command, rest);
    }
  }

  /** Without a change the command is returned as it came, or trimmed. */
  lemma UnchangedShape(e: Engine, seg: string, excluded: set<string>)
    requires !Rewrite(e, seg, excluded).1
    ensures Rewrite(e, seg, excluded).0 == seg || Rewrite(e, seg, excluded).0 == TrimSpace(seg)
  {
    hide TrimSpace, EnvPrefix, Contains, Classify, Normalise, Fields, ReadLines, IsTokman;
  }

  lemma RewrittenTrimmed(trimmed: string, r: string)
    requires trimmed != "" && Trimmed(trimmed) && Rewritten(EnvPrefix(trimmed), r)
    ensures TrimSpace(r) == r && TrimSpace(r[|EnvPrefix(trimmed)|..]) == r[|EnvPrefix(trimmed)|..]
  {
    hide EnvPrefix, TrimSpace, IsSpace;
    var env := EnvPrefix(trimmed);
    var body := r[|env|..];
    assert body[0] == 't' && r[|r| - 1] == body[|body| - 1];
    assert if env == "" then r == body else r[0] == env[0] == trimmed[0];
    TrimSpaceOfTrimmed(r);
    TrimSpaceOfTrimmed(body);
  }

  lemma RewriteTokman(e: Engine, env: string, r: string, excluded: set<string>)
    requires r != "" && Rewritten(env, r) && EnvPrefix(r) == env && !Contains(env, DISABLED)
    requires TrimSpace(r) == r && TrimSpace(r[|env|..]) == r[|env|..]
    ensures Rewrite(e, r, excluded) == (r, false)
  {
    hide TrimSpace, EnvPrefix, Contains, Fields;
    var body := r[|env|..];
    assert body[0] == 't' && IsTokman(body) && body != "";
    assert Normalise(e, body) == body by { hide IsTokman; }
    assert "head"[0] == 'h' && !("head" <= body);
    assert body[1] == 'o' && !("tail" <= body);
    assert Classify(e, r) == None;
  }

  /** Rewriting is idempotent: a second pass returns the command unchanged and
      reports no change, whatever env prefix it carries. */
  lemma RewriteIdempotent(e: Engine, seg: string, excluded: set<string>)
    requires Sound(e)
    ensures var r := Rewrite(e, seg, excluded).0; Rewrite(e, r, excluded) == (r, false)
  {
    hide Classify, Contains, Normalise, Fields, EnvPrefix, Item, ReadLines, Rewritten, ApplyRule, Sound, TrimSpace;
    var (r, changed) := Rewrite(e, seg, excluded);
    var trimmed := TrimSpace(seg);
    if changed {
      var env := EnvPrefix(trimmed);
      ChangedShape(e, seg, excluded);
      RewrittenTrimmed(trimmed, r);
      RewrittenPrefix(trimmed, r);
      RewriteTokman(e, env, r, excluded);
    } else {
      TrimSpaceOfTrimmed(trimmed);
      UnchangedShape(e, seg, excluded);
      if r != seg {
        UnchangedTokman(e, seg, excluded);
      }
    }
  }

  lemma UnchangedTokman(e: Engine, seg: string, excluded: set<string>)
    requires !Rewrite(e, seg, excluded).1 && Rewrite(e, seg, excluded).0 != seg
    ensures IsTokman(TrimSpace(seg)) && TrimSpace(seg) != ""
  {
    hide TrimSpace, EnvPrefix, Contains, Classify, Normalise, Fields, ReadLines;
  }

  lemma RewrittenPrefix(trimmed: string, r: string)
    requires Rewritten(EnvPrefix(trimmed), r)
    ensures EnvPrefix(r) == EnvPrefix(trimmed) && r != ""
  {
    hide EnvPrefix, Item;
    var env := EnvPrefix(trimmed);
    var body := r[|env|..];
    TokmanIsNoItem(body);
    assert body[0] == 't' && r == env + body;
    EnvPrefixStable(trimmed, body);
  }
}
