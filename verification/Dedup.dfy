/** CrossMessageDedup of internal/filter/dedup.go: near-duplicates of what was
    sent before. */
module Dedup {
  import opened Collections
  import opened Text
  import opened Hamming

  /** NewCrossMessageDedup's threshold. */
  const THRESHOLD := 3

  /** The 64 bits that SimHash computes. */
  datatype Fingerprint = Fingerprint(bits: bv64)

  ghost function Apart(a: Fingerprint, b: Fingerprint): nat {
    Distance(a.bits, b.bits)
  }

  type Tracked = map<Fingerprint, string>

  ghost predicate Close(seen: Tracked, h: Fingerprint) {
    exists k :: k in seen && Apart(h, k) <= 3
  }

  /** What one message does to the tracked contents. */
  ghost function Track(hash: string -> Fingerprint, seen: Tracked, content: string): Tracked {
    if Close(seen, hash(content)) then seen else seen[hash(content) := content]
  }

  // ---- The reply ---------------------------------------------------------------------------

  function Prefixed(mark: string, lines: seq<string>): seq<string> {
    if lines == [] then [] else Prefixed(mark, lines[..|lines| - 1]) + [mark + lines[|lines| - 1]]
  }

  /** The diff of two line sets, listed in the given orders; "" for equal sets. */
  function DiffText(removed: seq<string>, added: seq<string>): string {
    if removed == [] && added == [] then ""
    else
      "[diff]\n" + Join(Prefixed("- ", removed)) + (if removed != [] && added != [] then "\n" else "")
      + Join(Prefixed("+ ", added))
  }

  function LineSet(text: string): set<string> {
    set l | l in Split(text)
  }

  /** A text that generateDiff may return. */
  ghost predicate IsDiff(before: string, after: string, text: string) {
    exists removed, added ::
      && IsOrder(removed, LineSet(before) - LineSet(after)) && IsOrder(added, LineSet(after) - LineSet(before))
      && text == DiffText(removed, added)
  }

  method ListLines(lines: set<string>) returns (order: seq<string>)
    ensures IsOrder(order, lines)
  {
    order := [];
    var todo := lines;
    OrderEmpty(lines - todo);
    while todo != {}
      invariant todo <= lines && IsOrder(order, lines - todo)
    {
      var l :| l in todo;
      VisitNext(lines, todo, order, l);
      order := order + [l];
      todo := todo - {l};
    }
    assert lines - todo == lines;
  }

  method GenerateDiff(before: string, after: string) returns (text: string)
    ensures IsDiff(before, after, text)
  {
    var removed := ListLines(LineSet(before) - LineSet(after));
    var added := ListLines(LineSet(after) - LineSet(before));
    text := DiffText(removed, added);
  }

  /** The diff is empty if and only if both contents have the same lines, in any
      order and number. */
  lemma DiffSilentExactly(before: string, after: string, text: string)
    requires IsDiff(before, after, text)
    ensures text == "" <==> LineSet(before) == LineSet(after)
  {
    hide IsOrder, LineSet;
    var removed, added :|
      && IsOrder(removed, LineSet(before) - LineSet(after)) && IsOrder(added, LineSet(after) - LineSet(before))
      && text == DiffText(removed, added);
    OrderLength(removed, LineSet(before) - LineSet(after));
    OrderLength(added, LineSet(after) - LineSet(before));
    DiffTextEmpty(removed, added);
    assert LineSet(before) - LineSet(after) == {} && LineSet(after) - LineSet(before) == {} ==>
             LineSet(before) <= LineSet(after) <= LineSet(before);
  }

  lemma DiffTextEmpty(removed: seq<string>, added: seq<string>)
    ensures DiffText(removed, added) == "" <==> |removed| == 0 && |added| == 0
  {
    hide Join, Prefixed;
    if removed != [] || added != [] {
      assert DiffText(removed, added)[0] == '[';
    }
  }

  const DUPLICATE := "[duplicate: previously sent]"

  /** The reply to a near duplicate of `tracked`: a diff, or a marker if it is empty.
      `head` cuts off the first fifty bytes. */
  ghost predicate IsNearReply(head: string -> string, tracked: string, content: string, text: string) {
    if LineSet(tracked) == LineSet(content) then text == "[near-duplicate: " + head(tracked) + "...]"
    else IsDiff(tracked, content, text)
  }

  datatype Reply = Exact | Near(tracked: Fingerprint) | New

  class CrossMessageDedup {
    const hash: string -> Fingerprint
    const head: string -> string
    var seen: Tracked

    constructor (hash: string -> Fingerprint, head: string -> string)
      ensures this.hash == hash && this.head == head && seen == map[]
    {
      this.hash, this.head, seen := hash, head, map[];
    }

    /** Whatever order the map is iterated in, the flag and the tracked contents
        are the same; the order only picks among the close ones. */
    method DedupMessage(content: string) returns (duplicate: bool, text: string, ghost reply: Reply)
      modifies this
      ensures duplicate == old(Close(seen, hash(content)))
      ensures seen == Track(hash, old(seen), content)
      ensures reply == Exact <==> hash(content) in old(seen) && old(seen)[hash(content)] == content
      ensures reply.Near? ==> reply.tracked in old(seen) && Apart(hash(content), reply.tracked) <= THRESHOLD
      ensures reply == New <==> !duplicate
      ensures match reply
              case Exact => text == DUPLICATE
              case Near(k) => k in old(seen) && IsNearReply(head, old(seen)[k], content, text)
              case New => text == content
    {
      hide IsDiff, LineSet;
      var h := hash(content);
      if h in seen && seen[h] == content {
        ApartMetric(h, h, h);
        return true, DUPLICATE, Exact;
      }
      var todo := seen.Keys;
      while todo != {}
        invariant seen == old(seen) && todo <= seen.Keys
        invariant forall k :: k in seen && k !in todo ==> Apart(h, k) > THRESHOLD
      {
        var k :| k in todo;
        var d := HammingDistance(h.bits, k.bits);
        if d <= THRESHOLD {
          var diff := GenerateDiff(seen[k], content);
          DiffSilentExactly(seen[k], content, diff);
          if diff == "" {
            diff := "[near-duplicate: " + head(seen[k]) + "...]";
          }
          return true, diff, Near(k);
        }
        todo := todo - {k};
      }
      seen := seen[h := content];
      return false, content, New;
    }

    method Clear()
      modifies this
      ensures seen == map[]
    {
      seen := map[];
    }
  }

  // ---- Runs ---------------------------------------------------------------------------------

  datatype Call = Message(content: string) | Clearing

  ghost function Seen(hash: string -> Fingerprint, calls: seq<Call>): Tracked {
    if calls == [] then map[]
    else
      match calls[|calls| - 1]
      case Message(content) => Track(hash, Seen(hash, calls[..|calls| - 1]), content)
      case Clearing => map[]
  }

  /** The message was sent since the last Clear. */
  ghost predicate Sent(calls: seq<Call>, content: string) {
    && calls != []
    && calls[|calls| - 1].Message?
    && (calls[|calls| - 1].content == content || Sent(calls[..|calls| - 1], content))
  }

  /** Tracked hashes pairwise differ in more than three bits. */
  ghost predicate Packed(seen: Tracked) {
    forall a, b :: a in seen && b in seen && a != b ==> Apart(a, b) > 3
  }

  lemma ApartMetric(a: Fingerprint, b: Fingerprint, c: Fingerprint)
    ensures Apart(a, b) == 0 <==> a == b
    ensures Apart(a, b) == Apart(b, a)
    ensures Apart(a, c) <= Apart(a, b) + Apart(b, c)
  {
    Metric(a.bits, b.bits, c.bits);
  }

  lemma TrackPacked(hash: string -> Fingerprint, seen: Tracked, content: string)
    requires Packed(seen)
    ensures Packed(Track(hash, seen, content))
  {
    hide Apart;
    var h := hash(content);
    if !Close(seen, h) {
      forall k | k in seen ensures Apart(h, k) > THRESHOLD && Apart(k, h) > THRESHOLD {
        ApartMetric(h, k, h);
      }
    }
  }

  /** After a message its hash is close to a tracked one, and nothing is lost. */
  lemma TrackCovers(hash: string -> Fingerprint, seen: Tracked, content: string)
    ensures Close(Track(hash, seen, content), hash(content))
    ensures forall k :: k in seen ==> k in Track(hash, seen, content) && Track(hash, seen, content)[k] == seen[k]
    ensures forall h :: Close(seen, h) ==> Close(Track(hash, seen, content), h)
  {
    hide Apart;
    var h := hash(content);
    ApartMetric(h, h, h);
    if h in seen {
      assert Close(seen, h);
    }
  }

  /** In every run: tracked contents are stored under their own hash, pairwise far
      apart, and every message since the last Clear is close to one of them. */
  lemma {:induction false} RunInvariant(hash: string -> Fingerprint, calls: seq<Call>)
    ensures Packed(Seen(hash, calls))
    ensures forall k :: k in Seen(hash, calls) ==> hash(Seen(hash, calls)[k]) == k && Sent(calls, Seen(hash, calls)[k])
    ensures forall m :: Sent(calls, m) ==> Close(Seen(hash, calls), hash(m))
  {
    hide Apart;
    if calls != [] {
      var init := calls[..|calls| - 1];
      RunInvariant(hash, init);
      match calls[|calls| - 1]
      case Message(content) =>
        TrackPacked(hash, Seen(hash, init), content);
        TrackCovers(hash, Seen(hash, init), content);
      case Clearing =>
    }
  }

  /** A tracked entry keeps its content until a Clear. */
  lemma NeverOverwritten(hash: string -> Fingerprint, calls: seq<Call>, content: string, k: Fingerprint)
    requires k in Seen(hash, calls)
    ensures var next := Seen(hash, calls + [Message(content)]); k in next && next[k] == Seen(hash, calls)[k]
  {
    hide Close;
    TrackCovers(hash, Seen(hash, calls), content);
    assert (calls + [Message(content)])[..|calls|] == calls;
  }

  /** Two messages close to the same tracked content are not far from each other. */
  lemma SharedRepresentative(hash: string -> Fingerprint, a: string, b: string, k: Fingerprint)
    requires Apart(hash(a), k) <= THRESHOLD && Apart(hash(b), k) <= THRESHOLD
    ensures Apart(hash(a), hash(b)) <= 2 * THRESHOLD
  {
    hide Apart;
    ApartMetric(hash(a), k, hash(b));
    ApartMetric(k, hash(b), k);
  }

  // ---- What a diff shows -----------------------------------------------------------------------

  lemma {:induction false} PrefixedAt(mark: string, lines: seq<string>)
    ensures |Prefixed(mark, lines)| == |lines|
    ensures forall i :: 0 <= i < |lines| ==> Prefixed(mark, lines)[i] == mark + lines[i]
  {
    if lines != [] {
      PrefixedAt(mark, lines[..|lines| - 1]);
    }
  }

  ghost predicate Flat(lines: seq<string>) {
    forall i :: 0 <= i < |lines| ==> '\n' !in lines[i]
  }

  lemma JoinConcat(a: seq<string>, b: seq<string>)
    requires a != [] && b != []
    ensures Join(a + b) == Join(a) + "\n" + Join(b)
  {
    if |a| == 1 {
      assert (a + b)[1..] == b;
    } else {
      JoinConcat(a[1..], b);
      ConcatTail(a, b);
      Assoc(a[0] + "\n", Join(a[1..]), "\n");
      Assoc(a[0] + "\n", Join(a[1..]) + "\n", Join(b));
    }
  }

  /** The lines of a diff: a header, the removed lines marked -, the added ones marked +. */
  lemma DiffLines(removed: seq<string>, added: seq<string>)
    requires Flat(removed) && Flat(added) && (removed != [] || added != [])
    ensures Split(DiffText(removed, added)) == ["[diff]"] + Prefixed("- ", removed) + Prefixed("+ ", added)
  {
    hide Join, Split;
    var a, b := Prefixed("- ", removed), Prefixed("+ ", added);
    PrefixedAt("- ", removed);
    PrefixedAt("+ ", added);
    var lines := ["[diff]"] + (a + b);
    assert Join(a + b) == Join(a) + (if removed != [] && added != [] then "\n" else "") + Join(b) by {
      JoinBoth(a, b);
    }
    DiffIsJoined(removed, added, a, b);
    assert Flat(lines) by { assert '\n' !in "[diff]"; }
    SplitJoin(lines);
    Assoc(["[diff]"], a, b);
  }

  lemma JoinBoth(a: seq<string>, b: seq<string>)
    ensures Join(a + b) == Join(a) + (if a != [] && b != [] then "\n" else "") + Join(b)
  {
    if a == [] {
      assert a + b == b;
    } else if b == [] {
      assert a + b == a;
    } else {
      JoinConcat(a, b);
    }
  }

  lemma DiffIsJoined(removed: seq<string>, added: seq<string>, a: seq<string>, b: seq<string>)
    requires a == Prefixed("- ", removed) && b == Prefixed("+ ", added) && (removed != [] || added != []) && a + b != []
    requires Join(a + b) == Join(a) + (if removed != [] && added != [] then "\n" else "") + Join(b)
    ensures DiffText(removed, added) == Join(["[diff]"] + (a + b))
  {
    hide Prefixed;
    JoinConcat(["[diff]"], a + b);
    var nl := if removed != [] && added != [] then "\n" else "";
    assert "[diff]" + "\n" == "[diff]\n";
    Assoc("[diff]\n", Join(a), nl);
    Assoc("[diff]\n", Join(a) + nl, Join(b));
  }

  /** A diff shows a line as removed if and only if only the old content has it, and as
      added if and only if only the new one has it. */
  lemma DiffShows(before: string, after: string, text: string, l: string)
    requires IsDiff(before, after, text) && text != ""
    ensures "- " + l in Split(text) <==> l in LineSet(before) && l !in LineSet(after)
    ensures "+ " + l in Split(text) <==> l in LineSet(after) && l !in LineSet(before)
  {
    hide Split, DiffText, Prefixed;
    var removed, added :|
      && IsOrder(removed, LineSet(before) - LineSet(after)) && IsOrder(added, LineSet(after) - LineSet(before))
      && text == DiffText(removed, added);
    FlatOrder(removed, before);
    FlatOrder(added, after);
    DiffTextEmpty(removed, added);
    DiffLines(removed, added);
    Marked("- ", "+ ", removed, added, l);
  }

  lemma FlatOrder(lines: seq<string>, text: string)
    requires forall l :: l in lines ==> l in LineSet(text)
    ensures Flat(lines)
  {
    hide Split;
    forall i | 0 <= i < |lines| ensures '\n' !in lines[i] {
      assert lines[i] in lines;
      assert lines[i] in Split(text);
    }
  }

  lemma Marked(minus: string, plus: string, removed: seq<string>, added: seq<string>, l: string)
    requires minus == "- " && plus == "+ "
    ensures var lines := ["[diff]"] + Prefixed(minus, removed) + Prefixed(plus, added);
            (minus + l in lines <==> l in removed) && (plus + l in lines <==> l in added)
  {
    hide Prefixed;
    PrefixedIn(minus, removed, l);
    PrefixedIn(plus, added, l);
    PrefixedNot(minus, removed, plus + l);
    PrefixedNot(plus, added, minus + l);
    assert (minus + l)[0] == '-' && (plus + l)[0] == '+' && "[diff]"[0] == '[';
  }

  lemma PrefixedIn(mark: string, lines: seq<string>, l: string)
    ensures mark + l in Prefixed(mark, lines) <==> l in lines
  {
    PrefixedAt(mark, lines);
    if l in lines {
      var i :| 0 <= i < |lines| && lines[i] == l;
      assert Prefixed(mark, lines)[i] == mark + l;
    }
    if mark + l in Prefixed(mark, lines) {
      var i :| 0 <= i < |lines| && Prefixed(mark, lines)[i] == mark + l;
      assert (mark + lines[i])[|mark|..] == lines[i] && (mark + l)[|mark|..] == l;
    }
  }

  lemma PrefixedNot(mark: string, lines: seq<string>, x: string)
    requires mark != "" && x != "" && x[0] != mark[0]
    ensures x !in Prefixed(mark, lines)
  {
    PrefixedAt(mark, lines);
    forall i | 0 <= i < |lines| ensures Prefixed(mark, lines)[i] != x {
      assert (mark + lines[i])[0] == mark[0];
    }
  }
}
