/** The alert manager of internal/budgetalerts/manager.go under concurrent
    evaluators, acknowledgements and resolutions. */
module BudgetAlerts {
  import opened Collections

  datatype Status = Active | Resolved | Acknowledged

  datatype Severity = Info | Warning | Critical | Emergency

  datatype Operator = Greater | GreaterEqual | Less | LessEqual | Equal | NotEqual | Unknown

  /** The configuration of a rule that evaluation uses. */
  datatype Rule = Rule(
    operator: Operator, threshold: real, warning: real, critical: real, emergency: real,
    cooldown: int, autoResolve: bool)

  datatype Alert = Alert(
    ruleId: string, status: Status, severity: Severity, value: real, threshold: real,
    triggeredAt: int, resolvedAt: Option<int>)

  datatype Kind = Triggered | WasResolved | WasAcknowledged

  datatype Event = Event(alertId: string, ruleId: string, kind: Kind, at: int)

  datatype Store = Store(alerts: map<string, Alert>, history: seq<Event>)

  function Compare(value: real, op: Operator, threshold: real): bool {
    match op
    case Greater => value > threshold
    case GreaterEqual => value >= threshold
    case Less => value < threshold
    case LessEqual => value <= threshold
    case Equal => value == threshold
    case NotEqual => value != threshold
    case Unknown => false
  }

  function SeverityOf(value: real, rule: Rule): Severity {
    if value >= rule.emergency then Emergency
    else if value >= rule.critical then Critical
    else if value >= rule.warning then Warning
    else Info
  }

  /** The limit of a severity, and which ones are worse. */
  function Limit(rule: Rule, severity: Severity): Option<real> {
    match severity
    case Info => None
    case Warning => Some(rule.warning)
    case Critical => Some(rule.critical)
    case Emergency => Some(rule.emergency)
  }

  function Rank(severity: Severity): nat {
    match severity case Info => 0 case Warning => 1 case Critical => 2 case Emergency => 3
  }

  ghost predicate Reached(rule: Rule, value: real, severity: Severity) {
    match Limit(rule, severity) case Some(limit) => value >= limit case None => true
  }

  /** The severity is the worst one whose limit the value reaches. */
  lemma SeverityExactly(value: real, rule: Rule, severity: Severity)
    ensures SeverityOf(value, rule) == severity <==>
            Reached(rule, value, severity) && forall worse :: Rank(worse) > Rank(severity) ==> !Reached(rule, value, worse)
  {
    var s := SeverityOf(value, rule);
    assert Reached(rule, value, s);
    if Rank(s) > Rank(severity) {
      assert Reached(rule, value, s);
    }
    assert Rank(s) == Rank(severity) <==> s == severity;
  }

  /** The comparisons are those of the numbers, and an unknown one never holds. */
  lemma CompareExactly(value: real, threshold: real)
    ensures Compare(value, Greater, threshold) <==> value > threshold
    ensures Compare(value, GreaterEqual, threshold) <==> !Compare(value, Less, threshold)
    ensures Compare(value, LessEqual, threshold) <==> !Compare(value, Greater, threshold)
    ensures Compare(value, Less, threshold) <==> Compare(threshold, Greater, value)
    ensures Compare(value, Equal, threshold) <==> Compare(value, LessEqual, threshold) && Compare(value, GreaterEqual, threshold)
    ensures Compare(value, NotEqual, threshold) <==> !Compare(value, Equal, threshold)
    ensures !Compare(value, Unknown, threshold)
  {
  }

  ghost predicate IsActive(alerts: map<string, Alert>, id: string, ruleId: string) {
    id in alerts && alerts[id].ruleId == ruleId && alerts[id].status == Active
  }

  /** Each rule has at most one active alert. */
  ghost predicate OneActive(alerts: map<string, Alert>) {
    forall a, b, r :: IsActive(alerts, a, r) && IsActive(alerts, b, r) ==> a == b
  }

  /** The active alert of a rule, if there is one. */
  ghost function ActiveOf(alerts: map<string, Alert>, ruleId: string): (r: Option<string>)
    ensures r.Some? ==> IsActive(alerts, r.value, ruleId)
    ensures r.None? ==> forall id :: !IsActive(alerts, id, ruleId)
  {
    if exists id :: IsActive(alerts, id, ruleId) then
      var id :| IsActive(alerts, id, ruleId); Some(id)
    else None
  }

  // ---- The atomic sections ---------------------------------------------------------------------

  /** createOrUpdateAlert, with the fresh id it would use. */
  ghost function CreateOrUpdate(s: Store, ruleId: string, rule: Rule, value: real, newId: string, now: int): Store {
    var severity := SeverityOf(value, rule);
    match ActiveOf(s.alerts, ruleId)
    case Some(id) => s.(alerts := s.alerts[id := s.alerts[id].(value := value, severity := severity)])
    case None =>
      Store(s.alerts[newId := Alert(ruleId, Active, severity, value, rule.threshold, now, None)],
            s.history + [Event(newId, ruleId, Triggered, now)])
  }

  function ResolveId(s: Store, id: string, now: int): Store
    requires id in s.alerts
  {
    Store(s.alerts[id := s.alerts[id].(status := Resolved, resolvedAt := Some(now))],
          s.history + [Event(id, s.alerts[id].ruleId, WasResolved, now)])
  }

  ghost function AutoResolve(s: Store, ruleId: string, now: int): Store {
    match ActiveOf(s.alerts, ruleId)
    case Some(id) => ResolveId(s, id, now)
    case None => s
  }

  function Acknowledge(s: Store, id: string, now: int): (Store, bool) {
    if id !in s.alerts then (s, false)
    else
      (Store(s.alerts[id := s.alerts[id].(status := Acknowledged)],
             s.history + [Event(id, s.alerts[id].ruleId, WasAcknowledged, now)]), true)
  }

  function Resolve(s: Store, id: string, now: int): (Store, bool) {
    if id !in s.alerts then (s, false) else (ResolveId(s, id, now), true)
  }

  class Manager {
    var alerts: map<string, Alert>
    var history: seq<Event>

    function View(): Store
      reads this
    {
      Store(alerts, history)
    }

    constructor ()
      ensures View() == Store(map[], [])
    {
      alerts, history := map[], [];
    }

    /** Independent of the order in which the alerts are looked through. */
    method CreateOrUpdateAlert(ruleId: string, rule: Rule, value: real, newId: string, now: int)
      requires OneActive(alerts)
      modifies this
      ensures View() == CreateOrUpdate(old(View()), ruleId, rule, value, newId, now)
    {
      var severity := SeverityOf(value, rule);
      var todo := alerts.Keys;
      while todo != {}
        invariant View() == old(View()) && todo <= alerts.Keys
        invariant forall id :: id in alerts && id !in todo ==> !IsActive(alerts, id, ruleId)
      {
        var id :| id in todo;
        if alerts[id].ruleId == ruleId && alerts[id].status == Active {
          assert IsActive(alerts, id, ruleId);
          alerts := alerts[id := alerts[id].(value := value, severity := severity)];
          return;
        }
        todo := todo - {id};
      }
      alerts := alerts[newId := Alert(ruleId, Active, severity, value, rule.threshold, now, None)];
      history := history + [Event(newId, ruleId, Triggered, now)];
    }

    method CheckAutoResolve(ruleId: string, now: int)
      requires OneActive(alerts)
      modifies this
      ensures View() == AutoResolve(old(View()), ruleId, now)
    {
      ghost var active := ActiveOf(alerts, ruleId);
      var todo := alerts.Keys;
      while todo != {}
        invariant todo <= alerts.Keys && alerts.Keys == old(alerts).Keys
        invariant forall id :: id in todo ==> alerts[id] == old(alerts)[id]
        invariant View() == if active.Some? && active.value !in todo then AutoResolve(old(View()), ruleId, now) else old(View())
      {
        var id :| id in todo;
        if alerts[id].ruleId == ruleId && alerts[id].status == Active {
          assert IsActive(old(alerts), id, ruleId);
          alerts := alerts[id := alerts[id].(status := Resolved, resolvedAt := Some(now))];
          history := history + [Event(id, ruleId, WasResolved, now)];
        }
        todo := todo - {id};
      }
    }

    method AcknowledgeAlert(id: string, now: int) returns (ok: bool)
      modifies this
      ensures (View(), ok) == Acknowledge(old(View()), id, now)
    {
      if id !in alerts {
        return false;
      }
      var alert := alerts[id];
      alerts := alerts[id := alert.(status := Acknowledged)];
      history := history + [Event(id, alert.ruleId, WasAcknowledged, now)];
      return true;
    }

    method ResolveAlert(id: string, now: int) returns (ok: bool)
      modifies this
      ensures (View(), ok) == Resolve(old(View()), id, now)
    {
      if id !in alerts {
        return false;
      }
      var alert := alerts[id];
      alerts := alerts[id := alert.(status := Resolved, resolvedAt := Some(now))];
      history := history + [Event(id, alert.ruleId, WasResolved, now)];
      return true;
    }
  }

  // ---- What the history says -----------------------------------------------------------------------

  /** The kinds of the events of one alert, in order. */
  ghost function Story(history: seq<Event>, id: string): seq<Kind> {
    if history == [] then []
    else
      var init, e := history[..|history| - 1], history[|history| - 1];
      if e.alertId == id then Story(init, id) + [e.kind] else Story(init, id)
  }

  /** A trigger, then no other trigger. */
  ghost predicate ProperStory(story: seq<Kind>) {
    && story != [] && story[0] == Triggered
    && forall i :: 0 < i < |story| ==> story[i] != Triggered
  }

  /** The status that the last event leaves. */
  function StatusAfter(kind: Kind): Status {
    match kind case Triggered => Active case WasResolved => Resolved case WasAcknowledged => Acknowledged
  }

  ghost predicate AlertInv(s: Store, id: string) {
    if id in s.alerts then
      var story := Story(s.history, id);
      && ProperStory(story)
      && s.alerts[id].status == StatusAfter(story[|story| - 1])
      && (WasResolved in story <==> s.alerts[id].resolvedAt.Some?)
    else Story(s.history, id) == []
  }

  /** One active alert per rule, and every alert is what its history says. */
  ghost predicate Inv(s: Store) {
    OneActive(s.alerts) && forall id :: AlertInv(s, id)
  }

  lemma StorySnoc(history: seq<Event>, e: Event, id: string)
    ensures Story(history + [e], id) == if e.alertId == id then Story(history, id) + [e.kind] else Story(history, id)
  {
    assert (history + [e])[..|history|] == history;
  }

  lemma CreateOrUpdateKeeps(s: Store, ruleId: string, rule: Rule, value: real, newId: string, now: int)
    requires Inv(s) && newId !in s.alerts
    ensures Inv(CreateOrUpdate(s, ruleId, rule, value, newId, now))
  {
    hide Story;
    var r := CreateOrUpdate(s, ruleId, rule, value, newId, now);
    var e := Event(newId, ruleId, Triggered, now);
    forall id ensures AlertInv(r, id) {
      assert AlertInv(s, id);
      StorySnoc(s.history, e, id);
    }
    forall a, b, x | IsActive(r.alerts, a, x) && IsActive(r.alerts, b, x) ensures a == b {
      assert a != newId ==> IsActive(s.alerts, a, x);
      assert b != newId ==> IsActive(s.alerts, b, x);
    }
  }

  /** A triggered evaluation leaves the rule with an active alert that carries the
      measured value and its severity, and every other alert as it was.  A new alert
      is stamped with the time and the rule's threshold, and recorded; an updated one
      keeps the rest. */
  lemma TriggerEffect(s: Store, ruleId: string, rule: Rule, value: real, newId: string, now: int)
    requires Inv(s) && newId !in s.alerts
    ensures var r := CreateOrUpdate(s, ruleId, rule, value, newId, now);
            match ActiveOf(r.alerts, ruleId)
            case Some(id) =>
              && r.alerts[id].value == value && r.alerts[id].severity == SeverityOf(value, rule)
              && (id == newId <==> ActiveOf(s.alerts, ruleId).None?)
              && (forall x :: x in s.alerts && x != id ==> x in r.alerts && r.alerts[x] == s.alerts[x])
              && (if id == newId then
                    && r.alerts[id] == Alert(ruleId, Active, SeverityOf(value, rule), value, rule.threshold, now, None)
                    && r.history == s.history + [Event(newId, ruleId, Triggered, now)]
                  else
                    && id in s.alerts && r.history == s.history
                    && r.alerts[id].triggeredAt == s.alerts[id].triggeredAt
                    && r.alerts[id].threshold == s.alerts[id].threshold)
            case None => false
  {
    hide SeverityOf, Story;
    var r := CreateOrUpdate(s, ruleId, rule, value, newId, now);
    var id := if ActiveOf(s.alerts, ruleId).Some? then ActiveOf(s.alerts, ruleId).value else newId;
    assert IsActive(r.alerts, id, ruleId);
    CreateOrUpdateKeeps(s, ruleId, rule, value, newId, now);
  }

  /** Resolving what is active leaves the rule without an active alert, and gives
      only that alert a resolve time. */
  lemma AutoResolveEffect(s: Store, ruleId: string, now: int)
    requires Inv(s)
    ensures var r := AutoResolve(s, ruleId, now);
            && ActiveOf(r.alerts, ruleId) == None
            && (forall x :: x in s.alerts && ActiveOf(s.alerts, ruleId) != Some(x) ==> x in r.alerts && r.alerts[x] == s.alerts[x])
            && (forall x :: ActiveOf(s.alerts, ruleId) == Some(x) ==> r.alerts[x].status == Resolved && r.alerts[x].resolvedAt == Some(now))
  {
    hide Story;
    var r := AutoResolve(s, ruleId, now);
    forall x ensures !IsActive(r.alerts, x, ruleId) {
      assert IsActive(r.alerts, x, ruleId) ==> IsActive(s.alerts, x, ruleId);
    }
  }

  /** An acknowledgement changes the status of the alert, a resolution also its resolve
      time; both are recorded, other alerts stay, and an unknown id changes nothing. */
  lemma CloseExactly(s: Store, id: string, now: int)
    ensures var (a, known) := Acknowledge(s, id, now);
            && (known <==> id in s.alerts) && (!known ==> a == s)
            && (known ==>
                  && a.alerts == s.alerts[id := s.alerts[id].(status := Acknowledged)]
                  && a.history == s.history + [Event(id, s.alerts[id].ruleId, WasAcknowledged, now)])
    ensures var (c, known) := Resolve(s, id, now);
            && (known <==> id in s.alerts) && (!known ==> c == s)
            && (known ==>
                  && c.alerts == s.alerts[id := s.alerts[id].(status := Resolved, resolvedAt := Some(now))]
                  && c.history == s.history + [Event(id, s.alerts[id].ruleId, WasResolved, now)])
  {
  }

  /** An acknowledgement or resolution of an existing alert. */
  lemma CloseKeeps(s: Store, id: string, alert: Alert, e: Event)
    requires Inv(s) && id in s.alerts && e.alertId == id && e.kind != Triggered
    requires alert.ruleId == s.alerts[id].ruleId && alert.status == StatusAfter(e.kind)
    requires alert.resolvedAt.Some? <==> e.kind == WasResolved || s.alerts[id].resolvedAt.Some?
    ensures Inv(Store(s.alerts[id := alert], s.history + [e]))
  {
    hide Story;
    var r := Store(s.alerts[id := alert], s.history + [e]);
    forall x ensures AlertInv(r, x) {
      assert AlertInv(s, x);
      StorySnoc(s.history, e, x);
    }
    assert OneActive(r.alerts) by {
      forall a, b, rule | IsActive(r.alerts, a, rule) && IsActive(r.alerts, b, rule) ensures a == b {
        assert IsActive(s.alerts, a, rule) && IsActive(s.alerts, b, rule);
      }
    }
  }

  // ---- Interleavings -------------------------------------------------------------------------------------

  /** Where an evaluator stands in evaluateRule. */
  datatype Pc =
    | Measuring(ruleId: string)               // past the cooldown check
    | Deciding(ruleId: string, value: real)   // has the metric, before the lock
    | Stamping(ruleId: string)                // alert written, before lastTriggered
    | Counting(ruleId: string)                // stamped, before triggerCount is read
    | Storing(ruleId: string, loaded: nat)    // before triggerCount is written

  /** `last` holds the lastTriggered and `counts` the triggerCount of the rules; no
      lock guards them, so every access is a step of its own. */
  datatype World = World(store: Store, last: map<string, int>, counts: map<string, nat>, evaluators: map<nat, Pc>) {
    function Count(ruleId: string): nat {
      if ruleId in counts then counts[ruleId] else 0
    }
  }

  /** One scheduling decision. */
  datatype Choice =
    | Begin(thread: nat, ruleId: string, now: int)
    | Measure(thread: nat, metric: Option<real>)
    | Decide(thread: nat, newId: string, now: int)
    | Stamp(thread: nat, now: int)
    | Load(thread: nat)
    | Save(thread: nat)
    | Ack(id: string, now: int)
    | Close(id: string, now: int)

  ghost function Step(rules: map<string, Rule>, w: World, c: Choice): World {
    match c
    case Begin(t, ruleId, now) =>
      if t in w.evaluators || ruleId !in rules then w
      else if ruleId in w.last && now - w.last[ruleId] < rules[ruleId].cooldown then w
      else w.(evaluators := w.evaluators[t := Measuring(ruleId)])
    case Measure(t, metric) =>
      if t !in w.evaluators || !w.evaluators[t].Measuring? then w
      else
        (match metric
         case None => w.(evaluators := w.evaluators - {t})
         case Some(v) => w.(evaluators := w.evaluators[t := Deciding(w.evaluators[t].ruleId, v)]))
    case Decide(t, newId, now) =>
      if t !in w.evaluators || !w.evaluators[t].Deciding? || w.evaluators[t].ruleId !in rules then w
      else
        var Deciding(ruleId, value) := w.evaluators[t];
        var rule := rules[ruleId];
        if Compare(value, rule.operator, rule.threshold) then
          w.(store := CreateOrUpdate(w.store, ruleId, rule, value, newId, now),
             evaluators := w.evaluators[t := Stamping(ruleId)])
        else
          w.(store := if rule.autoResolve then AutoResolve(w.store, ruleId, now) else w.store,
             evaluators := w.evaluators - {t})
    case Stamp(t, now) =>
      if t !in w.evaluators || !w.evaluators[t].Stamping? then w
      else
        var id := w.evaluators[t].ruleId;
        w.(last := w.last[id := now], evaluators := w.evaluators[t := Counting(id)])
    case Load(t) =>
      if t !in w.evaluators || !w.evaluators[t].Counting? then w
      else
        var id := w.evaluators[t].ruleId;
        w.(evaluators := w.evaluators[t := Storing(id, w.Count(id))])
    case Save(t) =>
      if t !in w.evaluators || !w.evaluators[t].Storing? then w
      else
        var Storing(id, loaded) := w.evaluators[t];
        w.(counts := w.counts[id := loaded + 1], evaluators := w.evaluators - {t})
    case Ack(id, now) => w.(store := Acknowledge(w.store, id, now).0)
    case Close(id, now) => w.(store := Resolve(w.store, id, now).0)
  }

  ghost function After(rules: map<string, Rule>, choices: seq<Choice>): World {
    if choices == [] then World(Store(map[], []), map[], map[], map[])
    else Step(rules, After(rules, choices[..|choices| - 1]), choices[|choices| - 1])
  }

  /** What a decision does: a value that triggers the rule updates or creates its alert;
      any other value resolves it if the rule says so, and changes nothing if not. */
  lemma DecideExactly(rules: map<string, Rule>, w: World, t: nat, newId: string, now: int)
    requires t in w.evaluators && w.evaluators[t].Deciding? && w.evaluators[t].ruleId in rules && Inv(w.store)
    requires newId !in w.store.alerts
    ensures var Deciding(ruleId, value) := w.evaluators[t];
            var rule, r := rules[ruleId], Step(rules, w, Decide(t, newId, now));
            && (Compare(value, rule.operator, rule.threshold) ==>
                  ActiveOf(r.store.alerts, ruleId).Some? && t in r.evaluators && r.evaluators[t] == Stamping(ruleId))
            && (!Compare(value, rule.operator, rule.threshold) ==>
                  && t !in r.evaluators
                  && if rule.autoResolve then ActiveOf(r.store.alerts, ruleId) == None else r.store == w.store)
  {
    hide CreateOrUpdate, AutoResolve, Compare, Inv, ActiveOf;
    var Deciding(ruleId, value) := w.evaluators[t];
    TriggerEffect(w.store, ruleId, rules[ruleId], value, newId, now);
    AutoResolveEffect(w.store, ruleId, now);
  }

  /** Every id handed to a decision is new, as generated ids are. */
  ghost predicate FreshIds(rules: map<string, Rule>, choices: seq<Choice>) {
    choices == [] || (
      var init, c := choices[..|choices| - 1], choices[|choices| - 1];
      FreshIds(rules, init) && (c.Decide? ==> c.newId !in After(rules, init).store.alerts))
  }

  lemma StepKeeps(rules: map<string, Rule>, w: World, c: Choice)
    requires Inv(w.store) && (c.Decide? ==> c.newId !in w.store.alerts)
    ensures Inv(Step(rules, w, c).store)
  {
    hide Inv, CreateOrUpdate;
    var s := w.store;
    if c.Decide? && c.thread in w.evaluators && w.evaluators[c.thread].Deciding? && w.evaluators[c.thread].ruleId in rules {
      var Deciding(ruleId, value) := w.evaluators[c.thread];
      CreateOrUpdateKeeps(s, ruleId, rules[ruleId], value, c.newId, c.now);
      if ActiveOf(s.alerts, ruleId).Some? {
        ResolveKeeps(s, ActiveOf(s.alerts, ruleId).value, c.now);
      }
    } else if c.Ack? && c.id in s.alerts {
      CloseKeeps(s, c.id, s.alerts[c.id].(status := Acknowledged), Event(c.id, s.alerts[c.id].ruleId, WasAcknowledged, c.now));
    } else if c.Close? && c.id in s.alerts {
      ResolveKeeps(s, c.id, c.now);
    }
  }

  lemma ResolveKeeps(s: Store, id: string, now: int)
    requires Inv(s) && id in s.alerts
    ensures Inv(ResolveId(s, id, now))
  {
    hide Inv;
    CloseKeeps(s, id, s.alerts[id].(status := Resolved, resolvedAt := Some(now)), Event(id, s.alerts[id].ruleId, WasResolved, now));
  }

  /** Under every interleaving of evaluators, acknowledgements and resolutions:
      one active alert per rule; each alert was triggered once, before anything
      else happened to it; its status is the one its last event left; and it has
      a resolve time exactly if it was ever resolved. */
  lemma {:induction false} AlwaysConsistent(rules: map<string, Rule>, choices: seq<Choice>)
    requires FreshIds(rules, choices)
    ensures Inv(After(rules, choices).store)
  {
    hide Step;
    if choices == [] {
      assert forall id :: Story([], id) == [];
    } else {
      hide Inv;
      var init := choices[..|choices| - 1];
      AlwaysConsistent(rules, init);
      StepKeeps(rules, After(rules, init), choices[|choices| - 1]);
    }
  }
}
