/** The cooldown and the trigger count of the alert rules in
    internal/budgetalerts/manager.go.  Both are accessed outside the lock: when
    they can be relied upon, and when not. */
module AlertTriggers {
  import opened Collections
  import opened BudgetAlerts

  // ---- Stamps ----------------------------------------------------------------------------------

  ghost predicate IsStamp(w: World, c: Choice, ruleId: string) {
    c.Stamp? && c.thread in w.evaluators && w.evaluators[c.thread] == Stamping(ruleId)
  }

  /** When a rule was stamped. */
  ghost function Stamps(rules: map<string, Rule>, choices: seq<Choice>, ruleId: string): seq<int> {
    if choices == [] then []
    else
      var init, c := choices[..|choices| - 1], choices[|choices| - 1];
      Stamps(rules, init, ruleId) + if IsStamp(After(rules, init), c, ruleId) then [c.now] else []
  }

  lemma StampWrites(rules: map<string, Rule>, w: World, c: Choice, ruleId: string)
    ensures var last := Step(rules, w, c).last;
            if IsStamp(w, c, ruleId) then ruleId in last && last[ruleId] == c.now
            else (ruleId in last <==> ruleId in w.last) && (ruleId in last ==> last[ruleId] == w.last[ruleId])
  {
    hide CreateOrUpdate, AutoResolve, Acknowledge, Resolve, Compare;
  }

  /** In every run lastTriggered is the latest stamp. */
  lemma {:induction false} LastIsLatest(rules: map<string, Rule>, choices: seq<Choice>, ruleId: string)
    ensures var w, stamps := After(rules, choices), Stamps(rules, choices, ruleId);
            && (ruleId in w.last <==> stamps != [])
            && (ruleId in w.last ==> w.last[ruleId] == stamps[|stamps| - 1])
  {
    hide Step, IsStamp;
    if choices != [] {
      var init := choices[..|choices| - 1];
      LastIsLatest(rules, init, ruleId);
      StampWrites(rules, After(rules, init), choices[|choices| - 1], ruleId);
    }
  }

  ghost predicate AtRule(w: World, thread: nat, ruleId: string) {
    thread in w.evaluators && w.evaluators[thread].ruleId == ruleId
  }

  /** Evaluating the rule and not yet past its stamp. */
  ghost predicate Unstamped(w: World, thread: nat, ruleId: string) {
    AtRule(w, thread, ruleId) && !w.evaluators[thread].Counting? && !w.evaluators[thread].Storing?
  }

  /** The cooldown check of a rule passes at this time. */
  ghost predicate Cool(rules: map<string, Rule>, w: World, ruleId: string, now: int) {
    ruleId in rules && (ruleId in w.last ==> now - w.last[ruleId] >= rules[ruleId].cooldown)
  }

  /** A thread that evaluates a rule did so before, or has begun, and it begins if
      and only if it was idle and the cooldown check passes. */
  lemma BeginsExactly(rules: map<string, Rule>, w: World, c: Choice, thread: nat, ruleId: string)
    ensures AtRule(Step(rules, w, c), thread, ruleId) ==>
              AtRule(w, thread, ruleId) || (c.Begin? && c.thread == thread && c.ruleId == ruleId)
    ensures Unstamped(Step(rules, w, c), thread, ruleId) ==>
              Unstamped(w, thread, ruleId) || (c.Begin? && c.thread == thread && c.ruleId == ruleId)
    ensures c.Begin? && c.thread == thread && c.ruleId == ruleId && thread !in w.evaluators ==>
              (AtRule(Step(rules, w, c), thread, ruleId) <==> Cool(rules, w, ruleId, c.now))
    ensures c.Begin? && thread in w.evaluators && c.thread == thread ==> Step(rules, w, c) == w
  {
    hide CreateOrUpdate, AutoResolve, Acknowledge, Resolve, Compare;
  }

  // ---- Clocks ----------------------------------------------------------------------------------

  ghost function Time(c: Choice): Option<int> {
    if c.Measure? || c.Load? || c.Save? then None else Some(c.now)
  }

  /** The latest clock reading. */
  ghost function Clock(choices: seq<Choice>): Option<int> {
    if choices == [] then None
    else if Time(choices[|choices| - 1]).Some? then Time(choices[|choices| - 1])
    else Clock(choices[..|choices| - 1])
  }

  /** The clock does not run backwards. */
  ghost predicate Ordered(choices: seq<Choice>) {
    choices == [] || (
      var before, now := Clock(choices[..|choices| - 1]), Time(choices[|choices| - 1]);
      Ordered(choices[..|choices| - 1]) && (before.Some? && now.Some? ==> before.value <= now.value))
  }

  ghost predicate Spaced(stamps: seq<int>, gap: int) {
    |stamps| <= 1 || (stamps[|stamps| - 1] - stamps[|stamps| - 2] >= gap && Spaced(stamps[..|stamps| - 1], gap))
  }

  /** Now, or never, the latest stamp is at least the gap old. */
  ghost predicate Rested(stamps: seq<int>, clock: Option<int>, gap: int) {
    stamps == [] || (clock.Some? && clock.value - stamps[|stamps| - 1] >= gap)
  }

  lemma SpacedSnoc(stamps: seq<int>, now: int, clock: Option<int>, gap: int)
    requires Spaced(stamps, gap) && Rested(stamps, clock, gap) && (clock.Some? ==> clock.value <= now)
    ensures Spaced(stamps + [now], gap)
  {
    assert (stamps + [now])[..|stamps|] == stamps;
  }

  // ---- Evaluations that do not overlap -----------------------------------------------------------

  /** No evaluation of the rule begins while another one is under way. */
  ghost predicate Serial(rules: map<string, Rule>, choices: seq<Choice>, ruleId: string) {
    choices == [] || (
      var init, c := choices[..|choices| - 1], choices[|choices| - 1];
      && Serial(rules, init, ruleId)
      && (c.Begin? && c.ruleId == ruleId ==> Idle(After(rules, init), ruleId)))
  }

  ghost predicate Idle(w: World, ruleId: string) {
    forall t :: !AtRule(w, t, ruleId)
  }

  /** At most one evaluator is at the rule. */
  ghost predicate Alone(w: World, ruleId: string) {
    forall a, b :: AtRule(w, a, ruleId) && AtRule(w, b, ruleId) ==> a == b
  }

  lemma {:induction false} SerialAlone(rules: map<string, Rule>, choices: seq<Choice>, ruleId: string)
    requires Serial(rules, choices, ruleId)
    ensures Alone(After(rules, choices), ruleId)
  {
    hide Step;
    if choices != [] {
      var init, c := choices[..|choices| - 1], choices[|choices| - 1];
      SerialAlone(rules, init, ruleId);
      forall t ensures AtRule(After(rules, choices), t, ruleId) ==>
                         AtRule(After(rules, init), t, ruleId) || (c.Begin? && c.thread == t && c.ruleId == ruleId)
      {
        BeginsExactly(rules, After(rules, init), c, t, ruleId);
      }
    }
  }

  /** The stamps so far are spaced; and while an evaluator is before its stamp, the
      latest one is old enough. */
  ghost predicate CoolInv(rules: map<string, Rule>, w: World, ruleId: string, stamps: seq<int>, clock: Option<int>)
    requires ruleId in rules
  {
    && Spaced(stamps, rules[ruleId].cooldown)
    && ((exists t :: Unstamped(w, t, ruleId)) ==> Rested(stamps, clock, rules[ruleId].cooldown))
  }

  /** A stamp takes its evaluator past its stamp. */
  lemma StampPasses(rules: map<string, Rule>, w: World, c: Choice, ruleId: string)
    requires IsStamp(w, c, ruleId) && Alone(w, ruleId)
    ensures Unstamped(w, c.thread, ruleId) && forall t :: !Unstamped(Step(rules, w, c), t, ruleId)
  {
    forall t ensures !Unstamped(Step(rules, w, c), t, ruleId) {
      BeginsExactly(rules, w, c, t, ruleId);
      assert Unstamped(w, t, ruleId) ==> AtRule(w, t, ruleId) && AtRule(w, c.thread, ruleId);
    }
  }

  lemma CoolStep(rules: map<string, Rule>, w: World, c: Choice, ruleId: string, stamps: seq<int>, clock: Option<int>)
    requires ruleId in rules && CoolInv(rules, w, ruleId, stamps, clock) && Alone(w, ruleId)
    requires (ruleId in w.last <==> stamps != []) && (ruleId in w.last ==> w.last[ruleId] == stamps[|stamps| - 1])
    requires c.Begin? && c.ruleId == ruleId ==> Idle(w, ruleId)
    requires clock.Some? && Time(c).Some? ==> clock.value <= Time(c).value
    ensures CoolInv(rules, Step(rules, w, c), ruleId, stamps + if IsStamp(w, c, ruleId) then [c.now] else [],
                    if Time(c).Some? then Time(c) else clock)
  {
    hide Step, Spaced, Alone, AtRule, Unstamped;
    forall t ensures Unstamped(Step(rules, w, c), t, ruleId) ==>
                       Unstamped(w, t, ruleId) || (c.Begin? && c.thread == t && c.ruleId == ruleId)
    {
      BeginsExactly(rules, w, c, t, ruleId);
    }
    if IsStamp(w, c, ruleId) {
      StampPasses(rules, w, c, ruleId);
      SpacedSnoc(stamps, c.now, clock, rules[ruleId].cooldown);
    } else {
      assert stamps + [] == stamps;
      if c.Begin? && c.ruleId == ruleId {
        BegunCool(rules, w, c, ruleId);
      }
    }
  }

  lemma BegunCool(rules: map<string, Rule>, w: World, c: Choice, ruleId: string)
    requires c.Begin? && c.ruleId == ruleId && Idle(w, ruleId)
    ensures (exists t :: Unstamped(Step(rules, w, c), t, ruleId)) ==> Cool(rules, w, ruleId, c.now)
  {
    hide Step;
    forall t | Unstamped(Step(rules, w, c), t, ruleId) ensures Cool(rules, w, ruleId, c.now) {
      BeginsExactly(rules, w, c, t, ruleId);
    }
  }

  lemma SerialStep(rules: map<string, Rule>, choices: seq<Choice>, ruleId: string)
    requires choices != [] && Serial(rules, choices, ruleId)
    ensures var init, c := choices[..|choices| - 1], choices[|choices| - 1];
            && Serial(rules, init, ruleId)
            && (c.Begin? && c.ruleId == ruleId ==> Idle(After(rules, init), ruleId))
  {
    hide After, Idle;
  }

  /** If the clock does not run backwards and the evaluations of a rule do not
      overlap, its stamps are at least the cooldown apart, whatever else runs. */
  lemma {:induction false} CooldownHolds(rules: map<string, Rule>, choices: seq<Choice>, ruleId: string)
    requires ruleId in rules && Ordered(choices) && Serial(rules, choices, ruleId)
    ensures CoolInv(rules, After(rules, choices), ruleId, Stamps(rules, choices, ruleId), Clock(choices))
    ensures Spaced(Stamps(rules, choices, ruleId), rules[ruleId].cooldown)
  {
    if choices != [] {
      hide Step, Spaced, Unstamped, AtRule, Alone, Idle, IsStamp;
      var init, c := choices[..|choices| - 1], choices[|choices| - 1];
      SerialStep(rules, choices, ruleId);
      CooldownHolds(rules, init, ruleId);
      SerialAlone(rules, init, ruleId);
      LastIsLatest(rules, init, ruleId);
      CoolStep(rules, After(rules, init), c, ruleId, Stamps(rules, init, ruleId), Clock(init));
    }
  }

  // ---- The trigger count ---------------------------------------------------------------------------

  ghost predicate Saving(w: World, c: Choice, ruleId: string) {
    c.Save? && c.thread in w.evaluators && w.evaluators[c.thread].Storing? && w.evaluators[c.thread].ruleId == ruleId
  }

  /** How often the count of a rule was written. */
  ghost function Saves(rules: map<string, Rule>, choices: seq<Choice>, ruleId: string): nat {
    if choices == [] then 0
    else
      var init, c := choices[..|choices| - 1], choices[|choices| - 1];
      Saves(rules, init, ruleId) + if Saving(After(rules, init), c, ruleId) then 1 else 0
  }

  /** Past the stamp of the rule and still to write its count. */
  ghost predicate IsPending(w: World, thread: nat, ruleId: string) {
    AtRule(w, thread, ruleId) && (w.evaluators[thread].Counting? || w.evaluators[thread].Storing?)
  }

  ghost function Pending(w: World, ruleId: string): set<nat> {
    set t | t in w.evaluators && IsPending(w, t, ruleId)
  }

  lemma PendingStep(rules: map<string, Rule>, w: World, c: Choice, ruleId: string)
    ensures Pending(Step(rules, w, c), ruleId) ==
            if IsStamp(w, c, ruleId) then Pending(w, ruleId) + {c.thread}
            else if Saving(w, c, ruleId) then Pending(w, ruleId) - {c.thread}
            else Pending(w, ruleId)
    ensures IsStamp(w, c, ruleId) ==> c.thread !in Pending(w, ruleId)
    ensures Saving(w, c, ruleId) ==> c.thread in Pending(w, ruleId)
  {
    hide CreateOrUpdate, AutoResolve, Acknowledge, Resolve, Compare;
  }

  /** Every stamp is followed by one write of the count, or is still pending. */
  lemma {:induction false} StampsAreSaved(rules: map<string, Rule>, choices: seq<Choice>, ruleId: string)
    ensures Saves(rules, choices, ruleId) + |Pending(After(rules, choices), ruleId)| == |Stamps(rules, choices, ruleId)|
  {
    hide Step, Pending, IsStamp, Saving;
    if choices == [] {
      NonePending(ruleId);
    } else {
      var init, c := choices[..|choices| - 1], choices[|choices| - 1];
      StampsAreSaved(rules, init, ruleId);
      PendingStep(rules, After(rules, init), c, ruleId);
      OneStep(After(rules, init), c, ruleId);
    }
  }

  lemma NonePending(ruleId: string)
    ensures Pending(World(Store(map[], []), map[], map[], map[]), ruleId) == {}
  {
  }

  lemma OneStep(w: World, c: Choice, ruleId: string)
    ensures !(IsStamp(w, c, ruleId) && Saving(w, c, ruleId))
  {
  }

  /** What was loaded, and what is stored, is at most the number of writes. */
  ghost predicate CountInv(w: World, ruleId: string, saves: nat) {
    && w.Count(ruleId) <= saves
    && forall t :: IsStoring(w, t, ruleId) ==> w.evaluators[t].loaded <= saves
  }

  ghost predicate IsStoring(w: World, thread: nat, ruleId: string) {
    AtRule(w, thread, ruleId) && w.evaluators[thread].Storing?
  }

  lemma CountStep(rules: map<string, Rule>, w: World, c: Choice, ruleId: string, saves: nat)
    requires CountInv(w, ruleId, saves)
    ensures CountInv(Step(rules, w, c), ruleId, saves + if Saving(w, c, ruleId) then 1 else 0)
  {
    hide CreateOrUpdate, AutoResolve, Acknowledge, Resolve, Compare;
  }

  lemma {:induction false} CountAtMostSaves(rules: map<string, Rule>, choices: seq<Choice>, ruleId: string)
    ensures CountInv(After(rules, choices), ruleId, Saves(rules, choices, ruleId))
  {
    hide Step, Saving;
    if choices != [] {
      hide CountInv;
      var init := choices[..|choices| - 1];
      CountAtMostSaves(rules, init, ruleId);
      CountStep(rules, After(rules, init), choices[|choices| - 1], ruleId, Saves(rules, init, ruleId));
    }
  }

  /** In every run the trigger count is at most the number of stamps, those still
      to be counted left out. */
  lemma CountBounded(rules: map<string, Rule>, choices: seq<Choice>, ruleId: string)
    ensures var w := After(rules, choices);
            w.Count(ruleId) + |Pending(w, ruleId)| <= |Stamps(rules, choices, ruleId)|
  {
    hide After, Stamps, Saves, Pending;
    StampsAreSaved(rules, choices, ruleId);
    CountAtMostSaves(rules, choices, ruleId);
  }

  ghost predicate ExactInv(w: World, ruleId: string, saves: nat) {
    && w.Count(ruleId) == saves
    && forall t :: IsStoring(w, t, ruleId) ==> w.evaluators[t].loaded == saves
  }

  lemma OnlyOne(rules: map<string, Rule>, w: World, c: Choice, ruleId: string)
    requires Saving(w, c, ruleId) && Alone(w, ruleId)
    ensures forall t :: !AtRule(Step(rules, w, c), t, ruleId)
  {
    assert AtRule(w, c.thread, ruleId) && !AtRule(Step(rules, w, c), c.thread, ruleId);
    forall t ensures t == c.thread || !AtRule(Step(rules, w, c), t, ruleId) {
      BeginsExactly(rules, w, c, t, ruleId);
    }
  }

  lemma ExactStep(rules: map<string, Rule>, w: World, c: Choice, ruleId: string, saves: nat)
    requires ExactInv(w, ruleId, saves) && Alone(w, ruleId)
    ensures ExactInv(Step(rules, w, c), ruleId, saves + if Saving(w, c, ruleId) then 1 else 0)
  {
    hide CreateOrUpdate, AutoResolve, Acknowledge, Resolve, Compare;
    if Saving(w, c, ruleId) {
      OnlyOne(rules, w, c, ruleId);
    }
  }

  lemma {:induction false} CountIsSaves(rules: map<string, Rule>, choices: seq<Choice>, ruleId: string)
    requires Serial(rules, choices, ruleId)
    ensures ExactInv(After(rules, choices), ruleId, Saves(rules, choices, ruleId))
  {
    hide Step, Saving;
    if choices != [] {
      hide ExactInv, Alone, AtRule;
      var init := choices[..|choices| - 1];
      CountIsSaves(rules, init, ruleId);
      SerialAlone(rules, init, ruleId);
      ExactStep(rules, After(rules, init), choices[|choices| - 1], ruleId, Saves(rules, init, ruleId));
    }
  }

  /** If the evaluations of a rule do not overlap, no trigger is lost. */
  lemma CountHolds(rules: map<string, Rule>, choices: seq<Choice>, ruleId: string)
    requires Serial(rules, choices, ruleId)
    ensures var w := After(rules, choices);
            w.Count(ruleId) + |Pending(w, ruleId)| == |Stamps(rules, choices, ruleId)|
  {
    hide After, Stamps, Saves, Pending, Serial;
    StampsAreSaved(rules, choices, ruleId);
    CountIsSaves(rules, choices, ruleId);
  }

  // ---- Overlapping evaluations ---------------------------------------------------------------------------

  /** Some measured value triggers the rule. */
  ghost predicate CanFire(rule: Rule) {
    exists value :: Compare(value, rule.operator, rule.threshold)
  }

  /** A run at time 0: where its evaluators stand, when the rule was stamped and how
      often counted, and which alerts it may have created. */
  datatype Scene = Scene(evaluators: map<nat, Pc>, stamps: seq<int>, count: nat, ids: set<string>)

  ghost predicate Arrives(rules: map<string, Rule>, choices: seq<Choice>, ruleId: string, at: Scene) {
    var w := After(rules, choices);
    && w.evaluators == at.evaluators && Stamps(rules, choices, ruleId) == at.stamps && w.Count(ruleId) == at.count
    && Ordered(choices) && (Clock(choices).Some? ==> Clock(choices).value == 0)
    && (ruleId in w.last ==> at.stamps != [])
    && FreshIds(rules, choices) && w.store.alerts.Keys <= at.ids
  }

  /** What a choice does to the thread that makes it. */
  ghost function Next(rules: map<string, Rule>, ruleId: string, at: Scene, c: Choice): Option<Scene>
    requires ruleId in rules
  {
    if c.Ack? || c.Close? || (Time(c).Some? && c.now != 0) then None
    else if c.Begin? then
      if c.ruleId != ruleId || c.thread in at.evaluators || at.stamps != [] then None
      else Some(at.(evaluators := at.evaluators[c.thread := Measuring(ruleId)]))
    else if c.thread !in at.evaluators || at.evaluators[c.thread].ruleId != ruleId then None
    else
      match (c, at.evaluators[c.thread])
      case (Measure(t, Some(v)), Measuring(_)) => Some(at.(evaluators := at.evaluators[t := Deciding(ruleId, v)]))
      case (Decide(t, id, _), Deciding(_, v)) =>
        if id in at.ids || !Compare(v, rules[ruleId].operator, rules[ruleId].threshold) then None
        else Some(at.(evaluators := at.evaluators[t := Stamping(ruleId)], ids := at.ids + {id}))
      case (Stamp(t, _), Stamping(_)) =>
        Some(at.(evaluators := at.evaluators[t := Counting(ruleId)], stamps := at.stamps + [0]))
      case (Load(t), Counting(_)) => Some(at.(evaluators := at.evaluators[t := Storing(ruleId, at.count)]))
      case (Save(t), Storing(_, n)) => Some(at.(evaluators := at.evaluators - {t}, count := n + 1))
      case _ => None
  }

  lemma Then(rules: map<string, Rule>, choices: seq<Choice>, ruleId: string, at: Scene, c: Choice)
      returns (next: seq<Choice>, there: Scene)
    requires ruleId in rules && Arrives(rules, choices, ruleId, at) && Next(rules, ruleId, at, c).Some?
    ensures there == Next(rules, ruleId, at, c).value && Arrives(rules, next, ruleId, there)
  {
    hide CreateOrUpdate, AutoResolve, Acknowledge, Resolve, Compare;
    next, there := choices + [c], Next(rules, ruleId, at, c).value;
    assert next[..|choices|] == choices;
    if c.Decide? {
      CreatesAtMost(After(rules, choices).store, ruleId, rules[ruleId], at.evaluators[c.thread].value, c.newId, c.now);
    }
  }

  lemma CreatesAtMost(s: Store, ruleId: string, rule: Rule, value: real, newId: string, now: int)
    ensures CreateOrUpdate(s, ruleId, rule, value, newId, now).alerts.Keys <= s.alerts.Keys + {newId}
  {
  }

  lemma ArrivesStart(rules: map<string, Rule>, ruleId: string)
    ensures Arrives(rules, [], ruleId, Scene(map[], [], 0, {}))
  {
  }

  /** Two evaluators of the rule, up to their stamps. */
  lemma TwoStamping(rules: map<string, Rule>, ruleId: string, value: real) returns (choices: seq<Choice>, at: Scene)
    requires ruleId in rules && Compare(value, rules[ruleId].operator, rules[ruleId].threshold)
    ensures Arrives(rules, choices, ruleId, at)
    ensures at.evaluators == map[0 := Stamping(ruleId), 1 := Stamping(ruleId)] && at.stamps == [] && at.count == 0
  {
    hide Arrives, Compare;
    ArrivesStart(rules, ruleId);
    choices, at := [], Scene(map[], [], 0, {});
    choices, at := Then(rules, choices, ruleId, at, Begin(0, ruleId, 0));
    choices, at := Then(rules, choices, ruleId, at, Begin(1, ruleId, 0));
    choices, at := Then(rules, choices, ruleId, at, Measure(0, Some(value)));
    choices, at := Then(rules, choices, ruleId, at, Measure(1, Some(value)));
    choices, at := Then(rules, choices, ruleId, at, Decide(0, "a", 0));
    choices, at := Then(rules, choices, ruleId, at, Decide(1, "b", 0));
  }

  /** Overlapping evaluations of a rule stamp it twice at the same time, whatever
      its cooldown, and count one trigger: both read the count before either
      writes it. */
  lemma OverlapStampsTwice(rules: map<string, Rule>, ruleId: string, value: real) returns (choices: seq<Choice>)
    requires ruleId in rules && Compare(value, rules[ruleId].operator, rules[ruleId].threshold)
    ensures FreshIds(rules, choices) && Ordered(choices) && Stamps(rules, choices, ruleId) == [0, 0]
    ensures After(rules, choices).evaluators == map[] && After(rules, choices).Count(ruleId) == 1
  {
    hide Arrives, Compare, Stamps, Ordered, FreshIds, After;
    var at;
    choices, at := TwoStamping(rules, ruleId, value);
    choices, at := Then(rules, choices, ruleId, at, Stamp(0, 0));
    choices, at := Then(rules, choices, ruleId, at, Stamp(1, 0));
    choices, at := Then(rules, choices, ruleId, at, Load(0));
    choices, at := Then(rules, choices, ruleId, at, Load(1));
    choices, at := Then(rules, choices, ruleId, at, Save(0));
    choices, at := Then(rules, choices, ruleId, at, Save(1));
    ArrivesFacts(rules, choices, ruleId, at);
  }

  lemma ArrivesFacts(rules: map<string, Rule>, choices: seq<Choice>, ruleId: string, at: Scene)
    requires Arrives(rules, choices, ruleId, at)
    ensures FreshIds(rules, choices) && Ordered(choices) && Stamps(rules, choices, ruleId) == at.stamps
    ensures After(rules, choices).evaluators == at.evaluators && After(rules, choices).Count(ruleId) == at.count
  {
  }

  // ---- Exactly when they can be relied upon ---------------------------------------------------------------

  /** Under every interleaving, the stamps of the rule are at least its cooldown apart. */
  ghost predicate AlwaysSpaced(rules: map<string, Rule>, ruleId: string)
    requires ruleId in rules
  {
    forall choices :: FreshIds(rules, choices) && Ordered(choices) ==>
                        Spaced(Stamps(rules, choices, ruleId), rules[ruleId].cooldown)
  }

  /** Under every interleaving, no trigger of the rule is lost. */
  ghost predicate AlwaysCounted(rules: map<string, Rule>, ruleId: string) {
    forall choices :: FreshIds(rules, choices) && Ordered(choices) ==>
                        var w := After(rules, choices);
                        w.Count(ruleId) + |Pending(w, ruleId)| == |Stamps(rules, choices, ruleId)|
  }

  /** Stamps follow the clock. */
  lemma {:induction false} StampsOrdered(rules: map<string, Rule>, choices: seq<Choice>, ruleId: string, gap: int)
    requires Ordered(choices) && gap <= 0
    ensures Spaced(Stamps(rules, choices, ruleId), gap) && Rested(Stamps(rules, choices, ruleId), Clock(choices), gap)
    ensures Rested(Stamps(rules, choices, ruleId), Clock(choices), 0)
  {
    hide After, Spaced;
    if choices == [] {
      SpacedNone(gap);
    } else {
      var init, c := choices[..|choices| - 1], choices[|choices| - 1];
      StampsOrdered(rules, init, ruleId, gap);
      if IsStamp(After(rules, init), c, ruleId) {
        SpacedSnoc(Stamps(rules, init, ruleId), c.now, Clock(init), gap);
      } else {
        assert Stamps(rules, choices, ruleId) == Stamps(rules, init, ruleId);
      }
    }
  }

  lemma SpacedNone(gap: int)
    ensures Spaced([], gap)
  {
  }

  /** A rule that no value triggers gets past no decision. */
  ghost predicate Early(w: World, ruleId: string) {
    forall t :: AtRule(w, t, ruleId) ==> w.evaluators[t].Measuring? || w.evaluators[t].Deciding?
  }

  lemma EarlyStep(rules: map<string, Rule>, w: World, c: Choice, ruleId: string)
    requires ruleId in rules && !CanFire(rules[ruleId]) && Early(w, ruleId)
    ensures Early(Step(rules, w, c), ruleId) && !IsStamp(w, c, ruleId)
  {
    hide CreateOrUpdate, AutoResolve, Acknowledge, Resolve, Compare;
    assert IsStamp(w, c, ruleId) ==> AtRule(w, c.thread, ruleId);
  }

  lemma {:induction false} NeverStamped(rules: map<string, Rule>, choices: seq<Choice>, ruleId: string)
    requires ruleId in rules && !CanFire(rules[ruleId])
    ensures Early(After(rules, choices), ruleId) && Stamps(rules, choices, ruleId) == []
  {
    hide Step, CanFire, IsStamp;
    if choices != [] {
      hide Early;
      NeverStamped(rules, choices[..|choices| - 1], ruleId);
      EarlyStep(rules, After(rules, choices[..|choices| - 1]), choices[|choices| - 1], ruleId);
      assert Stamps(rules, choices, ruleId) == Stamps(rules, choices[..|choices| - 1], ruleId) + [];
    }
  }

  /** The cooldown holds under every interleaving if and only if there is none, or
      no value triggers the rule. */
  lemma CooldownExactly(rules: map<string, Rule>, ruleId: string)
    requires ruleId in rules
    ensures AlwaysSpaced(rules, ruleId) <==> rules[ruleId].cooldown <= 0 || !CanFire(rules[ruleId])
  {
    hide After, Stamps, Ordered, FreshIds, Compare, Early;
    var gap := rules[ruleId].cooldown;
    if gap <= 0 || !CanFire(rules[ruleId]) {
      forall choices | FreshIds(rules, choices) && Ordered(choices) ensures Spaced(Stamps(rules, choices, ruleId), gap) {
        if gap <= 0 {
          StampsOrdered(rules, choices, ruleId, gap);
        } else {
          NeverStamped(rules, choices, ruleId);
        }
      }
    } else {
      var value :| Compare(value, rules[ruleId].operator, rules[ruleId].threshold);
      var choices := OverlapStampsTwice(rules, ruleId, value);
      assert !Spaced([0, 0], gap);
    }
  }

  /** Triggers are counted under every interleaving if and only if there are none. */
  lemma CountExactly(rules: map<string, Rule>, ruleId: string)
    requires ruleId in rules
    ensures AlwaysCounted(rules, ruleId) <==> !CanFire(rules[ruleId])
  {
    hide After, Stamps, Ordered, FreshIds, Compare, Early;
    if CanFire(rules[ruleId]) {
      var value :| Compare(value, rules[ruleId].operator, rules[ruleId].threshold);
      var choices := OverlapStampsTwice(rules, ruleId, value);
      assert Pending(After(rules, choices), ruleId) == {};
    } else {
      forall choices | FreshIds(rules, choices) && Ordered(choices)
        ensures var w := After(rules, choices); w.Count(ruleId) + |Pending(w, ruleId)| == |Stamps(rules, choices, ruleId)|
      {
        NeverStamped(rules, choices, ruleId);
        CountBounded(rules, choices, ruleId);
      }
    }
  }
}
