/**
 Trigger conditions: the evaluator's parser (crates/evaluator/src/service.rs), the API's parser
 (crates/api/src/automations.rs) and what a condition means (crates/core/src/domain/automation.rs).
 */
module Conditions {
  import opened Wrappers
  import Text

  /** A JSON value; of an object, the three members a condition parser looks at. */
  datatype Json =
    | Scalar
    | Text(text: string)
    | Array(items: seq<Json>)
    | Object(trigger: Option<Json>, all: Option<Json>, any: Option<Json>)

  datatype Condition =
    | Trigger(name: string)
    | All(conditions: seq<Condition>)
    | Any(conditions: seq<Condition>)

  datatype ParseError = BlankName | EmptyGroup | NotACondition

  predicate Named(value: Json) {
    value.Object? && value.trigger.Some? && value.trigger.value.Text?
  }

  predicate Conjunction(value: Json) {
    value.Object? && value.all.Some? && value.all.value.Array?
  }

  predicate Disjunction(value: Json) {
    value.Object? && value.any.Some? && value.any.value.Array?
  }

  function TriggerNamed(name: string): Result<Condition, ParseError> {
    if Text.Trim(name) == "" then Err(BlankName) else Ok(Trigger(name))
  }

  // ---- The evaluator's parser. ----

  function EvaluatorParse(value: Json): Result<Condition, ParseError>
    decreases value, 1
  {
    if Named(value) then TriggerNamed(value.trigger.value.text)
    else if Conjunction(value) then
      match EvaluatorParseEach(value.all.value.items)
      case Err(error) => Err(error)
      case Ok(conditions) => if Validate(All(conditions)) then Ok(All(conditions)) else Err(EmptyGroup)
    else if Disjunction(value) then
      match EvaluatorParseEach(value.any.value.items)
      case Err(error) => Err(error)
      case Ok(conditions) => if Validate(Any(conditions)) then Ok(Any(conditions)) else Err(EmptyGroup)
    else Err(NotACondition)
  }

  function EvaluatorParseEach(values: seq<Json>): Result<seq<Condition>, ParseError>
    decreases values, 0
  {
    if values == [] then Ok([])
    else
      match EvaluatorParse(values[0])
      case Err(error) => Err(error)
      case Ok(condition) =>
        match EvaluatorParseEach(values[1..])
        case Err(error) => Err(error)
        case Ok(rest) => Ok([condition] + rest)
  }

  // ---- The API's parser. ----

  function ApiParse(value: Json): Result<Condition, ParseError>
    decreases value, 1
  {
    if Named(value) then TriggerNamed(value.trigger.value.text)
    else if Conjunction(value) then
      match ApiParseEach(value.all.value.items)
      case Err(error) => Err(error)
      case Ok(conditions) => Ok(All(conditions))
    else if Disjunction(value) then
      match ApiParseEach(value.any.value.items)
      case Err(error) => Err(error)
      case Ok(conditions) => Ok(Any(conditions))
    else Err(NotACondition)
  }

  function ApiParseEach(values: seq<Json>): Result<seq<Condition>, ParseError>
    decreases values, 0
  {
    if values == [] then Ok([])
    else
      match ApiParse(values[0])
      case Err(error) => Err(error)
      case Ok(condition) =>
        match ApiParseEach(values[1..])
        case Err(error) => Err(error)
        case Ok(rest) => Ok([condition] + rest)
  }

  // ---- Conditions. ----

  /** No group is empty, at any depth. */
  predicate Validate(condition: Condition) {
    match condition
    case Trigger(_) => true
    case All(conditions) => conditions != [] && forall c :: c in conditions ==> Validate(c)
    case Any(conditions) => conditions != [] && forall c :: c in conditions ==> Validate(c)
  }

  /** As the API checks a condition: at every node the shape again, then the references below it. */
  predicate ValidateReferences(condition: Condition, names: set<string>) {
    && Validate(condition)
    && match condition
       case Trigger(name) => name in names
       case All(conditions) => forall c :: c in conditions ==> ValidateReferences(c, names)
       case Any(conditions) => forall c :: c in conditions ==> ValidateReferences(c, names)
  }

  predicate Evaluate(condition: Condition, satisfied: set<string>) {
    match condition
    case Trigger(name) => name in satisfied
    case All(conditions) => forall c :: c in conditions ==> Evaluate(c, satisfied)
    case Any(conditions) => exists c :: c in conditions && Evaluate(c, satisfied)
  }

  predicate Mentions(condition: Condition, name: string) {
    match condition
    case Trigger(own) => own == name
    case All(conditions) => exists c :: c in conditions && Mentions(c, name)
    case Any(conditions) => exists c :: c in conditions && Mentions(c, name)
  }

  // ---- The two parsers agree. ----

  /** The evaluator accepts exactly what the API accepts with no empty group, as the same tree. */
  lemma {:induction false} ParsersAgree(value: Json, condition: Condition)
    ensures EvaluatorParse(value) == Ok(condition) <==> ApiParse(value) == Ok(condition) && Validate(condition)
    decreases value, 1
  {
    if Named(value) {
    } else if Conjunction(value) {
      forall conditions | conditions == (if condition.Trigger? then [] else condition.conditions)
        ensures EvaluatorParseEach(value.all.value.items) == Ok(conditions) <==>
          ApiParseEach(value.all.value.items) == Ok(conditions) && forall c :: c in conditions ==> Validate(c)
      {
        ParsersAgreeOnEach(value.all.value.items, conditions);
      }
    } else if Disjunction(value) {
      forall conditions | conditions == (if condition.Trigger? then [] else condition.conditions)
        ensures EvaluatorParseEach(value.any.value.items) == Ok(conditions) <==>
          ApiParseEach(value.any.value.items) == Ok(conditions) && forall c :: c in conditions ==> Validate(c)
      {
        ParsersAgreeOnEach(value.any.value.items, conditions);
      }
    }
  }

  lemma ParsersAgreeOnEach(values: seq<Json>, conditions: seq<Condition>)
    ensures EvaluatorParseEach(values) == Ok(conditions) <==>
      ApiParseEach(values) == Ok(conditions) && forall c :: c in conditions ==> Validate(c)
    decreases values, 0
  {
    if values != [] {
      if conditions != [] {
        ParsersAgree(values[0], conditions[0]);
        ParsersAgreeOnEach(values[1..], conditions[1..]);
        assert conditions == [conditions[0]] + conditions[1..];
        assert forall c :: c in conditions <==> c == conditions[0] || c in conditions[1..];
      }
    }
  }

  lemma {:induction false} ReferencesExactlyWhen(condition: Condition, names: set<string>)
    ensures ValidateReferences(condition, names) <==>
      Validate(condition) && forall name :: Mentions(condition, name) ==> name in names
  {
    if condition.All? || condition.Any? {
      forall c | c in condition.conditions
        ensures ValidateReferences(c, names) <==>
          Validate(c) && forall name :: Mentions(c, name) ==> name in names
      {
        ReferencesExactlyWhen(c, names);
      }
    } else {
      assert Mentions(condition, condition.name);
    }
  }

  /** A condition the API stores is one the evaluator reads back, unchanged. */
  lemma StoredConditionsParse(value: Json, names: set<string>)
    requires ApiParse(value).Ok? && ValidateReferences(ApiParse(value).value, names)
    ensures EvaluatorParse(value) == ApiParse(value)
  {
    ParsersAgree(value, ApiParse(value).value);
  }

  // ---- What a verdict depends on. ----

  lemma {:induction false} EvaluateIsMonotone(condition: Condition, some: set<string>, more: set<string>)
    requires some <= more && Evaluate(condition, some)
    ensures Evaluate(condition, more)
  {
    if condition.All? {
      forall c | c in condition.conditions
        ensures Evaluate(c, more)
      {
        EvaluateIsMonotone(c, some, more);
      }
    } else if condition.Any? {
      var c :| c in condition.conditions && Evaluate(c, some);
      EvaluateIsMonotone(c, some, more);
    }
  }

  /** Only triggers a condition mentions matter to it. */
  lemma {:induction false} OnlyMentionsMatter(condition: Condition, one: set<string>, other: set<string>)
    requires forall name :: Mentions(condition, name) ==> (name in one <==> name in other)
    ensures Evaluate(condition, one) <==> Evaluate(condition, other)
  {
    if condition.All? || condition.Any? {
      forall c | c in condition.conditions
        ensures Evaluate(c, one) <==> Evaluate(c, other)
      {
        OnlyMentionsMatter(c, one, other);
      }
    } else {
      assert Mentions(condition, condition.name);
    }
  }

  /** A condition without empty groups needs at least one event, and all its triggers together suffice. */
  lemma {:induction false} ValidConditionsAreProper(condition: Condition, satisfied: set<string>)
    requires Validate(condition)
    ensures !Evaluate(condition, {})
    ensures (forall name :: Mentions(condition, name) ==> name in satisfied) ==> Evaluate(condition, satisfied)
  {
    if condition.All? || condition.Any? {
      forall c | c in condition.conditions
        ensures !Evaluate(c, {})
        ensures (forall name :: Mentions(c, name) ==> name in satisfied) ==> Evaluate(c, satisfied)
      {
        ValidConditionsAreProper(c, satisfied);
      }
      assert condition.conditions[0] in condition.conditions;
    } else {
      assert Mentions(condition, condition.name);
    }
  }

  /** Without that check, a condition can hold before anything happened. */
  lemma EmptyConjunctionHoldsOnNothing()
    ensures var value := Object(None, Some(Array([])), None);
            && ApiParse(value) == Ok(All([])) && Evaluate(All([]), {})
            && EvaluatorParse(value).Err?
  {
  }

  datatype Event = Event(automation: string, correlation: string, trigger: string)

  datatype GroupError = NoEvents | MixedGroup | InvalidName | InvalidCondition

  function SatisfiedBy(events: seq<Event>, enabled: set<string>): set<string> {
    set event | event in events && event.trigger in enabled :: event.trigger
  }

  predicate SameGroup(a: Event, b: Event) {
    a.automation == b.automation && a.correlation == b.correlation
  }

  predicate Mixed(events: seq<Event>)
    requires events != []
  {
    exists event :: event in events && !SameGroup(event, events[0])
  }

  /** The verdict on one leased group of events. */
  function Verdict(events: seq<Event>, enabled: set<string>, running: bool, condition: Json): Result<bool, GroupError> {
    if events == [] then Err(NoEvents)
    else if Mixed(events) then Err(MixedGroup)
    else if exists name :: name in SatisfiedBy(events, enabled) && Text.Trim(name) == "" then Err(InvalidName)
    else
      match EvaluatorParse(condition)
      case Err(_) => Err(InvalidCondition)
      case Ok(parsed) => Ok(running && Evaluate(parsed, SatisfiedBy(events, enabled)))
  }

  lemma SatisfiedGrows(some: seq<Event>, more: seq<Event>, enabled: set<string>)
    requires forall event :: event in some ==> event in more
    ensures SatisfiedBy(some, enabled) <= SatisfiedBy(more, enabled)
  {
  }

  /** Order and repetition of events do not matter. */
  lemma VerdictIgnoresOrder(
    some: seq<Event>, other: seq<Event>, enabled: set<string>, running: bool, condition: Json)
    requires forall event :: event in some <==> event in other
    ensures Verdict(some, enabled, running, condition) == Verdict(other, enabled, running, condition)
  {
    SatisfiedGrows(some, other, enabled);
    SatisfiedGrows(other, some, enabled);
    assert SatisfiedBy(some, enabled) == SatisfiedBy(other, enabled);
    assert other == [] || other[0] in some;
    if some != [] {
      assert some[0] in other;
      assert other[0] in some;
      if Mixed(some) {
        MixedIgnoresOrder(some, other);
      }
      if Mixed(other) {
        MixedIgnoresOrder(other, some);
      }
    }
  }

  lemma MixedIgnoresOrder(some: seq<Event>, other: seq<Event>)
    requires some != [] && other != [] && forall event :: event in some <==> event in other
    requires Mixed(some)
    ensures Mixed(other)
  {
    var event :| event in some && !SameGroup(event, some[0]);
    assert some[0] in other && event in other;
    assert !SameGroup(event, other[0]) || !SameGroup(some[0], other[0]);
  }

  /** A satisfied group stays satisfied however many events of the group join it. */
  lemma VerdictIsMonotone(
    some: seq<Event>, more: seq<Event>, enabled: set<string>, running: bool, condition: Json)
    requires forall event :: event in some ==> event in more
    requires forall event :: event in more ==> some != [] && SameGroup(event, some[0])
    requires forall name :: name in enabled ==> Text.Trim(name) != ""
    requires Verdict(some, enabled, running, condition) == Ok(true)
    ensures Verdict(more, enabled, running, condition) == Ok(true)
  {
    SatisfiedGrows(some, more, enabled);
    assert some[0] in more;
    assert more[0] in more;
    EvaluateIsMonotone(EvaluatorParse(condition).value, SatisfiedBy(some, enabled), SatisfiedBy(more, enabled));
  }

  // ---- Writing conditions. ----

  /** How a condition is written. */
  function ToJson(condition: Condition): Json {
    match condition
    case Trigger(name) => Object(Some(Text(name)), None, None)
    case All(conditions) => Object(None, Some(Array(EachToJson(conditions))), None)
    case Any(conditions) => Object(None, None, Some(Array(EachToJson(conditions))))
  }

  function EachToJson(conditions: seq<Condition>): seq<Json> {
    if conditions == [] then [] else [ToJson(conditions[0])] + EachToJson(conditions[1..])
  }

  predicate NamesAreProper(condition: Condition) {
    match condition
    case Trigger(name) => Text.Trim(name) != ""
    case All(conditions) => forall c :: c in conditions ==> NamesAreProper(c)
    case Any(conditions) => forall c :: c in conditions ==> NamesAreProper(c)
  }

  /** Both parsers read a written condition back, at every depth; the evaluator's needs its groups filled. */
  lemma {:induction false} ParsingUndoesWriting(condition: Condition)
    requires NamesAreProper(condition)
    ensures ApiParse(ToJson(condition)) == Ok(condition)
    ensures Validate(condition) ==> EvaluatorParse(ToJson(condition)) == Ok(condition)
    decreases condition, 1
  {
    if !condition.Trigger? {
      EachParsesBack(condition.conditions);
    }
    ParsersAgree(ToJson(condition), condition);
  }

  lemma EachParsesBack(conditions: seq<Condition>)
    requires forall c :: c in conditions ==> NamesAreProper(c)
    ensures ApiParseEach(EachToJson(conditions)) == Ok(conditions)
    decreases conditions, 0
  {
    if conditions != [] {
      ParsingUndoesWriting(conditions[0]);
      EachParsesBack(conditions[1..]);
      assert EachToJson(conditions)[1..] == EachToJson(conditions[1..]);
      assert conditions == [conditions[0]] + conditions[1..];
    }
  }

  // ---- A reference meaning. ----

  /** Every set of triggers that satisfies a condition and nothing more: one choice in each disjunction. */
  function Ways(condition: Condition): set<set<string>>
    decreases condition, 1
  {
    match condition
    case Trigger(name) => {{name}}
    case All(conditions) => WaysOfAll(conditions)
    case Any(conditions) => WaysOfAny(conditions)
  }

  function WaysOfAll(conditions: seq<Condition>): set<set<string>>
    decreases conditions, 0
  {
    if conditions == [] then {{}}
    else set way, rest | way in Ways(conditions[0]) && rest in WaysOfAll(conditions[1..]) :: way + rest
  }

  function WaysOfAny(conditions: seq<Condition>): set<set<string>>
    decreases conditions, 0
  {
    if conditions == [] then {} else Ways(conditions[0]) + WaysOfAny(conditions[1..])
  }

  ghost predicate Covered(ways: set<set<string>>, satisfied: set<string>) {
    exists way :: way in ways && way <= satisfied
  }

  /** A condition holds exactly when one of its ways is satisfied in full. */
  lemma {:induction false} HoldsExactlyWhenCovered(condition: Condition, satisfied: set<string>)
    ensures Evaluate(condition, satisfied) <==> Covered(Ways(condition), satisfied)
    decreases condition, 1
  {
    match condition
    case Trigger(name) =>
      assert {name} in Ways(condition);
    case All(conditions) => AllHoldExactlyWhenCovered(conditions, satisfied);
    case Any(conditions) => AnyHoldsExactlyWhenCovered(conditions, satisfied);
  }

  lemma AllHoldExactlyWhenCovered(conditions: seq<Condition>, satisfied: set<string>)
    ensures (forall c :: c in conditions ==> Evaluate(c, satisfied)) <==> Covered(WaysOfAll(conditions), satisfied)
    decreases conditions, 0
  {
    if conditions == [] {
      assert {} in WaysOfAll(conditions);
    } else {
      var rest := conditions[1..];
      HoldsExactlyWhenCovered(conditions[0], satisfied);
      AllHoldExactlyWhenCovered(rest, satisfied);
      assert forall c :: c in conditions <==> c == conditions[0] || c in rest;
      if Covered(Ways(conditions[0]), satisfied) && Covered(WaysOfAll(rest), satisfied) {
        var way :| way in Ways(conditions[0]) && way <= satisfied;
        var other :| other in WaysOfAll(rest) && other <= satisfied;
        assert way + other in WaysOfAll(conditions);
      }
      if Covered(WaysOfAll(conditions), satisfied) {
        var whole :| whole in WaysOfAll(conditions) && whole <= satisfied;
        var way, other :| way in Ways(conditions[0]) && other in WaysOfAll(rest) && whole == way + other;
        assert way <= satisfied && other <= satisfied;
      }
    }
  }

  lemma AnyHoldsExactlyWhenCovered(conditions: seq<Condition>, satisfied: set<string>)
    ensures (exists c :: c in conditions && Evaluate(c, satisfied)) <==> Covered(WaysOfAny(conditions), satisfied)
    decreases conditions, 0
  {
    if conditions != [] {
      var rest := conditions[1..];
      HoldsExactlyWhenCovered(conditions[0], satisfied);
      AnyHoldsExactlyWhenCovered(rest, satisfied);
      assert forall c :: c in conditions <==> c == conditions[0] || c in rest;
      assert forall way :: way in WaysOfAny(conditions) <==> way in Ways(conditions[0]) || way in WaysOfAny(rest);
    }
  }

  // ---- Which member counts. ----

  /**
   An object is read by its trigger when that is text, else by its conjunction when that is a list, else
   by its disjunction; a blank name, or none of the three, is refused.
   */
  lemma MembersCountInOrder(trigger: Option<Json>, all: Option<Json>, any: Option<Json>, items: seq<Json>, name: string)
    ensures ApiParse(Object(Some(Text(name)), all, any)) ==
      if Text.Trim(name) == "" then Err(BlankName) else Ok(Trigger(name))
    ensures !(trigger.Some? && trigger.value.Text?) ==>
      && (var parsed := ApiParse(Object(trigger, Some(Array(items)), any));
          match ApiParseEach(items)
          case Ok(conditions) => parsed == Ok(All(conditions))
          case Err(error) => parsed == Err(error))
      && (!(all.Some? && all.value.Array?) ==>
            && (var parsed := ApiParse(Object(trigger, all, Some(Array(items))));
                match ApiParseEach(items)
                case Ok(conditions) => parsed == Ok(Any(conditions))
                case Err(error) => parsed == Err(error))
            && (!(any.Some? && any.value.Array?) ==> ApiParse(Object(trigger, all, any)) == Err(NotACondition)))
  {
  }

  // ---- The verdict, exactly. ----

  /** An event of the group carries this name and its trigger is enabled. */
  predicate Carried(events: seq<Event>, enabled: set<string>, name: string) {
    name in enabled && exists i :: 0 <= i < |events| && events[i].trigger == name
  }

  /** All events belong to the first one's automation and correlation. */
  predicate OneGroup(events: seq<Event>) {
    forall i :: 0 <= i < |events| ==>
      events[i].automation == events[0].automation && events[i].correlation == events[0].correlation
  }

  lemma SatisfiedIsCarried(events: seq<Event>, enabled: set<string>, name: string)
    ensures name in SatisfiedBy(events, enabled) <==> Carried(events, enabled, name)
  {
    if name in SatisfiedBy(events, enabled) {
      var event :| event in events && event.trigger == name && event.trigger in enabled;
      var i :| 0 <= i < |events| && events[i] == event;
    }
    if Carried(events, enabled, name) {
      var i :| 0 <= i < |events| && events[i].trigger == name;
      assert events[i] in events;
    }
  }

  lemma MixedExactlyWhen(events: seq<Event>)
    requires events != []
    ensures Mixed(events) <==> !OneGroup(events)
  {
    if !OneGroup(events) {
      var i :| 0 <= i < |events|
               && !(events[i].automation == events[0].automation && events[i].correlation == events[0].correlation);
      assert events[i] in events;
    }
  }

  /** Some way of satisfying the condition is carried in full. */
  ghost predicate Answered(events: seq<Event>, enabled: set<string>, condition: Condition) {
    exists way :: way in Ways(condition) && forall name :: name in way ==> Carried(events, enabled, name)
  }

  lemma EvaluatesExactlyWhen(events: seq<Event>, enabled: set<string>, condition: Condition)
    ensures Evaluate(condition, SatisfiedBy(events, enabled)) <==> Answered(events, enabled, condition)
  {
    HoldsExactlyWhenCovered(condition, SatisfiedBy(events, enabled));
    forall name
      ensures name in SatisfiedBy(events, enabled) <==> Carried(events, enabled, name)
    {
      SatisfiedIsCarried(events, enabled, name);
    }
    if way :| way in Ways(condition) && forall name :: name in way ==> Carried(events, enabled, name) {
      assert way <= SatisfiedBy(events, enabled);
    }
  }

  /** Every carried name of an enabled trigger is a name. */
  ghost predicate NamesOk(events: seq<Event>, enabled: set<string>) {
    forall name :: Carried(events, enabled, name) ==> Text.Trim(name) != ""
  }

  /**
   A group starts its workflow exactly when it has events, all of one group, its names are names, its
   condition parses, its automation is enabled and some way of the condition is carried in full by enabled
   triggers; each refusal and a plain "not yet" have the first of these that fails.
   */
  lemma VerdictExactlyWhen(events: seq<Event>, enabled: set<string>, running: bool, condition: Json)
    ensures var verdict := Verdict(events, enabled, running, condition);
            && (verdict == Err(NoEvents) <==> events == [])
            && (verdict == Err(MixedGroup) <==> events != [] && !OneGroup(events))
            && (verdict == Err(InvalidName) <==> events != [] && OneGroup(events) && !NamesOk(events, enabled))
            && (verdict == Err(InvalidCondition) <==>
                  events != [] && OneGroup(events) && NamesOk(events, enabled) && EvaluatorParse(condition).Err?)
            && (verdict.Ok? <==>
                  events != [] && OneGroup(events) && NamesOk(events, enabled) && EvaluatorParse(condition).Ok?)
            && (verdict.Ok? ==>
                  (verdict.value <==> running && Answered(events, enabled, EvaluatorParse(condition).value)))
  {
    if events != [] {
      MixedExactlyWhen(events);
      forall name
        ensures name in SatisfiedBy(events, enabled) <==> Carried(events, enabled, name)
      {
        SatisfiedIsCarried(events, enabled, name);
      }
      if EvaluatorParse(condition).Ok? {
        EvaluatesExactlyWhen(events, enabled, EvaluatorParse(condition).value);
      }
      hide Carried, OneGroup, Answered, Mixed, EvaluatorParse;
    }
  }
}
