/**
 Cron triggers fired from a stored cursor by any number of evaluators (crates/evaluator/src/schedule.rs
 over crates/postgres/src/trigger_events.rs). A schedule is what its library answers: the first
 occurrence strictly after a time. Times are whole seconds; every clock reading is a parameter.
 */
module Schedules {
  import opened Wrappers

  type Time = int

  type Schedule = Time -> Option<Time>

  /** The answers are those of "first occurrence strictly after" for some set of instants. */
  ghost predicate IsSchedule(next: Schedule) {
    && (forall t :: next(t).Some? ==> next(t).value > t)
    && (forall t, u :: t <= u && next(t).Some? && u < next(t).value ==> next(u) == next(t))
    && (forall t, u :: t <= u && next(t).None? ==> next(u).None?)
  }

  predicate Occurs(next: Schedule, instant: Time) {
    next(instant - 1) == Some(instant)
  }

  // ---- Concurrent evaluators. ----

  datatype Phase =
    | Selecting(now: Time)
    | Firing(due: Time, following: Time)

  datatype Fired = Fired(due: Time, storeTime: Time)

  datatype System = System(
    cursor: Option<Time>, first: Option<Time>, evaluators: map<string, Phase>, fired: seq<Fired>)

  datatype Step =
    | Begin(evaluator: string, now: Time)
    | Select(evaluator: string)
    | Fire(evaluator: string, storeTime: Time)
    | Crash(evaluator: string)

  /** Reads the clock and initialises the cursor if nobody has; an error when nothing is to come. */
  function DoBegin(next: Schedule, s: System, e: string, now: Time): System {
    if e in s.evaluators || next(now).None? then s
    else
      var started := s.(evaluators := s.evaluators[e := Selecting(now)]);
      if s.cursor.Some? then started else started.(cursor := next(now), first := next(now))
  }

  function Dropped(s: System, e: string): System {
    s.(evaluators := s.evaluators - {e})
  }

  function DoSelect(next: Schedule, s: System, e: string): System {
    if e !in s.evaluators || !s.evaluators[e].Selecting? || s.cursor.None? then s
    else
      var due := s.cursor.value;
      if due > s.evaluators[e].now || next(due).None? then Dropped(s, e)
      else s.(evaluators := s.evaluators[e := Firing(due, next(due).value)])
  }

  /** Compare and set: only a cursor still at `due`, and due by the store's clock, advances. */
  function DoFire(s: System, e: string, storeTime: Time): System {
    if e !in s.evaluators || !s.evaluators[e].Firing? then s
    else
      var phase := s.evaluators[e];
      Dropped(if s.cursor == Some(phase.due) && phase.due <= storeTime
              then s.(cursor := Some(phase.following), fired := s.fired + [Fired(phase.due, storeTime)])
              else s, e)
  }

  function Do(next: Schedule, s: System, step: Step): System {
    match step
    case Begin(e, now) => DoBegin(next, s, e, now)
    case Select(e) => DoSelect(next, s, e)
    case Fire(e, storeTime) => DoFire(s, e, storeTime)
    case Crash(e) => Dropped(s, e)
  }

  function Run(next: Schedule, s: System, steps: seq<Step>): System {
    if steps == [] then s else Do(next, Run(next, s, steps[..|steps| - 1]), steps[|steps| - 1])
  }

  const CREATED := System(None, None, map[], [])

  /** The occurrence so many after a first one. */
  function Nth(next: Schedule, first: Time, k: nat): Option<Time> {
    if k == 0 then Some(first)
    else
      match Nth(next, first, k - 1)
      case None => None
      case Some(before) => next(before)
  }

  ghost predicate Segment(next: Schedule, s: System) {
    match s.first
    case None => s.cursor.None? && s.fired == []
    case Some(first) =>
      && Occurs(next, first)
      && s.cursor == Nth(next, first, |s.fired|)
      && s.cursor.Some?
      && (forall i :: 0 <= i < |s.fired| ==>
            Nth(next, first, i) == Some(s.fired[i].due) && s.fired[i].due <= s.fired[i].storeTime)
  }

  ghost predicate PhasesOk(next: Schedule, s: System) {
    forall e :: e in s.evaluators && s.evaluators[e].Firing? ==>
      next(s.evaluators[e].due) == Some(s.evaluators[e].following)
  }

  ghost predicate Inv(next: Schedule, s: System) {
    Segment(next, s) && PhasesOk(next, s)
  }

  lemma NextOccurs(next: Schedule, t: Time)
    requires IsSchedule(next) && next(t).Some?
    ensures Occurs(next, next(t).value)
  {
    assert next(next(t).value - 1) == next(t);
  }

  lemma NothingBetween(next: Schedule, t: Time, instant: Time)
    requires IsSchedule(next) && next(t).Some? && t < instant < next(t).value
    ensures !Occurs(next, instant)
  {
    assert next(instant - 1) == next(t);
  }

  lemma StepKeepsInv(next: Schedule, s: System, step: Step)
    requires IsSchedule(next) && Inv(next, s)
    ensures Inv(next, Do(next, s, step))
  {
    hide IsSchedule, Occurs;
    if step.Begin? && next(step.now).Some? {
      NextOccurs(next, step.now);
    }
  }

  lemma {:induction false} RunKeepsInv(next: Schedule, s: System, steps: seq<Step>)
    requires IsSchedule(next) && Inv(next, s)
    ensures Inv(next, Run(next, s, steps))
  {
    if steps != [] {
      hide Do, Inv;
      RunKeepsInv(next, s, steps[..|steps| - 1]);
      StepKeepsInv(next, Run(next, s, steps[..|steps| - 1]), steps[|steps| - 1]);
    }
  }

  lemma {:induction false} NthOccurs(next: Schedule, first: Time, k: nat)
    requires IsSchedule(next) && Occurs(next, first) && Nth(next, first, k).Some?
    ensures Occurs(next, Nth(next, first, k).value)
  {
    if k > 0 {
      NthOccurs(next, first, k - 1);
      NextOccurs(next, Nth(next, first, k - 1).value);
    }
  }

  lemma NextIsLater(next: Schedule, t: Time)
    requires IsSchedule(next) && next(t).Some?
    ensures next(t).value > t
  {
  }

  /** Successive occurrences leave nothing out and add nothing. */
  lemma {:induction false} NthIsExact(next: Schedule, first: Time, k: nat, instant: Time)
    requires IsSchedule(next) && Occurs(next, first) && Nth(next, first, k).Some?
    ensures Nth(next, first, k).value >= first
    ensures first <= instant < Nth(next, first, k).value && Occurs(next, instant) <==>
      exists i :: 0 <= i < k && Nth(next, first, i) == Some(instant)
  {
    hide IsSchedule, Occurs;
    if k > 0 {
      var before := Nth(next, first, k - 1).value;
      NthIsExact(next, first, k - 1, instant);
      NextIsLater(next, before);
      NthOccurs(next, first, k - 1);
      if before < instant < next(before).value {
        NothingBetween(next, before, instant);
      }
      if instant == before {
        assert Nth(next, first, k - 1) == Some(instant);
      }
    }
  }

  /**
   For any number of evaluators in any order, the instants fired are exactly the schedule's occurrences
   from the first cursor up to the present one, in order: none skipped, none twice, none early.
   */
  lemma FiredIsAnInitialSegment(next: Schedule, steps: seq<Step>, instant: Time)
    requires IsSchedule(next)
    ensures var s := Run(next, CREATED, steps);
            && (s.first.None? ==> s.fired == [])
            && (s.first.Some? ==>
                  && s.cursor.Some? && s.first.value <= s.cursor.value
                  && (forall i :: 0 <= i < |s.fired| ==>
                        && Nth(next, s.first.value, i) == Some(s.fired[i].due)
                        && s.fired[i].due <= s.fired[i].storeTime)
                  && (forall i, j :: 0 <= i < j < |s.fired| ==> s.fired[i].due < s.fired[j].due)
                  && ((exists i :: 0 <= i < |s.fired| && s.fired[i].due == instant) <==>
                        s.first.value <= instant < s.cursor.value && Occurs(next, instant)))
  {
    RunKeepsInv(next, CREATED, steps);
    var s := Run(next, CREATED, steps);
    hide IsSchedule, Run, Occurs, Nth;
    if s.first.Some? {
      SegmentIncreases(next, s);
      SegmentIsExact(next, s, instant);
    }
  }

  lemma SegmentIncreases(next: Schedule, s: System)
    requires IsSchedule(next) && Segment(next, s) && s.first.Some?
    ensures forall i, j :: 0 <= i < j < |s.fired| ==> s.fired[i].due < s.fired[j].due
  {
    hide IsSchedule, Occurs;
    forall i, j | 0 <= i < j < |s.fired|
      ensures s.fired[i].due < s.fired[j].due
    {
      NthIncreases(next, s.first.value, i, j);
    }
  }

  lemma SegmentIsExact(next: Schedule, s: System, instant: Time)
    requires IsSchedule(next) && Segment(next, s) && s.first.Some?
    ensures s.first.value <= s.cursor.value
    ensures (exists i :: 0 <= i < |s.fired| && s.fired[i].due == instant) <==>
      s.first.value <= instant < s.cursor.value && Occurs(next, instant)
  {
    hide IsSchedule, Occurs;
    NthIsExact(next, s.first.value, |s.fired|, instant);
    if i :| 0 <= i < |s.fired| && Nth(next, s.first.value, i) == Some(instant) {
      assert s.fired[i].due == instant;
    }
    if i :| 0 <= i < |s.fired| && s.fired[i].due == instant {
      assert Nth(next, s.first.value, i) == Some(s.fired[i].due);
      assert Nth(next, s.first.value, i) == Some(instant);
      assert exists k :: 0 <= k < |s.fired| && Nth(next, s.first.value, k) == Some(instant);
    }
  }

  /** Fired instants strictly increase, so none is fired twice. */
  lemma {:induction false} NthIncreases(next: Schedule, first: Time, i: nat, j: nat)
    requires IsSchedule(next) && i < j && Nth(next, first, j).Some?
    ensures Nth(next, first, i).Some? && Nth(next, first, i).value < Nth(next, first, j).value
    decreases j
  {
    hide IsSchedule;
    NextIsLater(next, Nth(next, first, j - 1).value);
    if i < j - 1 {
      NthIncreases(next, first, i, j - 1);
    }
  }

  // ---- The last occurrence. ----

  ghost predicate NeverLast(next: Schedule, s: System) {
    && PhasesOk(next, s)
    && forall i :: 0 <= i < |s.fired| ==> next(s.fired[i].due).Some?
  }

  /**
   An evaluator asks what follows before it fires, so an occurrence with none after it is never fired,
   whatever the evaluators do.
   */
  lemma {:induction false} LastOccurrenceNeverFires(next: Schedule, steps: seq<Step>)
    ensures NeverLast(next, Run(next, CREATED, steps))
  {
    if steps != [] {
      LastOccurrenceNeverFires(next, steps[..|steps| - 1]);
    }
  }

  ghost predicate Reachable(next: Schedule, s: System) {
    exists steps :: s == Run(next, CREATED, steps)
  }

  lemma ReachableStep(next: Schedule, s: System, step: Step)
    requires Reachable(next, s)
    ensures Reachable(next, Do(next, s, step))
  {
    hide Do;
    var steps :| s == Run(next, CREATED, steps);
    assert (steps + [step])[..|steps|] == steps;
    assert Do(next, s, step) == Run(next, CREATED, steps + [step]);
  }

  /** One evaluator that ticks at the moment an occurrence is due fires it, if another follows. */
  lemma TickFires(next: Schedule, s: System, due: Time)
    requires Reachable(next, s) && s.cursor == Some(due) && next(due).Some? && s.evaluators == map[]
    ensures Reachable(next, s.(cursor := next(due), fired := s.fired + [Fired(due, due)]))
  {
    hide Reachable;
    var begun := Do(next, s, Begin("e", due));
    ReachableStep(next, s, Begin("e", due));
    var selected := Do(next, begun, Select("e"));
    ReachableStep(next, begun, Select("e"));
    var fired := Do(next, selected, Fire("e", due));
    ReachableStep(next, selected, Fire("e", due));
    assert fired == s.(cursor := next(due), fired := s.fired + [Fired(due, due)]);
  }

  lemma {:induction false} AllButTheLastCanFire(next: Schedule, now: Time, k: nat)
    requires IsSchedule(next) && next(now).Some? && Nth(next, next(now).value, k).Some?
    ensures exists s :: (
      && Reachable(next, s) && s.evaluators == map[] && s.first == next(now)
      && |s.fired| == k && s.cursor == Nth(next, next(now).value, k))
  {
    hide IsSchedule;
    var first := next(now).value;
    if k == 0 {
      assert CREATED == Run(next, CREATED, []);
      ReachableStep(next, CREATED, Begin("e", now));
      var begun := Do(next, CREATED, Begin("e", now));
      ReachableStep(next, begun, Crash("e"));
      var s := Do(next, begun, Crash("e"));
      assert s.evaluators == map[];
      assert Reachable(next, s) && s.evaluators == map[] && s.first == next(now) && |s.fired| == 0;
    } else {
      AllButTheLastCanFire(next, now, k - 1);
      var s :| Reachable(next, s) && s.evaluators == map[] && s.first == next(now)
               && |s.fired| == k - 1 && s.cursor == Nth(next, first, k - 1);
      hide Reachable;
      var due := s.cursor.value;
      TickFires(next, s, due);
      var t := s.(cursor := next(due), fired := s.fired + [Fired(due, due)]);
      assert Reachable(next, t) && t.evaluators == map[] && t.first == next(now) && |t.fired| == k;
    }
  }

  /** An occurrence can be fired exactly when another one follows it. */
  lemma FiresExactlyWhenNotLast(next: Schedule, now: Time, k: nat)
    requires IsSchedule(next) && next(now).Some? && Nth(next, next(now).value, k).Some?
    ensures (exists s :: Reachable(next, s) && s.first == next(now) && |s.fired| > k) <==>
      next(Nth(next, next(now).value, k).value).Some?
  {
    hide IsSchedule;
    if next(Nth(next, next(now).value, k).value).Some? {
      AllButTheLastCanFire(next, now, k + 1);
    }
    if s :| Reachable(next, s) && s.first == next(now) && |s.fired| > k {
      var steps :| s == Run(next, CREATED, steps);
      LastOccurrenceNeverFires(next, steps);
      RunKeepsInv(next, CREATED, steps);
      hide Run;
      assert Nth(next, next(now).value, k) == Some(s.fired[k].due);
    }
  }

  lemma FirstFired(next: Schedule, s: System)
    requires Segment(next, s) && s.fired != []
    ensures s.first.Some? && Occurs(next, s.first.value) && s.fired[0].due == s.first.value
  {
    assert Nth(next, s.first.value, 0) == Some(s.fired[0].due);
  }

  /** A schedule with a single occurrence, at 10. */
  const ONCE: Schedule := t => if t < 10 then Some(10) else None

  /** It never fires, whatever the evaluators do. */
  lemma SingleOccurrenceNeverFires(steps: seq<Step>)
    ensures IsSchedule(ONCE) && Occurs(ONCE, 10)
    ensures Run(ONCE, CREATED, steps).fired == []
  {
    assert IsSchedule(ONCE);
    RunKeepsInv(ONCE, CREATED, steps);
    LastOccurrenceNeverFires(ONCE, steps);
    var s := Run(ONCE, CREATED, steps);
    hide Run;
    if s.fired != [] {
      FirstFired(ONCE, s);
      assert false;
    }
  }

  // ---- One evaluator's tick, as the program runs it. ----

  datatype Trigger = Trigger(id: string, schedule: Option<Schedule>)

  /** `fired` is the instant a tick enqueued an event for. */
  datatype Tick = Tick(cursor: Option<Time>, produced: Result<bool, string>, fired: Option<Time>)

  /** What one undisturbed tick does to a trigger's cursor, and what it reports. */
  function TickOf(trigger: Trigger, cursor: Option<Time>, now: Time, storeTime: Time): Tick {
    match trigger.schedule
    case None => Tick(cursor, Err("invalid definition"), None)
    case Some(next) =>
      match next(now)
      case None => Tick(cursor, Err("cron expression has no future occurrence"), None)
      case Some(initial) =>
        var due := if cursor.Some? then cursor.value else initial;
        if due > now then Tick(Some(due), Ok(false), None)
        else
          match next(due)
          case None => Tick(Some(due), Err("cron expression has no next occurrence"), None)
          case Some(following) =>
            if due <= storeTime then Tick(Some(following), Ok(true), Some(due)) else Tick(Some(due), Ok(false), None)
  }

  /**
   A tick fires a stored cursor exactly when it is due by both clocks and the schedule has an occurrence
   after the present: once it has none, even occurrences still owed are never fired.
   */
  lemma TickFiresExactlyWhen(next: Schedule, cursor: Time, now: Time, storeTime: Time)
    requires IsSchedule(next)
    ensures TickOf(Trigger("", Some(next)), Some(cursor), now, storeTime).produced == Ok(true) <==>
      cursor <= now && cursor <= storeTime && next(now).Some?
  {
    if cursor <= now && next(cursor).None? {
      assert next(now).None?;
    }
  }

  /** What a tick works from: the stored cursor, or the first occurrence to come. */
  function DueIn(next: Schedule, cursor: Option<Time>, now: Time): Option<Time> {
    if cursor.Some? then cursor else next(now)
  }

  /**
   What a tick reports, and what it stores: an error exactly when the schedule is missing, has nothing to
   come, or a due cursor has no successor; otherwise whether it fired, and a cursor that is not due stays.
   */
  lemma TickReportsExactlyWhen(trigger: Trigger, cursor: Option<Time>, now: Time, storeTime: Time)
    ensures var tick := TickOf(trigger, cursor, now, storeTime);
            match trigger.schedule
            case None => tick.produced.Err? && tick.cursor == cursor
            case Some(next) =>
              if next(now).None? then tick.produced.Err? && tick.cursor == cursor
              else
                var due := DueIn(next, cursor, now).value;
                && (tick.produced.Err? <==> due <= now && next(due).None?)
                && (tick.produced == Ok(true) <==> due <= now && due <= storeTime && next(due).Some?)
                && (tick.produced == Ok(true) ==> tick.cursor == next(due) && tick.fired == Some(due))
                && (tick.produced != Ok(true) ==> tick.cursor == Some(due) && tick.fired.None?)
  {
  }

  /** A tick is three steps of the concurrent model with nothing in between. */
  lemma TickIsThreeSteps(next: Schedule, s: System, now: Time, storeTime: Time)
    requires "e" !in s.evaluators
    ensures var t := Do(next, Do(next, Do(next, s, Begin("e", now)), Select("e")), Fire("e", storeTime));
            var tick := TickOf(Trigger("", Some(next)), s.cursor, now, storeTime);
            && t.cursor == tick.cursor
            && t.evaluators == s.evaluators
            && (tick.produced == Ok(true) <==> tick.fired.Some?)
            && t.fired == s.fired + (if tick.fired.Some? then [Fired(tick.fired.value, storeTime)] else [])
  {
    var begun := DoBegin(next, s, "e", now);
    var selected := DoSelect(next, begun, "e");
    if next(now).Some? {
      var due := begun.cursor.value;
      if due > now || next(due).None? {
        PutAndDrop(s.evaluators, Selecting(now), Selecting(now));
        assert "e" !in selected.evaluators;
      } else {
        PutAndDrop(s.evaluators, Selecting(now), Firing(due, next(due).value));
        assert selected.evaluators == s.evaluators["e" := Selecting(now)]["e" := Firing(due, next(due).value)];
      }
    } else {
      assert selected == s;
    }
  }

  lemma PutAndDrop(evaluators: map<string, Phase>, before: Phase, phase: Phase)
    requires "e" !in evaluators
    ensures evaluators["e" := before] - {"e"} == evaluators
    ensures evaluators["e" := before]["e" := phase] - {"e"} == evaluators
  {
  }

  function CursorIn(cursors: map<string, Time>, trigger: Trigger): Option<Time> {
    if trigger.id in cursors then Some(cursors[trigger.id]) else None
  }

  /** The tick of one trigger of several, from the cursors stored before any of them. */
  function TickAt(
    triggers: seq<Trigger>, cursors: map<string, Time>, clock: nat -> Time, storeClock: nat -> Time, i: nat): Tick
    requires i < |triggers|
  {
    TickOf(triggers[i], CursorIn(cursors, triggers[i]), clock(i), storeClock(i))
  }

  /** The events ticking the first so many triggers enqueues, in order. */
  function EventsOf(
    triggers: seq<Trigger>, cursors: map<string, Time>, clock: nat -> Time, storeClock: nat -> Time, n: nat):
    seq<(string, Time)>
    requires n <= |triggers|
  {
    if n == 0 then []
    else
      var tick := TickAt(triggers, cursors, clock, storeClock, n - 1);
      EventsOf(triggers, cursors, clock, storeClock, n - 1)
      + (if tick.fired.Some? then [(triggers[n - 1].id, tick.fired.value)] else [])
  }

  class CursorStore {
    var cursors: map<string, Time>
    /** The events enqueued, oldest first. */
    var events: seq<(string, Time)>
    var failures: map<string, string>

    constructor ()
      ensures cursors == map[] && events == [] && failures == map[]
    {
      cursors, events, failures := map[], [], map[];
    }

    function CursorOf(trigger: Trigger): Option<Time>
      reads this
    {
      CursorIn(cursors, trigger)
    }

    method ProduceOne(trigger: Trigger, now: Time, storeTime: Time) returns (produced: Result<bool, string>)
      modifies this`cursors, this`events
      ensures var tick := TickOf(trigger, old(CursorOf(trigger)), now, storeTime);
              && produced == tick.produced && CursorOf(trigger) == tick.cursor
              && (produced == Ok(true) <==> tick.fired.Some?)
              && events == old(events) + (if tick.fired.Some? then [(trigger.id, tick.fired.value)] else [])
      ensures forall id :: id != trigger.id ==>
        (id in cursors <==> id in old(cursors)) && (id in cursors ==> cursors[id] == old(cursors)[id])
    {
      if trigger.schedule.None? {
        return Err("invalid definition");
      }
      var next := trigger.schedule.value;
      var initial := next(now);
      if initial.None? {
        return Err("cron expression has no future occurrence");
      }
      if trigger.id !in cursors {
        cursors := cursors[trigger.id := initial.value];
      }
      var due := cursors[trigger.id];
      if due > now {
        return Ok(false);
      }
      var following := next(due);
      if following.None? {
        return Err("cron expression has no next occurrence");
      }
      if due > storeTime {
        return Ok(false);
      }
      cursors := cursors[trigger.id := following.value];
      events := events + [(trigger.id, due)];
      return Ok(true);
    }

    /**
     Ticks every trigger. One that cannot be evaluated is recorded and passed over: it changes neither
     another trigger's cursor nor the count, which is the number of events enqueued.
     */
    method ProduceDueEvents(triggers: seq<Trigger>, clock: nat -> Time, storeClock: nat -> Time) returns (fired: nat)
      requires forall i, j :: 0 <= i < j < |triggers| ==> triggers[i].id != triggers[j].id
      modifies this
      ensures events == old(events) + EventsOf(triggers, old(cursors), clock, storeClock, |triggers|)
      ensures fired == |EventsOf(triggers, old(cursors), clock, storeClock, |triggers|)|
      ensures forall i :: 0 <= i < |triggers| ==>
        CursorOf(triggers[i]) == TickAt(triggers, old(cursors), clock, storeClock, i).cursor
      ensures forall i :: 0 <= i < |triggers| ==>
        (triggers[i].id in failures <==> TickAt(triggers, old(cursors), clock, storeClock, i).produced.Err?)
    {
      hide TickOf;
      ghost var before := cursors;
      fired := 0;
      for i := 0 to |triggers|
        invariant events == old(events) + EventsOf(triggers, before, clock, storeClock, i)
        invariant fired == |EventsOf(triggers, before, clock, storeClock, i)|
        invariant forall j :: 0 <= j < i ==>
          CursorOf(triggers[j]) == TickAt(triggers, before, clock, storeClock, j).cursor
        invariant forall j :: i <= j < |triggers| ==> CursorOf(triggers[j]) == CursorIn(before, triggers[j])
        invariant forall j :: 0 <= j < i ==>
          (triggers[j].id in failures <==> TickAt(triggers, before, clock, storeClock, j).produced.Err?)
      {
        ghost var tick := TickAt(triggers, before, clock, storeClock, i);
        var produced := ProduceOne(triggers[i], clock(i), storeClock(i));
        assert produced == tick.produced && CursorOf(triggers[i]) == tick.cursor;
        hide TickAt;
        match produced {
          case Ok(yes) =>
            fired := fired + (if yes then 1 else 0);
            failures := failures - {triggers[i].id};
          case Err(error) =>
            failures := failures[triggers[i].id := error];
        }
      }
    }
  }
}
