// `StateMachineSystem::update`: every entity with a state machine and a blackboard moves to
// "walk" while its blackboard says it moves and to "idle" otherwise, leaving the old state and
// entering the new one, and then runs the current state for the frame. The state objects are
// foreign code: the model records which of their callbacks run, in order.

module StateMachineSystem {
  import opened Wrappers
  import opened Components

  /** A call into a state object: the entity and the name the state is stored under. */
  datatype Call = OnExit(entity: Entity, state: string) | OnEnter(entity: Entity, state: string)
    | OnUpdate(entity: Entity, state: string, dt: real)

  /**
   * The state the blackboard asks for: "walk" when the moving flag is `true`, "idle" when it is
   * `false` or missing, and None when it holds a value of another type, for which the cast to
   * `bool` throws.
   */
  function Target(bb: Blackboard): (r: Option<string>)
    ensures r.None? <==> IS_MOVING in bb && bb[IS_MOVING].OtherValue?
    ensures r.Some? ==> (r.value == WALK <==> IS_MOVING in bb && bb[IS_MOVING] == BoolValue(true))
    ensures r.Some? ==> r.value == WALK || r.value == IDLE
  {
    if IS_MOVING in bb then
      match bb[IS_MOVING]
      case BoolValue(b) => Some(if b then WALK else IDLE)
      case OtherValue => None
    else Some(IDLE)
  }

  /** `states[key]`: the map with `key` present, a null entry added when it was missing. */
  function Touch(states: map<string, bool>, key: string): (r: map<string, bool>)
    ensures r.Keys == states.Keys + {key}
    ensures forall k :: k in states ==> r[k] == states[k]
    ensures key !in states ==> !r[key]
  {
    if key in states then states else states[key := false]
  }

  /** The calls of one state callback: one call when the entry under `key` holds a state object. */
  function CallIf(states: map<string, bool>, key: string, call: Call): seq<Call>
    requires key in states
  {
    if states[key] then [call] else []
  }

  /**
   * The transition to `target`, when it is not the current state: the old state's onExit, the
   * names moved on, the clock reset and the new state's onEnter.
   */
  function Transition(m: StateMachine, target: string, e: Entity): (StateMachine, seq<Call>)
  {
    if target == m.currentState then (m, [])
    else
      var exited := Touch(m.states, m.currentState);
      var entered := Touch(exited, target);
      (StateMachine(entered, target, m.currentState, 0.0),
       CallIf(exited, m.currentState, OnExit(e, m.currentState)) + CallIf(entered, target, OnEnter(e, target)))
  }

  /** The update of the current state: its clock advances by `dt`, then its onUpdate runs. */
  function Tick(m: StateMachine, e: Entity, dt: real): (StateMachine, seq<Call>)
  {
    var states := Touch(m.states, m.currentState);
    (m.(states := states, timeInState := m.timeInState + dt),
     CallIf(states, m.currentState, OnUpdate(e, m.currentState, dt)))
  }

  /** One entity's update, or None when reading its blackboard throws. */
  function Step(m: StateMachine, bb: Blackboard, e: Entity, dt: real): Option<(StateMachine, seq<Call>)>
  {
    match Target(bb)
    case None => None
    case Some(target) =>
      var (moved, transition) := Transition(m, target, e);
      var (ticked, update) := Tick(moved, e, dt);
      Some((ticked, transition + update))
  }

  /**
   * A step ends in the state the blackboard asks for; on a change the old state's onExit, the new
   * state's onEnter and its onUpdate run in that order, each only when its entry holds a state
   * object, the previous state is the old one and the clock restarts; without a change only
   * onUpdate may run and the previous state and clock carry on. Looking a name up adds a null
   * entry when it is missing and never changes an entry.
   */
  lemma StepEffects(m: StateMachine, bb: Blackboard, e: Entity, dt: real)
    ensures Step(m, bb, e, dt).None? <==> Target(bb).None?
    ensures Step(m, bb, e, dt).Some? ==>
      var (r, calls) := Step(m, bb, e, dt).value;
      var target := Target(bb).value;
      var exit := m.currentState in m.states && m.states[m.currentState];
      var enter := target in m.states && m.states[target];
      r.currentState == target &&
      r.states.Keys == m.states.Keys + {m.currentState, target} &&
      (forall k :: k in m.states ==> r.states[k] == m.states[k]) &&
      (forall k :: k in r.states && k !in m.states ==> !r.states[k]) &&
      (target != m.currentState ==>
        r.previousState == m.currentState && r.timeInState == 0.0 + dt &&
        calls == (if exit then [OnExit(e, m.currentState)] else []) +
                 (if enter then [OnEnter(e, target)] else []) +
                 (if enter then [OnUpdate(e, target, dt)] else [])) &&
      (target == m.currentState ==>
        r.previousState == m.previousState && r.timeInState == m.timeInState + dt &&
        calls == (if enter then [OnUpdate(e, target, dt)] else []))
  {
  }

  /**
   * The update loop over the view from its start, with the machines and the calls so far, or
   * with `threw` set when an entity's blackboard threw, which ends the update.
   */
  datatype Progress = Progress(machines: map<Entity, StateMachine>, calls: seq<Call>, threw: bool)

  function Run(view: seq<Entity>, machines: map<Entity, StateMachine>, blackboards: map<Entity, Blackboard>, dt: real): (r: Progress)
    requires forall e :: e in view ==> e in machines && e in blackboards
    ensures r.machines.Keys == machines.Keys
  {
    if view == [] then Progress(machines, [], false)
    else
      var p := Run(view[..|view| - 1], machines, blackboards, dt);
      var e := view[|view| - 1];
      if p.threw then p
      else
        match Step(p.machines[e], blackboards[e], e, dt)
        case None => Progress(p.machines, p.calls, true)
        case Some((m, calls)) => Progress(p.machines[e := m], p.calls + calls, false)
  }

  /** The blackboard of `e` holds a moving flag that is not a `bool`. */
  predicate Throws(blackboards: map<Entity, Blackboard>, e: Entity)
    requires e in blackboards
  {
    IS_MOVING in blackboards[e] && blackboards[e][IS_MOVING].OtherValue?
  }

  /**
   * The update throws exactly when some viewed blackboard holds a wrongly typed flag; otherwise
   * it leaves every viewed machine in the state its blackboard asks for, "idle" or "walk", and
   * every other machine as it was.
   */
  lemma {:induction false} RunOutcome(view: seq<Entity>, machines: map<Entity, StateMachine>, blackboards: map<Entity, Blackboard>, dt: real)
    requires forall e :: e in view ==> e in machines && e in blackboards
    ensures Run(view, machines, blackboards, dt).threw <==> exists e :: e in view && Throws(blackboards, e)
    ensures !Run(view, machines, blackboards, dt).threw ==> forall e :: e in view ==>
      Run(view, machines, blackboards, dt).machines[e].currentState == Target(blackboards[e]).value &&
      Run(view, machines, blackboards, dt).machines[e].currentState in {IDLE, WALK}
    ensures forall e :: e in machines && e !in view ==> Run(view, machines, blackboards, dt).machines[e] == machines[e]
  {
    if view != [] {
      var init := view[..|view| - 1];
      var e := view[|view| - 1];
      assert forall x :: x in view <==> x in init || x == e;
      RunOutcome(init, machines, blackboards, dt);
      var p := Run(init, machines, blackboards, dt);
      if !p.threw {
        StepEffects(p.machines[e], blackboards[e], e, dt);
      }
    }
  }

  /** An entity's update, with the map lookups and callbacks in the order the system performs them. */
  method StepEntity(m: StateMachine, bb: Blackboard, e: Entity, dt: real) returns (r: StateMachine, calls: seq<Call>, threw: bool)
    ensures threw <==> Step(m, bb, e, dt).None?
    ensures !threw ==> (r, calls) == Step(m, bb, e, dt).value
  {
    var isMoving := false;
    if IS_MOVING in bb {
      match bb[IS_MOVING] {
        case BoolValue(b) =>
          isMoving := b;
        case OtherValue =>
          return m, [], true;
      }
    }
    var newStateKey := if isMoving then WALK else IDLE;
    assert Target(bb) == Some(newStateKey);
    r, calls, threw := m, [], false;
    if newStateKey != r.currentState {
      r := r.(states := Touch(r.states, r.currentState));
      if r.states[r.currentState] {
        calls := calls + [OnExit(e, r.currentState)];
      }
      r := r.(previousState := r.currentState);
      r := r.(currentState := newStateKey);
      r := r.(timeInState := 0.0);
      r := r.(states := Touch(r.states, r.currentState));
      if r.states[r.currentState] {
        calls := calls + [OnEnter(e, r.currentState)];
      }
      var exited := Touch(m.states, m.currentState);
      assert r.states == Touch(exited, newStateKey);
      assert calls == CallIf(exited, m.currentState, OnExit(e, m.currentState)) +
        CallIf(Touch(exited, newStateKey), newStateKey, OnEnter(e, newStateKey));
    }
    assert (r, calls) == Transition(m, newStateKey, e);
    ghost var moved := r;
    ghost var transition := calls;
    r := r.(timeInState := r.timeInState + dt);
    r := r.(states := Touch(r.states, r.currentState));
    if r.states[r.currentState] {
      calls := calls + [OnUpdate(e, r.currentState, dt)];
    }
    assert r == Tick(moved, e, dt).0;
    assert calls == transition + Tick(moved, e, dt).1;
  }

  /** The system's update: the entities of the view in order, stopping at the first throw. */
  method Update(view: seq<Entity>, machines: map<Entity, StateMachine>, blackboards: map<Entity, Blackboard>, dt: real)
    returns (updated: map<Entity, StateMachine>, calls: seq<Call>, threw: bool)
    requires forall e :: e in view ==> e in machines && e in blackboards
    ensures Progress(updated, calls, threw) == Run(view, machines, blackboards, dt)
  {
    updated, calls, threw := machines, [], false;
    for i := 0 to |view|
      invariant Progress(updated, calls, false) == Run(view[..i], machines, blackboards, dt)
    {
      assert view[..i + 1][..i] == view[..i];
      var entity := view[i];
      var m, stepCalls, stepThrew := StepEntity(updated[entity], blackboards[entity], entity, dt);
      if stepThrew {
        threw := true;
        RunStops(view, i + 1, machines, blackboards, dt);
        return;
      }
      updated := updated[entity := m];
      calls := calls + stepCalls;
    }
    assert view[..|view|] == view;
  }

  /** Once the update has thrown, the rest of the view changes nothing. */
  lemma {:induction false} RunStops(view: seq<Entity>, i: nat, machines: map<Entity, StateMachine>, blackboards: map<Entity, Blackboard>, dt: real)
    requires forall e :: e in view ==> e in machines && e in blackboards
    requires i <= |view| && Run(view[..i], machines, blackboards, dt).threw
    ensures Run(view, machines, blackboards, dt) == Run(view[..i], machines, blackboards, dt)
    decreases |view| - i
  {
    if i < |view| {
      assert view[..i + 1][..i] == view[..i];
      RunStops(view, i + 1, machines, blackboards, dt);
    } else {
      assert view[..i] == view;
    }
  }
}
