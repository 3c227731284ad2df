// The components the per-frame systems read and write: an entity's sprite, its blackboard of
// named values and its state machine. Entities are plain ids.

module Components {

  type Entity = nat

  /**
   * A sprite: the asset it is drawn from, its frame size, and its animation state (the name of
   * the animation it plays, the frame of it that is showing and the seconds the frame has shown).
   * The colour tint only reaches SDL and is not kept.
   */
  datatype Sprite = Sprite(assetId: string, width: int, height: int, zIndex: int, isAnimated: bool,
    currentState: string, currentFrame: int, animationTimer: real)

  /** A blackboard value: a `bool`, or a value of any other type. */
  datatype BlackboardValue = BoolValue(b: bool) | OtherValue

  /** The blackboard of one entity: values by key. */
  type Blackboard = map<string, BlackboardValue>

  /** The key under which movement systems publish whether the entity moves. */
  const IS_MOVING: string := "isMoving"

  const IDLE: string := "idle"
  const WALK: string := "walk"

  /**
   * A state machine: its states by name, each either a state object or a null entry (what
   * `operator[]` inserts for a missing name), the current and previous state names and the
   * seconds spent in the current state. A state object is known by the name it was stored under.
   */
  datatype StateMachine = StateMachine(states: map<string, bool>, currentState: string,
    previousState: string, timeInState: real)
}
