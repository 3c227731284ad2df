// The action layer between raw device events and game logic: physical inputs are bound to
// named actions, and each action keeps its state for this frame and the previous one, so
// that single-frame "just pressed" and "just released" edges can be detected.

module Input {
  /** SDL keycodes, controller buttons and controller axes are opaque integers here. */
  type Keycode = int
  type Button = int
  type Axis = int

  /** The current and the previous frame's state of one action. */
  datatype ActionState = ActionState(isPressed: bool, wasPressed: bool)

  /** The device events the manager reacts to; every other event type is `Other`. */
  datatype Event =
    | Key(down: bool, key: Keycode, repeat: bool)
    | ControllerButton(down: bool, button: Button)
    | ControllerAxis(axis: Axis, value: int)
    | DeviceAdded(deviceIndex: int)
    | DeviceRemoved(instanceId: int)
    | Other

  /** Everything a configuration load can change: the three bindings and the two state maps. */
  datatype Snapshot = Snapshot(
    keys: map<Keycode, string>, buttons: map<Button, string>, axes: map<Axis, string>,
    states: map<string, ActionState>, axisValues: map<string, real>)

  /** The normalisation divisor of a raw axis reading. */
  const AXIS_RANGE: real := 32767.0

  function Abs(x: real): real { if x < 0.0 then -x else x }

  /**
   * A raw axis reading inside the dead zone reads as 0; outside it, the reading is scaled by
   * 1/32767, so a full deflection (a signed 16-bit value) lands in [-32768/32767, 1].
   */
  function NormalizeAxis(raw: int, deadZone: real): (v: real)
    ensures Abs(raw as real) <= deadZone ==> v == 0.0
    ensures Abs(raw as real) > deadZone ==> v * AXIS_RANGE == raw as real
    ensures -32768 <= raw <= 32767 ==> -32768.0 / AXIS_RANGE <= v <= 1.0
  {
    if Abs(raw as real) > deadZone then raw as real / AXIS_RANGE else 0.0
  }

  /**
   * The state map after `operator[]` writes `pressed` into `action`: a missing action is first
   * default-constructed as not pressed in either frame.
   */
  function WithPressed(m: map<string, ActionState>, action: string, pressed: bool): (r: map<string, ActionState>)
    ensures r.Keys == m.Keys + {action} && r[action].isPressed == pressed
    ensures r[action].wasPressed == (action in m && m[action].wasPressed)
    ensures forall a :: a in m && a != action ==> r[a] == m[a]
  {
    m[action := ActionState(pressed, action in m && m[action].wasPressed)]
  }

  class InputManager {
    var keyActionMap: map<Keycode, string>
    var buttonActionMap: map<Button, string>
    var axisActionMap: map<Axis, string>
    var stateActions: map<string, ActionState>
    var axisActions: map<string, real>
    const joystickDeadZone: real

    /** The controller subsystem start-up is a side effect outside this model. */
    constructor (joystickDeadZone: real)
      ensures this.joystickDeadZone == joystickDeadZone
      ensures keyActionMap == map[] && buttonActionMap == map[] && axisActionMap == map[]
      ensures stateActions == map[] && axisActions == map[]
    {
      this.joystickDeadZone := joystickDeadZone;
      keyActionMap, buttonActionMap, axisActionMap := map[], map[], map[];
      stateActions, axisActions := map[], map[];
    }

    /** The manager's bindings and action states as one value. */
    function State(): Snapshot
      reads this
    {
      Snapshot(keyActionMap, buttonActionMap, axisActionMap, stateActions, axisActions)
    }

    function IsActionPressed(action: string): (b: bool)
      reads this
      ensures action !in stateActions ==> !b
    {
      action in stateActions && stateActions[action].isPressed
    }

    /** True only on the frame the action went down; an unknown action is never just pressed. */
    function IsActionJustPressed(action: string): (b: bool)
      reads this
      ensures b ==> IsActionPressed(action) && !IsActionJustReleased(action)
      ensures action !in stateActions ==> !b
    {
      action in stateActions && stateActions[action].isPressed && !stateActions[action].wasPressed
    }

    /** True only on the frame the action went up; an unknown action is never just released. */
    function IsActionJustReleased(action: string): (b: bool)
      reads this
      ensures b ==> !IsActionPressed(action)
      ensures action !in stateActions ==> !b
    {
      action in stateActions && !stateActions[action].isPressed && stateActions[action].wasPressed
    }

    function GetAxisValue(action: string): (v: real)
      reads this
      ensures action !in axisActions ==> v == 0.0
      ensures action in axisActions ==> v == axisActions[action]
    {
      if action in axisActions then axisActions[action] else 0.0
    }

    /**
     * At the start of a frame every known action's current state becomes its previous state;
     * after it, no action is just pressed or just released until an event arrives.
     */
    method PrepareForUpdate()
      modifies this
      ensures stateActions.Keys == old(stateActions.Keys)
      ensures forall a :: a in stateActions ==>
        stateActions[a] == ActionState(old(stateActions[a].isPressed), old(stateActions[a].isPressed))
      ensures forall a :: !IsActionJustPressed(a) && !IsActionJustReleased(a)
      ensures keyActionMap == old(keyActionMap) && buttonActionMap == old(buttonActionMap)
      ensures axisActionMap == old(axisActionMap) && axisActions == old(axisActions)
    {
      var rest := stateActions.Keys;
      while rest != {}
        invariant rest <= stateActions.Keys && stateActions.Keys == old(stateActions.Keys)
        invariant forall a :: a in rest ==> stateActions[a] == old(stateActions[a])
        invariant forall a :: a in stateActions && a !in rest ==>
          stateActions[a] == ActionState(old(stateActions[a].isPressed), old(stateActions[a].isPressed))
        invariant keyActionMap == old(keyActionMap) && buttonActionMap == old(buttonActionMap)
        invariant axisActionMap == old(axisActionMap) && axisActions == old(axisActions)
        decreases rest
      {
        var a :| a in rest;
        stateActions := stateActions[a := stateActions[a].(wasPressed := stateActions[a].isPressed)];
        rest := rest - {a};
      }
    }

    /**
     * A non-repeat key event of a bound key, and any button event of a bound button, sets that
     * action's current state to whether the event is a press; an axis event of a bound axis
     * stores the normalised reading. Repeats, unbound inputs and device events change no
     * binding and no state (opening and closing controllers is outside this model).
     */
    method HandleEvent(event: Event)
      modifies this
      ensures keyActionMap == old(keyActionMap) && buttonActionMap == old(buttonActionMap)
      ensures axisActionMap == old(axisActionMap)
      ensures event.Key? && event.key in keyActionMap && !event.repeat ==>
        stateActions == WithPressed(old(stateActions), keyActionMap[event.key], event.down)
      ensures event.ControllerButton? && event.button in buttonActionMap ==>
        stateActions == WithPressed(old(stateActions), buttonActionMap[event.button], event.down)
      ensures event.ControllerAxis? && event.axis in axisActionMap ==>
        axisActions == old(axisActions)[axisActionMap[event.axis] := NormalizeAxis(event.value, joystickDeadZone)]
      ensures (!(event.Key? && event.key in keyActionMap && !event.repeat) &&
               !(event.ControllerButton? && event.button in buttonActionMap)) ==>
        stateActions == old(stateActions)
      ensures !(event.ControllerAxis? && event.axis in axisActionMap) ==> axisActions == old(axisActions)
    {
      match event {
        case Key(down, key, repeat) =>
          if key in keyActionMap {
            var actionName := keyActionMap[key];
            if !repeat {
              stateActions := WithPressed(stateActions, actionName, down);
            }
          }
        case ControllerButton(down, button) =>
          if button in buttonActionMap {
            var actionName := buttonActionMap[button];
            stateActions := WithPressed(stateActions, actionName, down);
          }
        case ControllerAxis(axis, value) =>
          if axis in axisActionMap {
            var actionName := axisActionMap[axis];
            axisActions := axisActions[actionName := NormalizeAxis(value, joystickDeadZone)];
          }
        case DeviceAdded(_) =>
        case DeviceRemoved(_) =>
        case Other =>
      }
    }

    /** Binds `key` to `action` (replacing any earlier binding of that key) and resets the action. */
    method MapKeyToAction(key: Keycode, action: string)
      modifies this
      ensures keyActionMap == old(keyActionMap)[key := action]
      ensures stateActions == old(stateActions)[action := ActionState(false, false)]
      ensures buttonActionMap == old(buttonActionMap) && axisActionMap == old(axisActionMap)
      ensures axisActions == old(axisActions)
      ensures !IsActionPressed(action) && !IsActionJustPressed(action) && !IsActionJustReleased(action)
    {
      keyActionMap := keyActionMap[key := action];
      stateActions := stateActions[action := ActionState(false, false)];
    }

    /** Binds `button` to `action` and resets the action. */
    method MapButtonToAction(button: Button, action: string)
      modifies this
      ensures buttonActionMap == old(buttonActionMap)[button := action]
      ensures stateActions == old(stateActions)[action := ActionState(false, false)]
      ensures keyActionMap == old(keyActionMap) && axisActionMap == old(axisActionMap)
      ensures axisActions == old(axisActions)
      ensures !IsActionPressed(action) && !IsActionJustPressed(action) && !IsActionJustReleased(action)
    {
      buttonActionMap := buttonActionMap[button := action];
      stateActions := stateActions[action := ActionState(false, false)];
    }

    /** Binds `axis` to `action` and resets the action's axis value to 0. */
    method MapAxisToAction(axis: Axis, action: string)
      modifies this
      ensures axisActionMap == old(axisActionMap)[axis := action]
      ensures axisActions == old(axisActions)[action := 0.0]
      ensures keyActionMap == old(keyActionMap) && buttonActionMap == old(buttonActionMap)
      ensures stateActions == old(stateActions)
      ensures GetAxisValue(action) == 0.0
    {
      axisActionMap := axisActionMap[axis := action];
      axisActions := axisActions[action := 0.0];
    }
  }
}
