// Text configuration of input bindings: one `TYPE.NAME = ACTION` binding per line, with the
// SDL names matched case-insensitively against fixed tables, and the serialiser that writes
// the bindings of an input manager back in the same format.

module InputConfig {
  import opened Wrappers
  import opened Input

  // ---------------------------------------------------------------------------------------
  // Text helpers
  // ---------------------------------------------------------------------------------------

  /** The characters `trim` strips: space and horizontal tab only. */
  predicate IsBlank(c: char) { c == ' ' || c == '\t' }

  predicate AllBlank(s: string) { forall i :: 0 <= i < |s| ==> IsBlank(s[i]) }

  /** The position of the first non-blank character, or |s| when there is none. */
  function LeadingBlanks(s: string): (n: nat)
    ensures n <= |s| && AllBlank(s[..n]) && (n < |s| ==> !IsBlank(s[n]))
  {
    if s == [] || !IsBlank(s[0]) then 0
    else
      var n := LeadingBlanks(s[1..]);
      assert s[..n + 1] == [s[0]] + s[1..][..n];
      n + 1
  }

  /** The number of blank characters at the end of `s`. */
  function TrailingBlanks(s: string): (n: nat)
    ensures n <= |s| && AllBlank(s[|s| - n..]) && (n < |s| ==> !IsBlank(s[|s| - n - 1]))
  {
    if s == [] || !IsBlank(s[|s| - 1]) then 0
    else
      var n := TrailingBlanks(s[..|s| - 1]);
      TrailingStep(s, s[..|s| - 1], n);
      n + 1
  }

  /** One more blank at the end of `init` makes one more trailing blank. */
  lemma TrailingStep(s: string, init: string, n: nat)
    requires s != [] && init == s[..|s| - 1] && IsBlank(s[|s| - 1])
    requires n <= |init| && AllBlank(init[|init| - n..]) && (n < |init| ==> !IsBlank(init[|init| - n - 1]))
    ensures AllBlank(s[|s| - (n + 1)..]) && (n + 1 < |s| ==> !IsBlank(s[|s| - n - 2]))
  {
    var tail := s[|s| - (n + 1)..];
    var blanks := init[|init| - n..];
    forall i | 0 <= i < |tail| ensures IsBlank(tail[i]) {
      if i < n {
        assert tail[i] == blanks[i];
      }
    }
    if n + 1 < |s| {
      assert s[|s| - n - 2] == init[|init| - n - 1];
    }
  }

  /** `trim`: `s` without its leading and trailing spaces and tabs. */
  function Trim(s: string): (t: string)
    ensures |t| <= |s|
  {
    var b := LeadingBlanks(s);
    if b == |s| then [] else s[b..|s| - TrailingBlanks(s)]
  }

  /** `Trim` gives the empty text exactly when `s` is all blank. */
  lemma TrimEmpty(s: string)
    ensures Trim(s) == [] <==> AllBlank(s)
  {
    var b := LeadingBlanks(s);
    if b < |s| {
      assert !IsBlank(s[b]);
    }
  }

  /** A non-empty result of `Trim` neither starts nor ends with a blank. */
  lemma TrimEnds(s: string)
    ensures Trim(s) != [] ==> !IsBlank(Trim(s)[0]) && !IsBlank(Trim(s)[|Trim(s)| - 1])
  {
    var b := LeadingBlanks(s);
    if b < |s| {
      var e := |s| - TrailingBlanks(s);
      assert Trim(s)[0] == s[b];
      assert Trim(s)[e - b - 1] == s[e - 1];
    }
  }

  /** The result of `Trim` is the slice of `s` between a blank prefix and a blank suffix. */
  lemma TrimSlice(s: string)
    ensures exists i :: 0 <= i <= |s| - |Trim(s)| && s[i..i + |Trim(s)|] == Trim(s) && AllBlank(s[..i]) && AllBlank(s[i + |Trim(s)|..])
  {
    var b := LeadingBlanks(s);
    if b == |s| {
      assert s[b..b] == [] && s[b..] == [];
    } else {
      var e := |s| - TrailingBlanks(s);
      assert s[b..b + |Trim(s)|] == Trim(s);
      assert s[b + |Trim(s)|..] == s[|s| - TrailingBlanks(s)..];
    }
  }

  lemma {:induction false} LeadingBlanksOfPadded(pre: string, t: string)
    requires AllBlank(pre) && t != [] && !IsBlank(t[0])
    ensures LeadingBlanks(pre + t) == |pre|
    decreases |pre|
  {
    if pre == [] {
      assert pre + t == t;
    } else {
      assert (pre + t)[0] == pre[0] && IsBlank(pre[0]);
      assert (pre + t)[1..] == pre[1..] + t;
      assert AllBlank(pre[1..]) by {
        forall i | 0 <= i < |pre[1..]| ensures IsBlank(pre[1..][i]) {
          assert pre[1..][i] == pre[i + 1];
        }
      }
      LeadingBlanksOfPadded(pre[1..], t);
    }
  }

  lemma {:induction false} TrailingBlanksOfPadded(t: string, post: string)
    requires AllBlank(post) && t != [] && !IsBlank(t[|t| - 1])
    ensures TrailingBlanks(t + post) == |post|
    decreases |post|
  {
    if post == [] {
      assert t + post == t;
    } else {
      assert (t + post)[|t + post| - 1] == post[|post| - 1] && IsBlank(post[|post| - 1]);
      assert (t + post)[..|t + post| - 1] == t + post[..|post| - 1];
      ghost var init := post[..|post| - 1];
      assert AllBlank(init) by {
        forall i | 0 <= i < |init| ensures IsBlank(init[i]) {
          assert init[i] == post[i];
        }
      }
      TrailingBlanksOfPadded(t, post[..|post| - 1]);
    }
  }

  /** Padding a text that does not start or end with a blank with blanks on both sides is undone by `Trim`. */
  lemma TrimPadded(pre: string, t: string, post: string)
    requires AllBlank(pre) && AllBlank(post)
    requires t == [] || (!IsBlank(t[0]) && !IsBlank(t[|t| - 1]))
    ensures Trim(pre + t + post) == t
  {
    var s := pre + t + post;
    if t == [] {
      assert AllBlank(s) by {
        forall k | 0 <= k < |s| ensures IsBlank(s[k]) {
          if k < |pre| { assert s[k] == pre[k]; } else { assert s[k] == post[k - |pre|]; }
        }
      }
    } else {
      assert s == pre + (t + post);
      LeadingBlanksOfPadded(pre, t + post);
      assert s == (pre + t) + post;
      TrailingBlanksOfPadded(pre + t, post);
      assert s[|pre|..|s| - |post|] == t;
    }
  }

  /** `trim` is idempotent. */
  lemma TrimIdempotent(s: string)
    ensures Trim(Trim(s)) == Trim(s)
  {
    var t := Trim(s);
    TrimEnds(s);
    TrimPadded([], t, []);
    assert [] + t + [] == t;
  }

  /** `std::toupper` in the C locale: only 'a'..'z' change. */
  function UpperChar(c: char): (u: char)
    ensures 'a' <= c <= 'z' ==> u as int == c as int - 32
    ensures !('a' <= c <= 'z') ==> u == c
  {
    if 'a' <= c <= 'z' then (c as int - 32) as char else c
  }

  /** `toUpper`: the same length, every character upper-cased on its own. */
  function ToUpper(s: string): (u: string)
    ensures |u| == |s| && forall i :: 0 <= i < |s| ==> u[i] == UpperChar(s[i])
  {
    if s == [] then [] else ToUpper(s[..|s| - 1]) + [UpperChar(s[|s| - 1])]
  }

  /** A text without lower-case letters is its own upper-case form. */
  lemma UpperUnchanged(s: string)
    requires forall i :: 0 <= i < |s| ==> !('a' <= s[i] <= 'z')
    ensures ToUpper(s) == s
  {
  }

  /** `string_view::find` of one character: the first position holding it, or none. */
  function Find(s: string, c: char): (r: Option<nat>)
    ensures r.None? <==> c !in s
    ensures r.Some? ==> r.value < |s| && s[r.value] == c && c !in s[..r.value]
  {
    if s == [] then None
    else if s[0] == c then Some(0)
    else
      var r := Find(s[1..], c);
      if r.None? then None
      else
        assert s[..r.value + 1] == [s[0]] + s[1..][..r.value];
        Some(r.value + 1)
  }

  // ---------------------------------------------------------------------------------------
  // Name tables
  // ---------------------------------------------------------------------------------------

  /** SDL2's keycodes of the letters: their lower-case ASCII codes. */
  const LETTER_KEYS: map<string, Keycode> := map[
    "A" := 97, "B" := 98, "C" := 99, "D" := 100, "E" := 101, "F" := 102, "G" := 103,
    "H" := 104, "I" := 105, "J" := 106, "K" := 107, "L" := 108, "M" := 109, "N" := 110,
    "O" := 111, "P" := 112, "Q" := 113, "R" := 114, "S" := 115, "T" := 116, "U" := 117,
    "V" := 118, "W" := 119, "X" := 120, "Y" := 121, "Z" := 122]

  /** Space is its ASCII code; the arrows are their scancodes | 1 << 30. */
  const MOTION_KEYS: map<string, Keycode> := map[
    "SPACE" := 32,
    "UP" := 0x4000_0052, "DOWN" := 0x4000_0051, "LEFT" := 0x4000_0050, "RIGHT" := 0x4000_004F]

  /** The function keys' scancodes | 1 << 30. */
  const FUNCTION_KEYS: map<string, Keycode> := map[
    "F1" := 0x4000_003A, "F2" := 0x4000_003B, "F3" := 0x4000_003C, "F4" := 0x4000_003D,
    "F5" := 0x4000_003E, "F6" := 0x4000_003F, "F7" := 0x4000_0040, "F8" := 0x4000_0041,
    "F9" := 0x4000_0042, "F10" := 0x4000_0043, "F11" := 0x4000_0044, "F12" := 0x4000_0045]

  /** The keyboard table: the three groups above, whose names are disjoint. */
  const KEY_MAP: map<string, Keycode> := LETTER_KEYS + MOTION_KEYS + FUNCTION_KEYS

  /** SDL2's `SDL_GameControllerButton` values. */
  const BUTTON_MAP: map<string, Button> := FACE_BUTTONS + STICK_BUTTONS

  const FACE_BUTTONS: map<string, Button> := map[
    "A" := 0, "B" := 1, "X" := 2, "Y" := 3, "BACK" := 4, "GUIDE" := 5, "START" := 6]

  const STICK_BUTTONS: map<string, Button> := map[
    "LEFTSTICK" := 7, "RIGHTSTICK" := 8, "LEFTSHOULDER" := 9, "RIGHTSHOULDER" := 10,
    "DPAD_UP" := 11, "DPAD_DOWN" := 12, "DPAD_LEFT" := 13, "DPAD_RIGHT" := 14]

  /** SDL2's `SDL_GameControllerAxis` values. */
  const AXIS_MAP: map<string, Axis> := map[
    "LEFTX" := 0, "LEFTY" := 1, "RIGHTX" := 2, "RIGHTY" := 3, "TRIGGERLEFT" := 4, "TRIGGERRIGHT" := 5]

  predicate Injective<K, V(==)>(m: map<K, V>)
  {
    forall a, b :: a in m && b in m && m[a] == m[b] ==> a == b
  }

  /** `r` maps every value of `m`, and nothing else, back to a key of `m` that carries it. */
  predicate Reverses<K, V>(m: map<K, V>, r: map<V, K>)
  {
    r.Keys == m.Values && forall v :: v in r ==> r[v] in m && m[r[v]] == v
  }

  /** For an injective table the reverse map is a two-sided inverse. */
  lemma ReversesInjective<K, V>(m: map<K, V>, r: map<V, K>)
    requires Injective(m) && Reverses(m, r)
    ensures forall k :: k in m ==> m[k] in r && r[m[k]] == k
  {
    forall k | k in m ensures m[k] in r && r[m[k]] == k {
      assert m[k] in m.Values;
    }
  }

  /**
   * The reverse-map loop of `initializeMaps`: every (name, code) pair of the table, in the
   * table's unspecified iteration order, writes `r[code] := name`.
   */
  method Reverse<K, V(==)>(m: map<K, V>) returns (r: map<V, K>)
    ensures Reverses(m, r)
  {
    r := map[];
    var rest := m.Keys;
    while rest != {}
      invariant rest <= m.Keys
      invariant r.Keys == set k | k in m.Keys - rest :: m[k]
      invariant forall v :: v in r ==> r[v] in m.Keys - rest && m[r[v]] == v
      decreases rest
    {
      var k :| k in rest;
      r := r[m[k] := k];
      rest := rest - {k};
    }
    assert m.Keys - rest == m.Keys;
    forall v | v in m.Values ensures v in r.Keys {
      var k :| k in m && m[k] == v;
    }
  }

  /** A name the serialiser can write and the parser read back: upper-case letters, digits and '_'. */
  predicate PlainName(n: string)
  {
    |n| > 0 && forall i :: 0 <= i < |n| ==> 'A' <= n[i] <= 'Z' || '0' <= n[i] <= '9' || n[i] == '_'
  }

  lemma LetterNamesPlain()
    ensures forall n :: n in LETTER_KEYS ==> PlainName(n)
  {
  }

  lemma MotionNamesPlain()
    ensures forall n :: n in MOTION_KEYS ==> PlainName(n)
  {
  }

  lemma FunctionNamesPlain()
    ensures forall n :: n in FUNCTION_KEYS ==> PlainName(n)
  {
  }

  lemma KeyNamesPlain()
    ensures forall n :: n in KEY_MAP ==> PlainName(n)
  {
    LetterNamesPlain();
    MotionNamesPlain();
    FunctionNamesPlain();
  }

  lemma FaceNamesPlain()
    ensures forall n :: n in FACE_BUTTONS ==> PlainName(n)
  {
  }

  lemma StickNamesPlain()
    ensures forall n :: n in STICK_BUTTONS ==> PlainName(n)
  {
  }

  lemma ButtonNamesPlain()
    ensures forall n :: n in BUTTON_MAP ==> PlainName(n)
  {
    FaceNamesPlain();
    StickNamesPlain();
  }

  lemma AxisNamesPlain()
    ensures forall n :: n in AXIS_MAP ==> PlainName(n)
  {
  }

  lemma TableNamesPlain(kind: InputKind)
    ensures forall n :: n in NAMES.Table(kind) ==> PlainName(n)
  {
    match kind
    case KeyInput => KeyNamesPlain();
    case ButtonInput => ButtonNamesPlain();
    case AxisInput => AxisNamesPlain();
  }

  /** The three kinds of binding a line can name, by their `TYPE` word. */
  datatype InputKind = KeyInput | ButtonInput | AxisInput

  function KindName(kind: InputKind): string
  {
    match kind
    case KeyInput => "KEY"
    case ButtonInput => "BUTTON"
    case AxisInput => "AXIS"
  }

  /** The three `SDL_NAME` tables a line is resolved against. */
  datatype Names = Names(keys: map<string, Keycode>, buttons: map<string, Button>, axes: map<string, Axis>)
  {
    function Table(kind: InputKind): map<string, int>
    {
      match kind
      case KeyInput => keys
      case ButtonInput => buttons
      case AxisInput => axes
    }
  }

  const NAMES: Names := Names(KEY_MAP, BUTTON_MAP, AXIS_MAP)

  /** The upper-cased `TYPE` word of a line names at most one kind. */
  function KindOf(typeStr: string): (k: Option<InputKind>)
    ensures k.Some? ==> KindName(k.value) == typeStr
    ensures k.None? ==> forall kind :: KindName(kind) != typeStr
  {
    if typeStr == "KEY" then Some(KeyInput)
    else if typeStr == "BUTTON" then Some(ButtonInput)
    else if typeStr == "AXIS" then Some(AxisInput)
    else None
  }

  /** The bindings of one kind in a manager's state. */
  function BindingsOf(s: Snapshot, kind: InputKind): map<int, string>
  {
    match kind
    case KeyInput => s.keys
    case ButtonInput => s.buttons
    case AxisInput => s.axes
  }

  /**
   * `mapKeyToAction`, `mapButtonToAction` and `mapAxisToAction` on a state value: the input is
   * (re)bound to the action and the action's state is reset. No other binding kind changes.
   */
  function Bind(s: Snapshot, kind: InputKind, code: int, action: string): (r: Snapshot)
    ensures BindingsOf(r, kind) == BindingsOf(s, kind)[code := action]
    ensures forall other :: other != kind ==> BindingsOf(r, other) == BindingsOf(s, other)
  {
    match kind
    case KeyInput => s.(keys := s.keys[code := action], states := s.states[action := ActionState(false, false)])
    case ButtonInput => s.(buttons := s.buttons[code := action], states := s.states[action := ActionState(false, false)])
    case AxisInput => s.(axes := s.axes[code := action], axisValues := s.axisValues[action := 0.0])
  }

  // ---------------------------------------------------------------------------------------
  // The name tables as globals, filled once
  // ---------------------------------------------------------------------------------------

  /** The six name tables, which start empty and are filled by the first `InitializeMaps`. */
  class NameTables {
    var keyMap: map<string, Keycode>
    var buttonMap: map<string, Button>
    var axisMap: map<string, Axis>
    var keyNameMap: map<Keycode, string>
    var buttonNameMap: map<Button, string>
    var axisNameMap: map<Axis, string>

    constructor ()
      ensures Pristine()
    {
      keyMap, buttonMap, axisMap := map[], map[], map[];
      keyNameMap, buttonNameMap, axisNameMap := map[], map[], map[];
    }

    ghost predicate Pristine()
      reads this
    {
      keyMap == map[] && buttonMap == map[] && axisMap == map[] &&
      keyNameMap == map[] && buttonNameMap == map[] && axisNameMap == map[]
    }

    /** The name-to-input tables as one value. */
    function Forward(): Names
      reads this
    {
      Names(keyMap, buttonMap, axisMap)
    }

    ghost predicate Ready()
      reads this
    {
      Forward() == NAMES &&
      Reverses(KEY_MAP, keyNameMap) && Reverses(BUTTON_MAP, buttonNameMap) && Reverses(AXIS_MAP, axisNameMap)
    }

    /** Fills the tables on the first call; every later call returns at once and changes nothing. */
    method InitializeMaps()
      requires Pristine() || Ready()
      modifies this
      ensures Ready()
      ensures old(keyMap) != map[] ==> unchanged(this)
    {
      if keyMap != map[] {
        return;
      }
      Fill();
    }

    /** The first call's work: each table and its reverse. */
    method Fill()
      modifies this
      ensures Ready()
    {
      FillKeys();
      FillButtons();
      FillAxes();
    }

    method FillKeys()
      modifies this
      ensures keyMap == KEY_MAP && Reverses(KEY_MAP, keyNameMap)
      ensures buttonMap == old(buttonMap) && buttonNameMap == old(buttonNameMap)
      ensures axisMap == old(axisMap) && axisNameMap == old(axisNameMap)
    {
      keyMap := KEY_MAP;
      keyNameMap := Reverse(keyMap);
    }

    method FillButtons()
      modifies this
      ensures buttonMap == BUTTON_MAP && Reverses(BUTTON_MAP, buttonNameMap)
      ensures keyMap == old(keyMap) && keyNameMap == old(keyNameMap)
      ensures axisMap == old(axisMap) && axisNameMap == old(axisNameMap)
    {
      buttonMap := BUTTON_MAP;
      buttonNameMap := Reverse(buttonMap);
    }

    method FillAxes()
      modifies this
      ensures axisMap == AXIS_MAP && Reverses(AXIS_MAP, axisNameMap)
      ensures keyMap == old(keyMap) && keyNameMap == old(keyNameMap)
      ensures buttonMap == old(buttonMap) && buttonNameMap == old(buttonNameMap)
    {
      axisMap := AXIS_MAP;
      axisNameMap := Reverse(axisMap);
    }
  }

  // ---------------------------------------------------------------------------------------
  // Loading
  // ---------------------------------------------------------------------------------------

  /** What one line of a configuration file is. */
  datatype Line =
    | Skipped                                                 // blank, '#' comment or '[' section
    | MissingEquals
    | InvalidKey(keyStr: string)                              // no '.' before the '='
    | Entry(typeStr: string, nameStr: string, action: string) // upper-cased TYPE and NAME

  /** The text before and after the separator at position `i`. */
  function Before(s: string, i: nat): string
    requires i < |s|
  {
    s[..i]
  }

  function After(s: string, i: nat): string
    requires i < |s|
  {
    s[i + 1..]
  }

  predicate SkippedText(t: string) { t == [] || t[0] == '#' || t[0] == '[' }

  /**
   * The per-line syntax of `loadFromFile`. The trimmed line is split at its first '=', the key
   * part is trimmed and split at its first '.', and both halves are upper-cased; the action is
   * the trimmed text after the '=', with its case kept.
   */
  function ParseLine(line: string): (r: Line)
  {
    var sv := Trim(line);
    if SkippedText(sv) then Skipped
    else
      var equalsPos := Find(sv, '=');
      if equalsPos.None? then MissingEquals
      else
        var keyStr := Trim(Before(sv, equalsPos.value));
        var actionName := Trim(After(sv, equalsPos.value));
        var dotPos := Find(keyStr, '.');
        if dotPos.None? then InvalidKey(keyStr)
        else Entry(ToUpper(Before(keyStr, dotPos.value)), ToUpper(After(keyStr, dotPos.value)), actionName)
  }

  /**
   * Which kind of line `ParseLine` sees: a skipped line exactly when the trimmed line is empty
   * or starts with '#' or '[', a missing '=' exactly when the trimmed line has none, a key
   * part without '.', or an entry whose action is already trimmed.
   */
  lemma ParseLineCases(line: string)
    ensures ParseLine(line).Skipped? <==> SkippedText(Trim(line))
    ensures ParseLine(line).MissingEquals? <==> !SkippedText(Trim(line)) && '=' !in Trim(line)
    ensures ParseLine(line).InvalidKey? ==> '.' !in ParseLine(line).keyStr
    ensures ParseLine(line).Entry? ==> '=' in Trim(line) && Trim(ParseLine(line).action) == ParseLine(line).action
  {
    var sv := Trim(line);
    if !SkippedText(sv) {
      var equalsPos := Find(sv, '=');
      if equalsPos.Some? {
        TrimIdempotent(After(sv, equalsPos.value));
      }
    }
  }

  /**
   * The effect of one line on the manager: an entry whose TYPE is KEY, BUTTON or AXIS and whose
   * NAME is in that table binds the input; every other line (skipped, malformed, unknown type or
   * name) changes nothing.
   */
  function ApplyLine(names: Names, s: Snapshot, line: string): Snapshot
  {
    match ParseLine(line)
    case Entry(typeStr, nameStr, action) => ApplyEntry(names, s, typeStr, nameStr, action)
    case _ => s
  }

  /** The effect of a well-formed `TYPE.NAME = ACTION` line, with TYPE and NAME upper-cased. */
  function ApplyEntry(names: Names, s: Snapshot, typeStr: string, nameStr: string, action: string): Snapshot
  {
    match KindOf(typeStr)
    case Some(kind) => if nameStr in names.Table(kind) then Bind(s, kind, names.Table(kind)[nameStr], action) else s
    case None => s
  }

  /** The effect of a whole file, line by line in file order. */
  function LoadLines(names: Names, s: Snapshot, lines: seq<string>): Snapshot
    decreases |lines|
  {
    if lines == [] then s else ApplyLine(names, LoadLines(names, s, lines[..|lines| - 1]), lines[|lines| - 1])
  }

  lemma {:induction false} LoadLinesAppend(names: Names, s: Snapshot, a: seq<string>, b: seq<string>)
    ensures LoadLines(names, s, a + b) == LoadLines(names, LoadLines(names, s, a), b)
    decreases |b|
  {
    if b == [] {
      assert a + b == a;
    } else {
      assert (a + b)[..|a + b| - 1] == a + b[..|b| - 1];
      assert (a + b)[|a + b| - 1] == b[|b| - 1];
      LoadLinesAppend(names, s, a, b[..|b| - 1]);
    }
  }

  /**
   * Lines that do not bind anything leave every binding alone, and a later line for the same
   * input overrides an earlier one: after a binding line, that input is bound to its action.
   */
  lemma LastLineWins(names: Names, s: Snapshot, lines: seq<string>, line: string)
    ensures var e := ParseLine(line); var r := LoadLines(names, s, lines + [line]);
      (e.Entry? && KindOf(e.typeStr).Some? && e.nameStr in names.Table(KindOf(e.typeStr).value)) ==>
        BindingsOf(r, KindOf(e.typeStr).value)[names.Table(KindOf(e.typeStr).value)[e.nameStr]] == e.action
    ensures !ParseLine(line).Entry? ==> LoadLines(names, s, lines + [line]) == LoadLines(names, s, lines)
  {
    assert (lines + [line])[..|lines|] == lines;
  }

  /** The body of the line loop of `loadFromFile`, whose `continue`s end the method early here. */
  method LoadLine(tables: NameTables, inputManager: InputManager, line: string)
    modifies inputManager
    ensures inputManager.State() == ApplyLine(tables.Forward(), old(inputManager.State()), line)
  {
    var sv := Trim(line);
    if sv == [] || sv[0] == '#' || sv[0] == '[' {
      assert ParseLine(line) == Skipped;
      return;
    }
    var equalsPos := Find(sv, '=');
    if equalsPos.None? {
      assert ParseLine(line) == MissingEquals;
      return;
    }
    var keyStr := Trim(Before(sv, equalsPos.value));
    var actionName := Trim(After(sv, equalsPos.value));
    var dotPos := Find(keyStr, '.');
    if dotPos.None? {
      assert ParseLine(line) == InvalidKey(keyStr);
      return;
    }
    var typeStr := ToUpper(Before(keyStr, dotPos.value));
    var nameStr := ToUpper(After(keyStr, dotPos.value));
    assert ParseLine(line) == Entry(typeStr, nameStr, actionName);
    BindEntry(tables, inputManager, typeStr, nameStr, actionName);
  }

  /** The type dispatch at the end of the line loop of `loadFromFile`. */
  method BindEntry(tables: NameTables, inputManager: InputManager, typeStr: string, nameStr: string, actionName: string)
    modifies inputManager
    ensures inputManager.State() == ApplyEntry(tables.Forward(), old(inputManager.State()), typeStr, nameStr, actionName)
  {
    ghost var before := inputManager.State();
    if typeStr == "KEY" {
      assert KindOf(typeStr) == Some(KeyInput);
      if nameStr in tables.keyMap {
        inputManager.MapKeyToAction(tables.keyMap[nameStr], actionName);
        assert inputManager.State() == Bind(before, KeyInput, tables.keyMap[nameStr], actionName);
      }
    } else if typeStr == "BUTTON" {
      assert KindOf(typeStr) == Some(ButtonInput);
      if nameStr in tables.buttonMap {
        inputManager.MapButtonToAction(tables.buttonMap[nameStr], actionName);
        assert inputManager.State() == Bind(before, ButtonInput, tables.buttonMap[nameStr], actionName);
      }
    } else if typeStr == "AXIS" {
      assert KindOf(typeStr) == Some(AxisInput);
      if nameStr in tables.axisMap {
        inputManager.MapAxisToAction(tables.axisMap[nameStr], actionName);
        assert inputManager.State() == Bind(before, AxisInput, tables.axisMap[nameStr], actionName);
      }
    } else {
      assert KindOf(typeStr) == None;
    }
  }

  /**
   * `loadFromFile`: fills the name tables, and, when the file opened, applies its lines in order
   * to the manager and reports success whatever errors individual lines had.
   */
  method LoadFromFile(tables: NameTables, inputManager: InputManager, file: Option<seq<string>>) returns (ok: bool)
    requires tables.Pristine() || tables.Ready()
    modifies tables, inputManager
    ensures tables.Ready() && ok == file.Some?
    ensures inputManager.State() == if file.Some? then LoadLines(NAMES, old(inputManager.State()), file.value) else old(inputManager.State())
  {
    tables.InitializeMaps();
    if file.None? {
      return false;
    }
    LoadAllLines(tables, inputManager, file.value);
    return true;
  }

  /** The line loop of `loadFromFile`: every line, in file order, through the same name tables. */
  method LoadAllLines(tables: NameTables, inputManager: InputManager, lines: seq<string>)
    modifies inputManager
    ensures inputManager.State() == LoadLines(tables.Forward(), old(inputManager.State()), lines)
  {
    var lineNumber := 0;
    while lineNumber < |lines|
      invariant 0 <= lineNumber <= |lines|
      invariant inputManager.State() == LoadLines(tables.Forward(), old(inputManager.State()), lines[..lineNumber])
    {
      assert lines[..lineNumber + 1][..lineNumber] == lines[..lineNumber];
      LoadLine(tables, inputManager, lines[lineNumber]);
      lineNumber := lineNumber + 1;
    }
    assert lines[..lineNumber] == lines;
  }

  // ---------------------------------------------------------------------------------------
  // Saving, and the round trip
  // ---------------------------------------------------------------------------------------

  /** The fixed comment block and section line `saveToFile` writes before the bindings. */
  const HEADER: seq<string> := [
    "#" + " Custom input bindings, saved by the engine.",
    "#" + " Format: <TYPE>.<SDL_NAME> = <ACTION_NAME>",
    "#" + " TYPE can be KEY, BUTTON, or AXIS.",
    "#" + " SDL_NAME is the name of the key/button from SDL's documentation (case-insensitive).",
    "",
    "[" + "Bindings]"]

  /** The line written for one binding. */
  function BindingLine(kind: InputKind, name: string, action: string): string
  {
    KindName(kind) + "." + name + " = " + action
  }

  /** `order` lists every element of `keys` exactly once: an iteration order of an unordered map. */
  ghost predicate Enumerates(order: seq<int>, keys: set<int>)
  {
    (forall i, j :: 0 <= i < j < |order| ==> order[i] != order[j]) && (forall c :: c in order <==> c in keys)
  }

  /** One kind's lines: in iteration order, a line for every bound input that has a name. */
  function SectionLines(kind: InputKind, reverse: map<int, string>, bindings: map<int, string>, order: seq<int>): (lines: seq<string>)
    requires forall c :: c in order ==> c in bindings
    ensures |lines| <= |order|
    ensures forall l :: l in lines ==> exists c :: c in order && c in reverse && l == BindingLine(kind, reverse[c], bindings[c])
    decreases |order|
  {
    if order == [] then []
    else
      var c := order[|order| - 1];
      SectionLines(kind, reverse, bindings, order[..|order| - 1]) +
        (if c in reverse then [BindingLine(kind, reverse[c], bindings[c])] else [])
  }

  /** The whole file `saveToFile` writes for the state `s`. */
  function SavedLines(s: Snapshot, keyNames: map<Keycode, string>, buttonNames: map<Button, string>, axisNames: map<Axis, string>,
                      keyOrder: seq<Keycode>, buttonOrder: seq<Button>, axisOrder: seq<Axis>): seq<string>
    requires forall c :: c in keyOrder ==> c in s.keys
    requires forall c :: c in buttonOrder ==> c in s.buttons
    requires forall c :: c in axisOrder ==> c in s.axes
  {
    HEADER + SectionLines(KeyInput, keyNames, s.keys, keyOrder) +
      SectionLines(ButtonInput, buttonNames, s.buttons, buttonOrder) +
      SectionLines(AxisInput, axisNames, s.axes, axisOrder)
  }

  /** One of the three loops of `saveToFile`. */
  method WriteSection(kind: InputKind, reverse: map<int, string>, bindings: map<int, string>, order: seq<int>) returns (lines: seq<string>)
    requires forall c :: c in order ==> c in bindings
    ensures lines == SectionLines(kind, reverse, bindings, order)
  {
    lines := [];
    var i := 0;
    while i < |order|
      invariant 0 <= i <= |order|
      invariant lines == SectionLines(kind, reverse, bindings, order[..i])
    {
      assert order[..i + 1][..i] == order[..i];
      var code := order[i];
      if code in reverse {
        lines := lines + [BindingLine(kind, reverse[code], bindings[code])];
      } else {
        assert lines + [] == lines;
      }
      i := i + 1;
    }
    assert order[..i] == order;
  }

  /**
   * `saveToFile`: fills the name tables, and, when the file opened, writes the header and then
   * the key, button and axis bindings, each map in its own iteration order. Bindings of inputs
   * without a name in the reverse tables are not written.
   */
  method SaveToFile(tables: NameTables, inputManager: InputManager, fileOpened: bool,
                    keyOrder: seq<Keycode>, buttonOrder: seq<Button>, axisOrder: seq<Axis>) returns (ok: bool, lines: seq<string>)
    requires tables.Pristine() || tables.Ready()
    requires Enumerates(keyOrder, inputManager.keyActionMap.Keys)
    requires Enumerates(buttonOrder, inputManager.buttonActionMap.Keys)
    requires Enumerates(axisOrder, inputManager.axisActionMap.Keys)
    modifies tables
    ensures tables.Ready() && ok == fileOpened
    ensures lines == if fileOpened then SavedLines(inputManager.State(), tables.keyNameMap, tables.buttonNameMap, tables.axisNameMap,
      keyOrder, buttonOrder, axisOrder) else []
  {
    tables.InitializeMaps();
    if !fileOpened {
      return false, [];
    }
    var keys := WriteSection(KeyInput, tables.keyNameMap, inputManager.keyActionMap, keyOrder);
    var buttons := WriteSection(ButtonInput, tables.buttonNameMap, inputManager.buttonActionMap, buttonOrder);
    var axes := WriteSection(AxisInput, tables.axisNameMap, inputManager.axisActionMap, axisOrder);
    lines := HEADER + keys + buttons + axes;
    return true, lines;
  }

  /** A text that does not start or end with a space or tab. */
  predicate Unpadded(t: string) { t == [] || (!IsBlank(t[0]) && !IsBlank(t[|t| - 1])) }

  /** A non-empty word without blanks, '=', '.', '#' or '['. */
  predicate Word(w: string)
  {
    |w| > 0 && forall i :: 0 <= i < |w| ==> !IsBlank(w[i]) && w[i] != '=' && w[i] != '.' && w[i] != '#' && w[i] != '['
  }

  lemma {:induction false} FindAt(a: string, c: char, b: string)
    requires c !in a
    ensures Find(a + [c] + b, c) == Some(|a|)
    ensures Before(a + [c] + b, |a|) == a && After(a + [c] + b, |a|) == b
  {
    var s := a + [c] + b;
    assert s[|a|] == c;
    assert s[..|a|] == a;
  }

  /** The text after the '=' of a binding line. */
  function AfterEquals(action: string): string
  {
    if action == [] then [] else " " + action
  }

  lemma KeyPartHasNoEquals(typeWord: string, nameWord: string)
    requires Word(typeWord) && Word(nameWord)
    ensures '=' !in typeWord + "." + nameWord + " "
  {
    var k := typeWord + "." + nameWord + " ";
    forall i | 0 <= i < |k| ensures k[i] != '=' {
      if i < |typeWord| {
        assert k[i] == typeWord[i];
      } else if |typeWord| < i < |typeWord| + 1 + |nameWord| {
        assert k[i] == nameWord[i - |typeWord| - 1];
      }
    }
  }

  lemma TypeHasNoDot(typeWord: string)
    requires Word(typeWord)
    ensures '.' !in typeWord
  {
    forall i | 0 <= i < |typeWord| ensures typeWord[i] != '.' { }
  }

  /** Trimming a binding line removes only the blank a line with an empty action ends in. */
  lemma TrimBindingLine(core: string, action: string)
    requires core != [] && !IsBlank(core[0]) && Unpadded(action)
    ensures Trim(core + " = " + action) == core + " " + ['='] + AfterEquals(action)
  {
    if action == [] {
      TrimBareBinding(core);
      assert core + " = " + action == core + " = ";
    } else {
      TrimFullBinding(core, action);
    }
  }

  /** The line of an empty action ends in the blank after '=', which `trim` drops. */
  lemma TrimBareBinding(core: string)
    requires core != [] && !IsBlank(core[0])
    ensures Trim(core + " = ") == core + " " + ['=']
  {
    var t := core + " " + ['='];
    assert t[0] == core[0];
    assert core + " = " == [] + t + " ";
    TrimPadded([], t, " ");
  }

  lemma TrimFullBinding(core: string, action: string)
    requires core != [] && !IsBlank(core[0]) && action != [] && !IsBlank(action[|action| - 1])
    ensures Trim(core + " = " + action) == core + " " + ['='] + " " + action
  {
    var t := core + " " + ['='] + " " + action;
    assert t[0] == core[0];
    assert t[|t| - 1] == action[|action| - 1];
    assert core + " = " + action == [] + t + [];
    TrimPadded([], t, []);
  }

  lemma TrimAfterEquals(action: string)
    requires Unpadded(action)
    ensures Trim(AfterEquals(action)) == action
  {
    if action != [] {
      assert AfterEquals(action) == " " + action + [];
      TrimPadded(" ", action, []);
    }
  }

  lemma TrimKeyPart(core: string)
    requires core != [] && !IsBlank(core[0]) && !IsBlank(core[|core| - 1])
    ensures Trim(core + " ") == core
  {
    assert core + " " == [] + core + " ";
    TrimPadded([], core, " ");
  }

  /**
   * A line written as `TYPE.NAME = ACTION` parses back to its upper-cased TYPE and NAME and to
   * exactly its action, whatever the case of TYPE and NAME.
   */
  lemma ParseBindingLine(typeWord: string, nameWord: string, action: string)
    requires Word(typeWord) && Word(nameWord) && Unpadded(action)
    ensures ParseLine(typeWord + "." + nameWord + " = " + action) == Entry(ToUpper(typeWord), ToUpper(nameWord), action)
  {
    var core := typeWord + "." + nameWord;
    var rest := AfterEquals(action);
    var t := core + " " + ['='] + rest;
    assert core[0] == typeWord[0] && core[|core| - 1] == nameWord[|nameWord| - 1];
    assert typeWord + "." + nameWord + " = " + action == core + " = " + action;
    TrimBindingLine(core, action);
    assert !SkippedText(t) by { assert t[0] == typeWord[0]; }
    KeyPartHasNoEquals(typeWord, nameWord);
    FindAt(core + " ", '=', rest);
    TrimKeyPart(core);
    TrimAfterEquals(action);
    TypeHasNoDot(typeWord);
    FindAt(typeWord, '.', nameWord);
  }

  /** A `#` comment, a blank line and a `[` section line bind nothing, so the header changes nothing. */
  lemma {:induction false} HeaderSkipped(names: Names, s: Snapshot)
    ensures LoadLines(names, s, HEADER) == s
  {
    forall i | 0 <= i < |HEADER| ensures ParseLine(HEADER[i]).Skipped? {
      if i == 4 {
        assert Trim(HEADER[4]) == [];
      } else {
        CommentSkipped(HEADER[i]);
      }
    }
    SkippedLinesIgnored(names, s, HEADER);
  }

  lemma CommentSkipped(h: string)
    requires h != [] && (h[0] == '#' || h[0] == '[')
    ensures ParseLine(h).Skipped?
  {
    assert LeadingBlanks(h) == 0;
    assert !AllBlank(h) by { assert !IsBlank(h[0]); }
  }

  lemma {:induction false} SkippedLinesIgnored(names: Names, s: Snapshot, lines: seq<string>)
    requires forall i :: 0 <= i < |lines| ==> ParseLine(lines[i]).Skipped?
    ensures LoadLines(names, s, lines) == s
    decreases |lines|
  {
    if lines != [] {
      SkippedLinesIgnored(names, s, lines[..|lines| - 1]);
    }
  }

  /** A binding line with a plain table name and an unpadded action parses back to its parts. */
  lemma BindingLineParses(kind: InputKind, name: string, action: string)
    requires PlainName(name) && Unpadded(action)
    ensures ParseLine(BindingLine(kind, name, action)) == Entry(KindName(kind), name, action)
  {
    KindNameWord(kind);
    UpperUnchanged(name);
    ParseBindingLine(KindName(kind), name, action);
  }

  lemma KindNameWord(kind: InputKind)
    ensures Word(KindName(kind)) && ToUpper(KindName(kind)) == KindName(kind)
  {
    var w := KindName(kind);
    assert PlainName(w);
    UpperUnchanged(w);
  }

  /** Reading back a binding line of a named input binds that input to the action. */
  lemma ApplyBindingLine(names: Names, s: Snapshot, kind: InputKind, name: string, action: string)
    requires PlainName(name) && name in names.Table(kind) && Unpadded(action)
    ensures ApplyLine(names, s, BindingLine(kind, name, action)) == Bind(s, kind, names.Table(kind)[name], action)
  {
    BindingLineParses(kind, name, action);
    EntryApplied(names, s, BindingLine(kind, name, action), KindName(kind), name, action);
  }

  lemma EntryApplied(names: Names, s: Snapshot, line: string, typeStr: string, nameStr: string, action: string)
    requires ParseLine(line) == Entry(typeStr, nameStr, action)
    ensures ApplyLine(names, s, line) == ApplyEntry(names, s, typeStr, nameStr, action)
  {
  }

  /** The bindings a section writes: those of the listed inputs that have a name. */
  function Written(reverse: map<int, string>, bindings: map<int, string>, order: seq<int>): map<int, string>
    requires forall c :: c in order ==> c in bindings
    decreases |order|
  {
    if order == [] then map[]
    else
      var c := order[|order| - 1];
      var w := Written(reverse, bindings, order[..|order| - 1]);
      if c in reverse then w[c := bindings[c]] else w
  }

  lemma {:induction false} WrittenBindings(reverse: map<int, string>, bindings: map<int, string>, order: seq<int>)
    requires forall c :: c in order ==> c in bindings
    ensures forall c :: c in Written(reverse, bindings, order) <==> c in order && c in reverse
    ensures forall c :: c in Written(reverse, bindings, order) ==> Written(reverse, bindings, order)[c] == bindings[c]
    decreases |order|
  {
    if order != [] {
      var prefix := order[..|order| - 1];
      assert forall x :: x in order <==> x in prefix || x == order[|order| - 1];
      WrittenBindings(reverse, bindings, prefix);
    }
  }

  lemma UnionUpdate(a: map<int, string>, b: map<int, string>, k: int, v: string)
    ensures a + b[k := v] == (a + b)[k := v]
  {
  }

  /** The bindings of `m` whose input is in `names`. */
  function Restrict(m: map<int, string>, names: set<int>): (r: map<int, string>)
    ensures r.Keys == m.Keys * names && forall c :: c in r ==> r[c] == m[c]
  {
    map c | c in m && c in names :: m[c]
  }

  /** A reverse table names every input with a plain name that the forward table maps back to it. */
  predicate NamesBack(forward: map<string, int>, reverse: map<int, string>)
  {
    forall c :: c in reverse ==> PlainName(reverse[c]) && reverse[c] in forward && forward[reverse[c]] == c
  }

  /** Reading one saved section back adds exactly the bindings it wrote and touches no other kind. */
  lemma {:induction false} SectionRoundTrip(names: Names, s: Snapshot, kind: InputKind, reverse: map<int, string>,
                                            bindings: map<int, string>, order: seq<int>)
    requires forall c :: c in order ==> c in bindings && Unpadded(bindings[c])
    requires NamesBack(names.Table(kind), reverse)
    ensures BindingsOf(LoadLines(names, s, SectionLines(kind, reverse, bindings, order)), kind) ==
      BindingsOf(s, kind) + Written(reverse, bindings, order)
    ensures forall other :: other != kind ==>
      BindingsOf(LoadLines(names, s, SectionLines(kind, reverse, bindings, order)), other) == BindingsOf(s, other)
    decreases |order|
  {
    if order == [] {
      assert Written(reverse, bindings, order) == map[];
      assert BindingsOf(s, kind) + map[] == BindingsOf(s, kind);
    } else {
      var prefix := order[..|order| - 1];
      var c := order[|order| - 1];
      assert forall x :: x in prefix ==> x in order;
      SectionRoundTrip(names, s, kind, reverse, bindings, prefix);
      var head := SectionLines(kind, reverse, bindings, prefix);
      var mid := LoadLines(names, s, head);
      if c in reverse {
        var line := BindingLine(kind, reverse[c], bindings[c]);
        LoadLinesAppend(names, s, head, [line]);
        assert [line][..0] == [];
        ApplyBindingLine(names, mid, kind, reverse[c], bindings[c]);
        UnionUpdate(BindingsOf(s, kind), Written(reverse, bindings, prefix), c, bindings[c]);
      } else {
        assert head + [] == head;
      }
    }
  }

  /** A section written in an iteration order of the whole map writes every named binding. */
  lemma WrittenAll(reverse: map<int, string>, bindings: map<int, string>, order: seq<int>)
    requires Enumerates(order, bindings.Keys)
    ensures Written(reverse, bindings, order) == Restrict(bindings, reverse.Keys)
  {
    WrittenBindings(reverse, bindings, order);
    var w := Written(reverse, bindings, order);
    var r := Restrict(bindings, reverse.Keys);
    forall c ensures c in w <==> c in r {
      assert c in order <==> c in bindings.Keys;
    }
    assert w.Keys == r.Keys;
    assert forall c :: c in w ==> w[c] == r[c];
  }

  /** The header binds nothing, and the three sections are read one after the other. */
  lemma LoadSections(names: Names, s0: Snapshot, keys: seq<string>, buttons: seq<string>, axes: seq<string>)
    ensures LoadLines(names, s0, HEADER + keys + buttons + axes) ==
      LoadLines(names, LoadLines(names, LoadLines(names, s0, keys), buttons), axes)
  {
    HeaderSkipped(names, s0);
    LoadLinesAppend(names, s0, HEADER, keys);
    LoadLinesAppend(names, s0, HEADER + keys, buttons);
    LoadLinesAppend(names, s0, HEADER + keys + buttons, axes);
    LoadLinesAppend(names, LoadLines(names, s0, keys), buttons, axes);
  }

  /** Every name of every table is plain. */
  predicate Plain(names: Names)
  {
    forall kind, n :: n in names.Table(kind) ==> PlainName(n)
  }

  /**
   * Saving a state and loading the file into a state `s0` binds, on top of `s0`'s bindings,
   * exactly those inputs of the saved state that have a name, each to its saved action, as long
   * as no action starts or ends with a blank.
   */
  lemma SaveLoadRoundTrip(names: Names, s: Snapshot, s0: Snapshot,
                          keyNames: map<Keycode, string>, buttonNames: map<Button, string>, axisNames: map<Axis, string>,
                          keyOrder: seq<Keycode>, buttonOrder: seq<Button>, axisOrder: seq<Axis>)
    requires NamesBack(names.keys, keyNames) && NamesBack(names.buttons, buttonNames) && NamesBack(names.axes, axisNames)
    requires Enumerates(keyOrder, s.keys.Keys) && Enumerates(buttonOrder, s.buttons.Keys) && Enumerates(axisOrder, s.axes.Keys)
    requires forall c :: c in s.keys ==> Unpadded(s.keys[c])
    requires forall c :: c in s.buttons ==> Unpadded(s.buttons[c])
    requires forall c :: c in s.axes ==> Unpadded(s.axes[c])
    ensures var r := LoadLines(names, s0, SavedLines(s, keyNames, buttonNames, axisNames, keyOrder, buttonOrder, axisOrder));
      r.keys == s0.keys + Restrict(s.keys, keyNames.Keys) &&
      r.buttons == s0.buttons + Restrict(s.buttons, buttonNames.Keys) &&
      r.axes == s0.axes + Restrict(s.axes, axisNames.Keys)
  {
    var keys := SectionLines(KeyInput, keyNames, s.keys, keyOrder);
    var buttons := SectionLines(ButtonInput, buttonNames, s.buttons, buttonOrder);
    var axes := SectionLines(AxisInput, axisNames, s.axes, axisOrder);
    LoadSections(names, s0, keys, buttons, axes);
    var s1 := LoadLines(names, s0, keys);
    var s2 := LoadLines(names, s1, buttons);
    SectionRestored(names, s0, KeyInput, keyNames, s.keys, keyOrder);
    SectionRestored(names, s1, ButtonInput, buttonNames, s.buttons, buttonOrder);
    SectionRestored(names, s2, AxisInput, axisNames, s.axes, axisOrder);
  }

  /** A whole section, written in an iteration order of its map, restores its named bindings. */
  lemma SectionRestored(names: Names, s: Snapshot, kind: InputKind, reverse: map<int, string>,
                        bindings: map<int, string>, order: seq<int>)
    requires Enumerates(order, bindings.Keys) && forall c :: c in bindings ==> Unpadded(bindings[c])
    requires NamesBack(names.Table(kind), reverse)
    ensures BindingsOf(LoadLines(names, s, SectionLines(kind, reverse, bindings, order)), kind) ==
      BindingsOf(s, kind) + Restrict(bindings, reverse.Keys)
    ensures forall other :: other != kind ==>
      BindingsOf(LoadLines(names, s, SectionLines(kind, reverse, bindings, order)), other) == BindingsOf(s, other)
  {
    SectionRoundTrip(names, s, kind, reverse, bindings, order);
    WrittenAll(reverse, bindings, order);
  }

  lemma ReversesNamesBack(forward: map<string, int>, reverse: map<int, string>)
    requires Reverses(forward, reverse) && forall n :: n in forward ==> PlainName(n)
    ensures NamesBack(forward, reverse)
  {
  }

  lemma KeyNamesBack(keyNames: map<Keycode, string>)
    requires Reverses(KEY_MAP, keyNames)
    ensures NamesBack(NAMES.keys, keyNames)
  {
    KeyNamesPlain();
    ReversesNamesBack(KEY_MAP, keyNames);
  }

  lemma ButtonNamesBack(buttonNames: map<Button, string>)
    requires Reverses(BUTTON_MAP, buttonNames)
    ensures NamesBack(NAMES.buttons, buttonNames)
  {
    ButtonNamesPlain();
    ReversesNamesBack(BUTTON_MAP, buttonNames);
  }

  lemma AxisNamesBack(axisNames: map<Axis, string>)
    requires Reverses(AXIS_MAP, axisNames)
    ensures NamesBack(NAMES.axes, axisNames)
  {
    AxisNamesPlain();
    ReversesNamesBack(AXIS_MAP, axisNames);
  }

  lemma UnboundUnion(m: map<int, string>)
    ensures map[] + m == m
  {
  }

  /** The state of a freshly constructed manager: nothing bound. */
  const UNBOUND: Snapshot := Snapshot(map[], map[], map[], map[], map[])

  /**
   * With the filled name tables, saving a manager's bindings and loading the file into a fresh
   * manager restores exactly the bindings whose input has an `SDL_NAME`, each to its action.
   */
  lemma SaveThenLoadFresh(s: Snapshot, keyNames: map<Keycode, string>, buttonNames: map<Button, string>, axisNames: map<Axis, string>,
                          keyOrder: seq<Keycode>, buttonOrder: seq<Button>, axisOrder: seq<Axis>)
    requires Reverses(KEY_MAP, keyNames) && Reverses(BUTTON_MAP, buttonNames) && Reverses(AXIS_MAP, axisNames)
    requires Enumerates(keyOrder, s.keys.Keys) && Enumerates(buttonOrder, s.buttons.Keys) && Enumerates(axisOrder, s.axes.Keys)
    requires forall c :: c in s.keys ==> Unpadded(s.keys[c])
    requires forall c :: c in s.buttons ==> Unpadded(s.buttons[c])
    requires forall c :: c in s.axes ==> Unpadded(s.axes[c])
    ensures var r := LoadLines(NAMES, UNBOUND, SavedLines(s, keyNames, buttonNames, axisNames, keyOrder, buttonOrder, axisOrder));
      r.keys == Restrict(s.keys, KEY_MAP.Values) &&
      r.buttons == Restrict(s.buttons, BUTTON_MAP.Values) &&
      r.axes == Restrict(s.axes, AXIS_MAP.Values)
  {
    KeyNamesBack(keyNames);
    ButtonNamesBack(buttonNames);
    AxisNamesBack(axisNames);
    SaveLoadRoundTrip(NAMES, s, UNBOUND, keyNames, buttonNames, axisNames, keyOrder, buttonOrder, axisOrder);
    UnboundUnion(Restrict(s.keys, keyNames.Keys));
    UnboundUnion(Restrict(s.buttons, buttonNames.Keys));
    UnboundUnion(Restrict(s.axes, axisNames.Keys));
  }
}
