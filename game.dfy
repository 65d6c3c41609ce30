/**
 * src/game/mod.rs: the master state machine. `Master` owns the shared
 * `State` and the active screen; it folds raw key and mouse events into
 * the input axes, modifier flags and mouse latches of `State`, and at the
 * top of every update it replaces the screen when one asked to switch.
 */
module Game {
  import opened Wrappers
  import opened Events
  import Util

  /** `InputState`: the two movement axes, as signed counters. */
  datatype InputState = InputState(hor: int, ver: int)

  /** `Modifiers`: whether the left shift, control and alt keys are held. */
  datatype Modifiers = Modifiers(shift: bool, ctrl: bool, alt: bool)

  /** `MouseDown`: whether the left, middle and right buttons are held. */
  datatype MouseDown = MouseDown(left: bool, middle: bool, right: bool)

  /** The screen a switch asks for; the levels and statistics it carries are not modelled. */
  datatype StateSwitch = Menu | Editor | Play | PlayWith | Lose | Win

  /** The kind of the active screen (`gs`). */
  datatype Screen = MenuScreen | PlayScreen | EditorScreen | WinScreen | LoseScreen

  /** `Content`: what the game was started with. */
  datatype Content = CampaignContent | File(path: string) | NoContent

  /** The value of a `Default::default()` axis pair. */
  const Centered: InputState := InputState(0, 0)

  // ---------------------------------------------------------------------
  // Keyboard

  /** The axes after a non-repeat key-down of `key`: each movement key pushes one axis by one step. */
  function KeyDownAxes(inp: InputState, key: Keycode): (r: InputState)
    ensures r.ver - inp.ver == if key == S || key == Down then 1 else if key == W || key == Up then -1 else 0
    ensures r.hor - inp.hor == if key == D || key == Right then 1 else if key == A || key == Left then -1 else 0
  {
    match key
    case W | Up => inp.(ver := inp.ver - 1)
    case S | Down => inp.(ver := inp.ver + 1)
    case A | Left => inp.(hor := inp.hor - 1)
    case D | Right => inp.(hor := inp.hor + 1)
    case _ => inp
  }

  /** The axes after a non-repeat key-up of `key`. */
  function KeyUpAxes(inp: InputState, key: Keycode): (r: InputState)
    ensures r.ver - inp.ver == if key == W || key == Up then 1 else if key == S || key == Down then -1 else 0
    ensures r.hor - inp.hor == if key == A || key == Left then 1 else if key == D || key == Right then -1 else 0
  {
    match key
    case W | Up => inp.(ver := inp.ver + 1)
    case S | Down => inp.(ver := inp.ver - 1)
    case A | Left => inp.(hor := inp.hor + 1)
    case D | Right => inp.(hor := inp.hor - 1)
    case _ => inp
  }

  /** Releasing a key exactly undoes pressing it, and the other way round. */
  lemma KeyUpUndoesKeyDown(inp: InputState, key: Keycode)
    ensures KeyUpAxes(KeyDownAxes(inp, key), key) == inp
    ensures KeyDownAxes(KeyUpAxes(inp, key), key) == inp
  {
  }

  /** The modifier flags after a non-repeat key-down of `key`. */
  function KeyDownModifiers(m: Modifiers, key: Keycode): (r: Modifiers)
    ensures r.shift == (m.shift || key == LShift)
    ensures r.ctrl == (m.ctrl || key == LCtrl)
    ensures r.alt == (m.alt || key == LAlt)
  {
    match key
    case LShift => m.(shift := true)
    case LCtrl => m.(ctrl := true)
    case LAlt => m.(alt := true)
    case _ => m
  }

  /** The modifier flags after a non-repeat key-up of `key`. */
  function KeyUpModifiers(m: Modifiers, key: Keycode): (r: Modifiers)
    ensures r.shift == (m.shift && key != LShift)
    ensures r.ctrl == (m.ctrl && key != LCtrl)
    ensures r.alt == (m.alt && key != LAlt)
  {
    match key
    case LShift => m.(shift := false)
    case LCtrl => m.(ctrl := false)
    case LAlt => m.(alt := false)
    case _ => m
  }

  /** Pressing or releasing the same key again changes nothing more, and a release forgets any earlier press. */
  lemma ModifiersSettle(m: Modifiers, key: Keycode)
    ensures KeyDownModifiers(KeyDownModifiers(m, key), key) == KeyDownModifiers(m, key)
    ensures KeyUpModifiers(KeyUpModifiers(m, key), key) == KeyUpModifiers(m, key)
    ensures KeyUpModifiers(KeyDownModifiers(m, key), key) == KeyUpModifiers(m, key)
  {
  }

  // ---------------------------------------------------------------------
  // Mouse

  /** The button latches after `btn` goes down. */
  function ButtonDown(md: MouseDown, btn: MouseButton): (r: MouseDown)
    ensures r.left == (md.left || btn == LeftButton)
    ensures r.middle == (md.middle || btn == MiddleButton)
    ensures r.right == (md.right || btn == RightButton)
  {
    match btn
    case LeftButton => md.(left := true)
    case MiddleButton => md.(middle := true)
    case RightButton => md.(right := true)
    case OtherButton(_) => md
  }

  /** The button latches after `btn` goes up. */
  function ButtonUp(md: MouseDown, btn: MouseButton): (r: MouseDown)
    ensures r.left == (md.left && btn != LeftButton)
    ensures r.middle == (md.middle && btn != MiddleButton)
    ensures r.right == (md.right && btn != RightButton)
  {
    match btn
    case LeftButton => md.(left := false)
    case MiddleButton => md.(middle := false)
    case RightButton => md.(right := false)
    case OtherButton(_) => md
  }

  // ---------------------------------------------------------------------
  // Sequences of key events

  datatype KeyEvent = Pressed(key: Keycode, repeat: bool) | Released(key: Keycode, repeat: bool)

  /** What one key event does to the axes; repeat events are ignored. */
  function HandleKey(inp: InputState, e: KeyEvent): (r: InputState)
  {
    if e.repeat then inp
    else if e.Pressed? then KeyDownAxes(inp, e.key)
    else KeyUpAxes(inp, e.key)
  }

  /** The axes after a run of key events, in order. */
  function HandleKeys(inp: InputState, events: seq<KeyEvent>): (r: InputState)
    decreases |events|
  {
    if events == [] then inp else HandleKeys(HandleKey(inp, events[0]), events[1..])
  }

  /** The keys held after one event. */
  function Hold(held: set<Keycode>, e: KeyEvent): (r: set<Keycode>)
  {
    if e.repeat then held
    else if e.Pressed? then held + {e.key}
    else held - {e.key}
  }

  /** The keys held after a run of events. */
  function HeldAfter(held: set<Keycode>, events: seq<KeyEvent>): (r: set<Keycode>)
    decreases |events|
  {
    if events == [] then held else HeldAfter(Hold(held, events[0]), events[1..])
  }

  /** Every non-repeat press is of a key not yet held and every non-repeat release of a key that is held. */
  predicate Matched(held: set<Keycode>, events: seq<KeyEvent>)
    decreases |events|
  {
    events == [] ||
    ((events[0].repeat || (events[0].Pressed? <==> events[0].key !in held))
     && Matched(Hold(held, events[0]), events[1..]))
  }

  /** The axes that the held keys account for: each held key counts on its own. */
  function Axes(held: set<Keycode>): (r: InputState)
    ensures -2 <= r.ver <= 2 && -2 <= r.hor <= 2
  {
    InputState(
      Util.Flag(D in held) + Util.Flag(Right in held) - Util.Flag(A in held) - Util.Flag(Left in held),
      Util.Flag(S in held) + Util.Flag(Down in held) - Util.Flag(W in held) - Util.Flag(Up in held))
  }

  /** One matched event moves the axes exactly as it moves the held keys. */
  lemma HandleKeyTracksHold(held: set<Keycode>, e: KeyEvent)
    requires e.repeat || (e.Pressed? <==> e.key !in held)
    ensures HandleKey(Axes(held), e) == Axes(Hold(held, e))
  {
    if !e.repeat {
      if e.Pressed? {
        PressTracksHold(held, e.key);
      } else {
        PressTracksHold(held - {e.key}, e.key);
        assert held - {e.key} + {e.key} == held;
        KeyUpUndoesKeyDown(Axes(held - {e.key}), e.key);
      }
    }
  }

  /** Pressing a key that is not held moves the axes as adding it to the held keys does. */
  lemma PressTracksHold(held: set<Keycode>, key: Keycode)
    requires key !in held
    ensures KeyDownAxes(Axes(held), key) == Axes(held + {key})
  {
    CountsOnce(held, key, W);
    CountsOnce(held, key, Up);
    CountsOnce(held, key, S);
    CountsOnce(held, key, Down);
    CountsOnce(held, key, A);
    CountsOnce(held, key, Left);
    CountsOnce(held, key, D);
    CountsOnce(held, key, Right);
    var now := held + {key};
    assert Axes(now).ver == Axes(held).ver + Util.Flag(key == S) + Util.Flag(key == Down) - Util.Flag(key == W) - Util.Flag(key == Up);
    assert Axes(now).hor == Axes(held).hor + Util.Flag(key == D) + Util.Flag(key == Right) - Util.Flag(key == A) - Util.Flag(key == Left);
  }

  /** Adding a key that is not held raises its own flag and no other. */
  lemma CountsOnce(held: set<Keycode>, key: Keycode, j: Keycode)
    requires key !in held
    ensures Util.Flag(j in held + {key}) == Util.Flag(j in held) + Util.Flag(j == key)
  {
  }

  /**
   * Over matched events, the counters are the held down-keys minus the held
   * up-keys (and right minus left), each key counting on its own.
   */
  lemma {:induction false} AxesTrackHeldKeys(held: set<Keycode>, events: seq<KeyEvent>)
    requires Matched(held, events)
    ensures HandleKeys(Axes(held), events) == Axes(HeldAfter(held, events))
    decreases |events|
  {
    if events != [] {
      HandleKeyTracksHold(held, events[0]);
      AxesTrackHeldKeys(Hold(held, events[0]), events[1..]);
    }
  }

  /**
   * The counters agree with what `util::ver` / `util::hor` read off the
   * keyboard exactly when the two aliases of one direction are not held
   * together more often than those of the other.
   */
  lemma AxesAgainstPolledKeys(held: set<Keycode>)
    ensures Axes(held).ver == Util.Ver(held) <==> ((S in held && Down in held) == (W in held && Up in held))
    ensures Axes(held).hor == Util.Hor(held) <==> ((D in held && Right in held) == (A in held && Left in held))
  {
  }

  /** Press W, press S, release W: S is still held, so the vertical axis ends at +1. */
  lemma PressWPressSReleaseW()
    ensures HandleKeys(Centered, [Pressed(W, false), Pressed(S, false), Released(W, false)]).ver == 1
  {
  }

  /** Holding W and Up together counts twice in the counter, but once for `util::ver`. */
  lemma WAndUpCountTwice()
    ensures HandleKeys(Centered, [Pressed(W, false), Pressed(Up, false)]).ver == -2
    ensures Util.Ver({W, Up}) == -1
  {
  }

  /** A release with no matching press is not filtered: after S down and a stray W up the axis is +2. */
  lemma UnmatchedReleaseDrifts()
    ensures !Matched({}, [Pressed(S, false), Released(W, false)])
    ensures HandleKeys(Centered, [Pressed(S, false), Released(W, false)]).ver == 2
  {
  }

  // ---------------------------------------------------------------------
  // Screens

  /** The screen a switch constructs (`Play` and `PlayWith` both build a play screen). */
  function Target(ss: StateSwitch): (r: Screen)
    ensures r == PlayScreen <==> ss == Play || ss == PlayWith
    ensures r == MenuScreen <==> ss == Menu
    ensures r == EditorScreen <==> ss == Editor
    ensures r == WinScreen <==> ss == Win
    ensures r == LoseScreen <==> ss == Lose
  {
    match ss
    case Menu => MenuScreen
    case Editor => EditorScreen
    case Play => PlayScreen
    case PlayWith => PlayScreen
    case Lose => LoseScreen
    case Win => WinScreen
  }

  /** The content chosen in `Master::new` from the command-line argument: none for an empty one, else that file. */
  function SelectContent(arg: string): (r: Content)
    ensures r == NoContent <==> arg == []
    ensures r != NoContent ==> r == File(arg)
  {
    if arg == [] then NoContent else File(arg)
  }

  /** `State`: what the active screen shares with the master. */
  class State {
    var mouseDown: MouseDown
    var input: InputState
    var modifiers: Modifiers
    var switchState: Option<StateSwitch>
    var content: Content

    /** The state `Master::new` builds: everything released, no switch pending. */
    constructor (content: Content)
      ensures this.content == content && switchState == None
      ensures input == Centered
      ensures modifiers == Modifiers(false, false, false)
      ensures mouseDown == MouseDown(false, false, false)
    {
      this.content := content;
      switchState := None;
      input := Centered;
      modifiers := Modifiers(false, false, false);
      mouseDown := MouseDown(false, false, false);
    }

    /** `switch(ss)`: ask for `ss`, overwriting any switch still pending. */
    method Switch(ss: StateSwitch)
      modifies this`switchState
      ensures switchState == Some(ss)
    {
      switchState := Some(ss);
    }
  }

  /** `Master`: the active screen and the shared state. */
  class Master {
    var gs: Screen
    var state: State
    /** Whether `ctx.quit()` has been called. */
    var quitRequested: bool

    /** `Master::new(arg)`, when loading the assets and the menu succeeds. */
    constructor (arg: string)
      ensures fresh(state) && gs == MenuScreen && !quitRequested
      ensures state.content == SelectContent(arg) && state.switchState == None
      ensures state.input == Centered
      ensures state.modifiers == Modifiers(false, false, false)
      ensures state.mouseDown == MouseDown(false, false, false)
    {
      var content := SelectContent(arg);
      state := new State(content);
      gs := MenuScreen;
      quitRequested := false;
    }

    /** `key_down_event`: repeats are ignored; movement keys move the axes, modifiers are set, Escape quits. */
    method KeyDownEvent(key: Keycode, repeat: bool)
      modifies this`quitRequested, state
      ensures state.mouseDown == old(state.mouseDown) && state.switchState == old(state.switchState)
      ensures state.content == old(state.content)
      ensures repeat ==> state.input == old(state.input) && state.modifiers == old(state.modifiers)
      ensures repeat ==> quitRequested == old(quitRequested)
      ensures !repeat ==> state.input == KeyDownAxes(old(state.input), key)
      ensures !repeat ==> state.modifiers == KeyDownModifiers(old(state.modifiers), key)
      ensures !repeat ==> quitRequested == (old(quitRequested) || key == Escape)
    {
      if repeat {
        return;
      }
      match key {
        case W | Up => state.input := state.input.(ver := state.input.ver - 1);
        case S | Down => state.input := state.input.(ver := state.input.ver + 1);
        case A | Left => state.input := state.input.(hor := state.input.hor - 1);
        case D | Right => state.input := state.input.(hor := state.input.hor + 1);
        case LShift => state.modifiers := state.modifiers.(shift := true);
        case LCtrl => state.modifiers := state.modifiers.(ctrl := true);
        case LAlt => state.modifiers := state.modifiers.(alt := true);
        case Escape => quitRequested := true;
        case OtherKey(_) =>
      }
    }

    /** `key_up_event`: repeats are ignored; movement keys move the axes back, modifiers are cleared. */
    method KeyUpEvent(key: Keycode, repeat: bool)
      modifies state
      ensures state.mouseDown == old(state.mouseDown) && state.switchState == old(state.switchState)
      ensures state.content == old(state.content)
      ensures repeat ==> state.input == old(state.input) && state.modifiers == old(state.modifiers)
      ensures !repeat ==> state.input == KeyUpAxes(old(state.input), key)
      ensures !repeat ==> state.modifiers == KeyUpModifiers(old(state.modifiers), key)
    {
      if repeat {
        return;
      }
      match key {
        case W | Up => state.input := state.input.(ver := state.input.ver + 1);
        case S | Down => state.input := state.input.(ver := state.input.ver - 1);
        case A | Left => state.input := state.input.(hor := state.input.hor + 1);
        case D | Right => state.input := state.input.(hor := state.input.hor - 1);
        case LShift => state.modifiers := state.modifiers.(shift := false);
        case LCtrl => state.modifiers := state.modifiers.(ctrl := false);
        case LAlt => state.modifiers := state.modifiers.(alt := false);
        case _ =>
      }
    }

    /** `mouse_button_down_event`: latch the left, middle or right button. */
    method MouseButtonDownEvent(btn: MouseButton)
      modifies state`mouseDown
      ensures state.mouseDown == ButtonDown(old(state.mouseDown), btn)
    {
      match btn {
        case LeftButton => state.mouseDown := state.mouseDown.(left := true);
        case MiddleButton => state.mouseDown := state.mouseDown.(middle := true);
        case RightButton => state.mouseDown := state.mouseDown.(right := true);
        case OtherButton(_) =>
      }
    }

    /** `mouse_button_up_event`: release the left, middle or right button. */
    method MouseButtonUpEvent(btn: MouseButton)
      modifies state`mouseDown
      ensures state.mouseDown == ButtonUp(old(state.mouseDown), btn)
    {
      match btn {
        case LeftButton => state.mouseDown := state.mouseDown.(left := false);
        case MiddleButton => state.mouseDown := state.mouseDown.(middle := false);
        case RightButton => state.mouseDown := state.mouseDown.(right := false);
        case OtherButton(_) =>
      }
    }

    /**
     * The top of `update`: take the pending switch out of its slot and build
     * the screen it names. `construction` is how building that screen ends;
     * a failure is returned, after the slot has already been emptied.
     */
    method Update(construction: Outcome<string>) returns (r: Outcome<string>)
      modifies this`gs, state`switchState
      ensures state.switchState == None
      ensures old(state.switchState) == None ==> gs == old(gs) && r == Pass
      ensures old(state.switchState) != None && construction == Pass ==>
                gs == Target(old(state.switchState).value) && r == Pass
      ensures old(state.switchState) != None && construction != Pass ==> gs == old(gs) && r == construction
    {
      var pending := state.switchState;
      state.switchState := None;
      r := Pass;
      if pending.Some? {
        if construction.Fail? {
          return construction;
        }
        gs := Target(pending.value);
      }
    }
  }

  /** `Campaign`: a list of levels and a cursor into it. */
  class Campaign<L> {
    var levels: seq<L>
    var current: nat

    /** A fresh campaign over `levels`, at the first one. */
    constructor (levels: seq<L>)
      ensures this.levels == levels && current == 0
    {
      this.levels := levels;
      current := 0;
    }

    /** `next_level`: the level under the cursor, if any; the cursor moves on either way. */
    method NextLevel() returns (r: Option<L>)
      modifies this`current
      ensures current == old(current) + 1
      ensures r == LevelAt(levels, old(current))
    {
      r := LevelAt(levels, current);
      current := current + 1;
    }
  }

  /** `Vec::get`: the `i`-th level, or `None` past the end. */
  function LevelAt<L>(levels: seq<L>, i: nat): (r: Option<L>)
    ensures r.Some? <==> i < |levels|
    ensures r.Some? ==> r.value == levels[i]
  {
    if i < |levels| then Some(levels[i]) else None
  }
}
