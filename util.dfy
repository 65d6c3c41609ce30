/**
 * `util::ver` and `util::hor` from src/main.rs: the movement direction read
 * straight off the keyboard. `pressed` is the set of keys the platform
 * reports as held; the source converts an `i8` in {-1, 0, 1} to `f32`,
 * which is exact, so the model returns the integer.
 */
module Util {
  import opened Events

  /** `b as i8` for a boolean. */
  function Flag(b: bool): (r: int)
    ensures r == 1 <==> b
    ensures r == 0 <==> !b
  {
    if b then 1 else 0
  }

  /** Vertical intent: +1 towards S/Down, -1 towards W/Up, 0 when both or neither. */
  function Ver(pressed: set<Keycode>): (r: int)
    ensures -1 <= r <= 1
    ensures r == 1 <==> (S in pressed || Down in pressed) && !(W in pressed || Up in pressed)
    ensures r == -1 <==> (W in pressed || Up in pressed) && !(S in pressed || Down in pressed)
    ensures r == 0 <==> ((S in pressed || Down in pressed) <==> (W in pressed || Up in pressed))
  {
    Flag(S in pressed || Down in pressed) - Flag(W in pressed || Up in pressed)
  }

  /** Horizontal intent: +1 towards D/Right, -1 towards A/Left, 0 when both or neither. */
  function Hor(pressed: set<Keycode>): (r: int)
    ensures -1 <= r <= 1
    ensures r == 1 <==> (D in pressed || Right in pressed) && !(A in pressed || Left in pressed)
    ensures r == -1 <==> (A in pressed || Left in pressed) && !(D in pressed || Right in pressed)
    ensures r == 0 <==> ((D in pressed || Right in pressed) <==> (A in pressed || Left in pressed))
  {
    Flag(D in pressed || Right in pressed) - Flag(A in pressed || Left in pressed)
  }

  /** `ver` looks only at W, S, Up and Down; `hor` only at A, D, Left and Right. */
  lemma AxesReadOnlyTheirKeys(pressed: set<Keycode>)
    ensures Ver(pressed) == Ver(pressed * VerticalKeys)
    ensures Hor(pressed) == Hor(pressed * HorizontalKeys)
  {
  }

  /** W and Up are the same request, and holding both still counts once. */
  lemma UpKeysInterchangeable(pressed: set<Keycode>)
    ensures Ver(pressed + {W}) == Ver(pressed + {Up})
    ensures Ver(pressed + {W, Up}) == Ver(pressed + {W})
    ensures Ver(pressed + {S, Down}) == Ver(pressed + {S})
    ensures Hor(pressed + {A}) == Hor(pressed + {Left})
    ensures Hor(pressed + {A, Left}) == Hor(pressed + {A})
    ensures Hor(pressed + {D, Right}) == Hor(pressed + {D})
  {
  }
}
