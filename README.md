# cowfarg core, modelled in Dafny

A model of the core of the cowfarg game (Rust, on ggez). It covers four pieces:

- **The tile grid** (`src/game/world.rs`). A `Grid` keeps its cells row-major in one flat vector, with a `width`. The height is the length divided by the width. It can grow or shrink by one column or one row in place. Reads and writes take `u16` coordinates through a saturating `u16` index. Module `GameWorld`, class `Grid` (fields `width`, `mats`) and class `World`.
- **The master state machine** (`src/game/mod.rs`). Key and mouse events are folded into the signed movement axes, the three modifier flags and the three mouse-button latches of the shared `State`. A screen asks for a switch through a one-slot pending switch. The top of `Master::update` takes the switch out and builds the new screen. A `Campaign` is a cursor over a list of levels. Module `Game`: classes `State`, `Master` and `Campaign`, plus the pure step functions the event handlers are specified by.
- **The material cache** (`src/game/world/material.rs`). It maps a material name to its sprite path and adds an entry on first use. Module `WorldMaterial`, class `MaterialCache`.
- **`util::ver` / `util::hor`** (`src/main.rs`). These give the movement direction polled from the keyboard, as integers in {-1, 0, 1}. Module `Util`.

`Events` holds the key and mouse-button codes the game distinguishes. `Wrappers` holds `Option` and a pass/fail `Outcome` that stands for `GameResult<()>`.

The grid invariant (`Grid.Valid`, i.e. `Shaped`) is: the width is between 1 and 65535; there are at most 65535 cells; and `|mats| == width * Height()`. `Height()` is written as the source computes it, through the `u16` cast of the length. The mutators state their new cells as a function of the old ones: `Widened`, `Thinned`, an appended row, or a truncation. The `*Lookup` lemmas prove, cell by cell, that every kept coordinate reads the same through `get` before and after.

The key handlers are methods on `Master`. Their postconditions equal the new axes and flags to `KeyDownAxes` / `KeyUpAxes` / `KeyDownModifiers` / `KeyUpModifiers` of the old ones. `AxesTrackHeldKeys` lifts this to whole event sequences. `key_up_event` does not check that the released key was pressed, so a stray release still moves its axis: `UnmatchedReleaseDrifts` shows S pressed, then W released without a press, leaving `ver == 2`.

## Model

| member | source | states |
|---|---|---|
| Util.Ver | src/main.rs:44-47 | the result is in {-1, 0, 1}; it is +1 exactly when S or Down is held and neither W nor Up; -1 in the mirror case; 0 when both directions or neither are held |
| Util.Hor | src/main.rs:48-51 | the same for D/Right (+1) against A/Left (-1) |
| Util.AxesReadOnlyTheirKeys | src/main.rs:44-51 | `ver` depends only on W, S, Up and Down; `hor` depends only on A, D, Left and Right |
| Util.UpKeysInterchangeable | src/main.rs:45-50 | the two aliases of a direction are interchangeable, and holding both counts once |
| GameWorld.Idx | src/game/world.rs:93-95 | the saturating index is the row-major index x + y * width when that fits a `u16`, and 65535 otherwise |
| GameWorld.IdxExact | src/game/world.rs:93-95 | on a grid of at most 65535 cells, the saturating index is below the length exactly when y is below the height; it then equals x + y * width, so saturation never lands on a real cell |
| GameWorld.RowCount | src/game/world.rs:55 | the height is the floor of the length truncated to `u16` divided by the width: height * width <= len mod 65536 < height * width + width |
| GameWorld.RowCountExact | src/game/world.rs:54-56 | when the length is whole rows and fits a `u16`, `height()` equals the row count |
| GameWorld.HeightWrapsPastU16 | src/game/world.rs:54-56 | counterexample: past 65535 cells the `u16` height is wrong (see Findings) |
| GameWorld.Lookup | src/game/world.rs:107-113 | `get(x, y)` is `Some` exactly when x < width and y < height, and then it holds the cell at x + y * width; otherwise it is `None` |
| GameWorld.Grid.Get | src/game/world.rs:107-113 | on a valid grid, `get(x, y)` is `Some` exactly when x < width and y < `height()`, and then it holds `mats[x + y * width]` |
| GameWorld.Grid.Height | src/game/world.rs:54-56 | `height()` is the number of whole rows: height * width <= len < (height + 1) * width |
| GameWorld.Grid.constructor | src/game/world.rs:44-49 | `Grid::new(w, h)` (with w >= 1 and w * h within `u16`) has width w, height h and w * h cells, all `Apples` |
| GameWorld.World.constructor | src/game/world.rs:20-24 | `World::new(w, h)` holds a fresh `Grid::new(w, h)` |
| GameWorld.Grid.Insert | src/game/world.rs:114-121 | writes exactly the cell `get(x, y)` reads, if any; afterwards `get(x, y) == Some(m)`; every other coordinate, the width and the height read as before; an out-of-range write changes nothing |
| GameWorld.InsertedLookup | src/game/world.rs:114-121 | at the level of the cells: overwriting the cell of an in-range (x, y) changes what (x, y) reads and nothing else |
| GameWorld.Grid.Widen | src/game/world.rs:57-65 | the width grows by one; the height is unchanged; the shape invariant holds; the cells are `Widened(old cells)`, built by the loop that inserts from the last row backwards |
| GameWorld.WidenedLength | src/game/world.rs:57-65 | widening h full rows of w gives h rows of w + 1 |
| GameWorld.WidenedAt | src/game/world.rs:57-65 | in `Widened`, old cell (x, y) sits at x + y * (width + 1), and the new last column is `Apples` |
| GameWorld.WidenedLookup | src/game/world.rs:57-65 | after widening, `get` reads the same at every old column, the new column reads `Apples` on every row and `None` below; the result keeps the shape invariant |
| GameWorld.Grid.Thin | src/game/world.rs:66-75 | no-op when width <= 1; otherwise the width drops by one, the height is unchanged and the cells are `Thinned(old cells)` |
| GameWorld.ThinnedLength | src/game/world.rs:66-75 | thinning h full rows of w gives h rows of w - 1 |
| GameWorld.ThinnedAt | src/game/world.rs:66-75 | in `Thinned`, each remaining cell (x, y) sits at x + y * (width - 1) |
| GameWorld.ThinnedLookup | src/game/world.rs:66-75 | after thinning, `get` reads the same at every remaining column; the result keeps the shape invariant |
| GameWorld.Grid.Heighten | src/game/world.rs:76-80 | appends one row of `width` `Apples`; the height grows by one; the old prefix, the old rows' reads and the width are unchanged |
| GameWorld.HeightenedLookup | src/game/world.rs:76-80 | after heightening, old rows read as before, the new row reads `Apples`, and everything below reads `None` |
| GameWorld.Grid.Shorten | src/game/world.rs:81-87 | with at least two rows, exactly the last row is removed and the prefix is kept; with at most one row, nothing changes |
| GameWorld.ShortenedLookup | src/game/world.rs:81-87 | after shortening, the remaining rows read as before and the removed row reads `None` |
| WorldMaterial.Name | src/game/world.rs:127 | a material's lower-cased variant name is the `PALETTE` entry at its discriminant |
| WorldMaterial.PaletteIsMaterialNames | src/game/world/material.rs:44 | `PALETTE` has five entries, holds every material's name, and distinct materials have distinct names |
| WorldMaterial.SpritePath | src/game/world/material.rs:26 | the sprite path is the 10 characters `materials/` followed by the material's name, and nothing else |
| WorldMaterial.Ensured | src/game/world/material.rs:24-30 | afterwards the key is present; an existing entry is left as it was; a new entry's sprite is `materials/<name>`; no other key is added, removed or changed |
| WorldMaterial.EnsureIdempotent | src/game/world/material.rs:24-30 | ensuring twice equals ensuring once |
| WorldMaterial.EnsureCommutes | src/game/world/material.rs:24-30 | ensuring two names gives the same map in either order |
| WorldMaterial.MaterialCache.constructor | src/game/world/material.rs:18-22 | the cache starts empty |
| WorldMaterial.MaterialCache.Ensure | src/game/world/material.rs:24-30 | the cache becomes `Ensured(old cache, mat)` |
| WorldMaterial.MaterialCache.GetImg | src/game/world/material.rs:38-42 | ensures first, so the lookup never misses; returns the existing sprite, or `materials/<name>` for a new name |
| Game.KeyDownAxes | src/game/mod.rs:210-214 | W/Up moves `ver` by -1, S/Down by +1, A/Left moves `hor` by -1, D/Right by +1; any other key leaves both axes |
| Game.KeyUpAxes | src/game/mod.rs:231-235 | the mirror of a press: W/Up moves `ver` by +1, S/Down by -1, A/Left moves `hor` by +1, D/Right by -1; any other key leaves both axes |
| Game.KeyUpUndoesKeyDown | src/game/mod.rs:210-235 | a key-up applies the exact inverse of the key-down of the same key, in either order |
| Game.KeyDownModifiers | src/game/mod.rs:215-217 | LShift/LCtrl/LAlt down sets its own flag; the other flags are unchanged |
| Game.KeyUpModifiers | src/game/mod.rs:236-238 | LShift/LCtrl/LAlt up clears its own flag; the other flags are unchanged |
| Game.ModifiersSettle | src/game/mod.rs:215-238 | repeating a press or a release is idempotent, and a release forgets an earlier press |
| Game.ButtonDown | src/game/mod.rs:244-253 | a press of Left/Middle/Right sets only its own latch; other buttons change nothing |
| Game.ButtonUp | src/game/mod.rs:255-264 | a release of Left/Middle/Right clears only its own latch; other buttons change nothing |
| Game.Axes | src/game/mod.rs:210-214 | the axes implied by a set of held keys, with each alias counting separately, lie in [-2, 2] |
| Game.PressTracksHold | src/game/mod.rs:210-214 | pressing a key that is not held moves the axes exactly as adding it to the held keys does |
| Game.HandleKeyTracksHold | src/game/mod.rs:202-240 | one matched key event changes the axes exactly as it changes the set of held keys; repeat events change nothing |
| Game.AxesTrackHeldKeys | src/game/mod.rs:202-240 | over any matched sequence of events, the axes equal held down-keys minus held up-keys, and held right-keys minus held left-keys |
| Game.AxesAgainstPolledKeys | src/game/mod.rs:211-214 | the counter equals `util::ver` / `util::hor` exactly when both aliases of one direction are held together just when both aliases of the other direction are |
| Game.PressWPressSReleaseW | src/game/mod.rs:211-233 | from rest, W down, S down, W up leaves `ver == 1` |
| Game.WAndUpCountTwice | src/game/mod.rs:211 | holding W and Up gives `ver == -2` in the counter, but `util::ver` gives -1 |
| Game.UnmatchedReleaseDrifts | src/game/mod.rs:224-235 | a release of a key that was never pressed is not filtered: S down then a stray W up leaves `ver == 2` |
| Game.Target | src/game/mod.rs:157-166 | a pending `Play` or `PlayWith` builds a play screen, and only they do; `Menu` builds the menu, `Editor` the editor, `Win` the win screen and `Lose` the lose screen, each exactly |
| Game.SelectContent | src/game/mod.rs:113-119 | an empty argument selects no content; any other argument selects that file |
| Game.State.constructor | src/game/mod.rs:121-133 | the initial state has no pending switch, centred axes, and no modifier or mouse button held |
| Game.State.Switch | src/game/mod.rs:147-149 | the slot holds the new switch whatever it held before (last write wins) |
| Game.Master.constructor | src/game/mod.rs:102-139 | a new master shows the menu and has the content chosen from the argument, in the initial state |
| Game.Master.KeyDownEvent | src/game/mod.rs:202-222 | a repeat changes nothing; otherwise the axes become `KeyDownAxes`, the modifiers `KeyDownModifiers`, Escape requests quitting, and the latches, switch and content are untouched |
| Game.Master.KeyUpEvent | src/game/mod.rs:224-242 | a repeat changes nothing; otherwise the axes become `KeyUpAxes` and the modifiers `KeyUpModifiers`; nothing else changes |
| Game.Master.MouseButtonDownEvent | src/game/mod.rs:244-253 | the latches become `ButtonDown` of the old ones; nothing else changes |
| Game.Master.MouseButtonUpEvent | src/game/mod.rs:255-264 | the latches become `ButtonUp` of the old ones; nothing else changes |
| Game.Master.Update | src/game/mod.rs:156-167 | the pending slot is always left empty; with nothing pending the screen is kept; a pending switch replaces the screen with its target when construction succeeds; otherwise the screen is kept and the error is returned |
| Game.Campaign.constructor | src/game/mod.rs:294-297 | a campaign starts at its first level |
| Game.Campaign.NextLevel | src/game/mod.rs:299-303 | returns the level under the cursor, or `None` past the end; the cursor always advances by one and the level list is untouched |
| Game.LevelAt | src/game/mod.rs:300 | `Some(levels[i])` exactly when i < the number of levels, otherwise `None` |

## Left out

- Rendering is not modelled, because it consists of ggez graphics calls: `Grid::draw` (only its name expression is kept, as `WorldMaterial.Name`), `Master::draw` and its transforms, and the screens' `draw` / `draw_hud`.
- The fixed-timestep loop and the screen's `update` / `logic` after the switch in `Master::update` are not modelled, because they are driven by the library clock. `Game.Master.Update` models only the switch consumption, and its `Pass` means that part succeeded.
- Screen construction is an opaque `Outcome` parameter of `Game.Master.Update`, because it loads assets and audio that are not part of this model. `StateSwitch` is a tag without the level, health, weapon or statistics it carries.
- The active screen's own `key_down` / `key_up` / `mouse_down` / `mouse_up`, which `Master` calls after its own bookkeeping, are not modelled, because they are screen bodies outside the core.
- `Game.Master.constructor` models `Master::new` only when loading succeeds. The failures of `Assets::new`, `MediaPlayer::new` and `Menu::new` are asset and audio I/O.
- `Escape` is a `quitRequested` flag instead of a call to `ctx.quit()`.
- `Campaign::load`, `main()`, `mouse_motion_event`, `focus_on`, `snap` / `snap_coords` and the angle helpers are not modelled, because they are file I/O, process start-up or floating point.
- The `lazy_static` / `RwLock` around `MATS` is not modelled, and neither is the race between its read and its write. The cache is a single-threaded object.
- `src/game/states/menu.rs` and `src/game/states/play.rs` are not part of this model.
- The integer type of the `InputState` axes is declared in a module that is not part of this model. The axes are unbounded integers here, so no overflow is modelled. `Campaign::current` is also unbounded, so its `usize` overflow is not modelled.
- Util.Ver and Util.Hor return an integer rather than the source's `f32`. The only values are -1, 0 and 1, and `f32` represents them exactly.
- WorldMaterial.MaterialCache.GetImg returns the sprite path. It does not load the image through `Assets::get_img`, because that is asset I/O that is not part of this model.
- The level type is a type parameter of `Game.Campaign`, because `world::Level` is not part of this model.
- GameWorld.Grid.constructor: requires a width of at least 1. `Grid::new(0, h)` builds a grid whose `height()` divides by zero.
- GameWorld.Grid.Heighten: requires the grid to stay within 65535 cells. Past that, `height()` is wrong (see Findings).
- GameWorld.Grid.Widen: requires the grid to stay within 65535 cells, for the same reason. It also requires width < 65535, because `self.width += 1` overflows otherwise.
- GameWorld.Grid.Shorten: on a grid with no cells, `len - width` underflows in the source. That panics in a debug build; in a release build it wraps, and `truncate` is then a no-op. The model takes the release behaviour and changes nothing.
- GameWorld.Grid.Widen and GameWorld.Grid.Thin state their new cells as `Widened` / `Thinned` of the old ones. The per-coordinate reads are proved in `WidenedLookup` / `ThinnedLookup` rather than in the method contracts.

## Findings

| source | as written | input that shows it | evidently intended | confidence | as-written member | corrected member |
|---|---|---|---|---|---|---|
| src/game/world.rs:54-56 | `height()` casts the length to `u16`, but `heighten` (76-80) and `widen` (57-65) never stop the grid from growing past 65535 cells | heighten a 1 x 65535 grid: it has 65536 cells and `height()` is 0; widen a 255 x 257 grid: it has 257 rows of 256 and `height()` is 1. A later `widen` / `thin` then loops over the wrong number of rows | the grid stays within 65535 cells, the cap that `Grid::new`'s `u16` product already sets, so that `height()` is the row count | medium (not executed) | GameWorld.HeightWrapsPastU16 | GameWorld.Grid.Heighten |
