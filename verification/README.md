# Scrolling 5×5 images and text — a Dafny model

This project models the scrolling-animation engine of the `microbit-text` crate, a
`no_std` Rust library. It scrolls a sequence of 5×5 images, or the glyphs of an
ascii message, across a 5×5 LED display. The "states" column of the table under
"## Model" paraphrases each member's Dafny `ensures` clauses, which the verifier
proves; the rest of this file describes the Rust code and how it is modelled.

The model has four modules, one per source file.

- `Image` (`image.dfy`) is the packed black-and-white image `BitImage`. Each of its
  five rows is one byte, and column `c` is bit `c`. It has the row-packing
  constructor `New`, `Blank`, and `BrightnessAt`. The display library's
  `MAX_BRIGHTNESS` is an abstract positive byte, so every property holds whatever its
  value. The `Render` capability is the function type `Render<T>`. Display
  coordinates are the type `Coord` (0..5), which is the caller contract of
  `brightness_at`.
- `Scrolling` (`scrolling.dfy`) holds the scroll cursor and the compositing rule.
  - `ScrollingState` is a class whose `index` and `pixel` fields `Reset` and `Tick`
    update in place. Its value is a `Cursor`, and `Next` is the odometer step.
  - `Locate` and `CurrentBrightnessAt` are `Scrollable::current_brightness_at`, generic
    over the subimage type. They work on the subimages as a sequence.
  - `IsFinished`, `Step` and the method `AnimateTick` are the blanket `Animate`
    implementation, and `Run` iterates `Step`.
  - The compositing rule is proved equal to a reference definition, `StripAt`. That
    definition is a 5-wide window over the strip of subimages laid side by side, with
    five blank columns before and after.
- `Text` (`scrolling_text.dfy`) holds the classes `ScrollingStaticText`, which borrows
  a byte string, and `ScrollingBufferedText`. The buffered class copies the message
  into a fixed `array<bv8>` buffer of capacity N. The glyph table `font::character` is
  a parameter `font: bv8 -> BitImage`.
- `Statics` (`scrolling_statics.dfy`) holds the class `ScrollingStatics<T>`, which
  scrolls a borrowed sequence of images of any type T. A T is rendered by a
  `render` parameter.

The Rust `Scrollable` trait and its blanket `Animate` impl have no direct Dafny
counterpart. Each scroller class keeps its cursor in a `const state: ScrollingState`
field. It delegates `IsFinished`, `Reset` and `Tick` to the shared definitions in
`Scrolling`, as the blanket impl does through `state()` and `state_mut()`.

Over subimages `[A, B]` at `index 1, pixel 2`, display columns 0 to 2 show columns 2
to 4 of A and columns 3 and 4 show columns 0 and 1 of B, because the rule tests
`x + pixel < 5` (`TwoImagesMidway`).

## Model

| member | source | states |
|---|---|---|
| `Image.RowByte` | src/image.rs:38-40 | for a row of 0/1 values, the packed byte is the binary number with digit c equal to `row[c]`, so it is below 32 |
| `Image.New` | src/image.rs:37-48 | for a 0/1 grid, every packed row is below 32: bits 5 to 7 are never set |
| `Image.Blank` | src/image.rs:53-55 | every pixel of the blank image has brightness 0 |
| `Image.BrightnessAt` | src/image.rs:60-63 | the brightness at (x, y) is `MAX_BRIGHTNESS` or 0 and nothing else; it is `MAX_BRIGHTNESS` exactly when digit x of row byte y, read in base 2, is 1 |
| `Image.BitTest` | src/image.rs:62 | the mask test `row & (1 << x) != 0` holds exactly when digit x of the row byte is 1 |
| `Image.NewBrightnessAt` | src/image.rs:37-63 | round trip: the brightness of a packed 0/1 grid at (x, y) is `MAX_BRIGHTNESS` where the grid holds 1 and 0 where it holds 0 |
| `Scrolling.Next` | src/scrolling.rs:61-67 | one tick moves the linear position `5*index + pixel` by exactly 1; `pixel` stays in 0..5; `index` grows by one exactly when `pixel` wraps from 4, and is otherwise unchanged |
| `Scrolling.ScrollingState.constructor` | src/scrolling.rs:43-50 | the default state is `(0, 0)` |
| `Scrolling.ScrollingState.Reset` | src/scrolling.rs:55-58 | after a reset the state is `(0, 0)`, whatever it was before |
| `Scrolling.ScrollingState.Tick` | src/scrolling.rs:61-67 | the fields are updated in place to the odometer successor `Next` of the old state |
| `Scrolling.Locate` | src/scrolling.rs:100-108 | every subimage the compositing rule reads has an index below `length`, and its column is below 5, so no out-of-range lookup happens |
| `Scrolling.LocateIsWindow` | src/scrolling.rs:99-110 | display column x shows strip column `5*index + pixel + x` of the blank-padded, gap-free strip of subimages |
| `Scrolling.CurrentBrightnessAt` | src/scrolling.rs:99-110 | the frame equals the strip seen through the window; it is 0 once `index > length`, 0 in the left region (`x + pixel < 5`) when `index == 0`, and 0 in the right region when `index == length` |
| `Scrolling.FullFrame` | src/scrolling.rs:102-109 | at `pixel == 0` with `1 <= index <= length`, every pixel of the frame is that of subimage `index - 1` |
| `Scrolling.StartFrameBlank` | src/scrolling.rs:100-103 | the frame at the reset state `(0, 0)` is blank |
| `Scrolling.TwoImagesMidway` | src/scrolling.rs:102-109 | for `[A, B]` at `(1, 2)`: x = 0, 1, 2 show columns 2, 3, 4 of A; x = 3, 4 show columns 0, 1 of B |
| `Scrolling.IsFinished` | src/scrolling.rs:116-118 | for `pixel < 5`, the animation is finished exactly when the window has moved `5*(length+1)` columns or more |
| `Scrolling.Step` | src/scrolling.rs:124-128 | a finished animation is left unchanged; otherwise the window moves exactly one column; reachable states stay reachable and `index` never decreases |
| `Scrolling.RunAdvances` | src/scrolling.rs:124-128 | while the animation runs, k ticks move the window exactly k columns and keep `pixel` in 0..5 |
| `Scrolling.RunStaysReachable` | src/scrolling.rs:124-128 | any number of ticks keeps the cursor in the reachable states, so `index <= length + 1` always (no overflow) |
| `Scrolling.TerminalCursor` | src/scrolling.rs:116-118 | the only cursor with `pixel < 5` at position `5*(length+1)` is `(length+1, 0)` |
| `Scrolling.RunToEnd` | src/scrolling.rs:124-128 | from any cursor, as many ticks as columns remain reach the terminal state `(length+1, 0)` |
| `Scrolling.FinishesAfterExactly` | src/scrolling.rs:116-128 | from the reset state, `5*(length+1)` ticks reach `(length+1, 0)`, which is finished |
| `Scrolling.RunningBeforeEnd` | src/scrolling.rs:116-128 | from the reset state, no state reached by fewer than `5*(length+1)` ticks is finished |
| `Scrolling.RunBetween` | src/scrolling.rs:124-128 | between two cursors with `pixel < 5`, no further than the terminal state, the number of ticks is the number of columns between them |
| `Scrolling.RunFromStart` | src/scrolling.rs:124-128 | a cursor with `pixel < 5` no further than the terminal state is the state reached from `(0, 0)` after as many ticks as its position |
| `Scrolling.ReachedFromStart` | src/scrolling.rs:116-128 | every reachable state is reached from the reset state by exactly as many ticks as its position |
| `Scrolling.FinishedIsAbsorbing` | src/scrolling.rs:124-128 | once finished, any number of further ticks changes nothing |
| `Scrolling.AnimateTick` | src/scrolling.rs:124-128 | the blanket `Animate::tick` updates the state in place to `Step` of the old state |
| `Text.Glyphs` | src/scrolling_text.rs:64-66 | the subimages of a message are one per byte, subimage i being the glyph of byte i |
| `Text.GlyphFrameIsTwoLevel` | src/scrolling_text.rs:73-75 | every pixel of a scrolled text frame is 0 or `MAX_BRIGHTNESS` |
| `Text.GlyphFullFrame` | src/scrolling_text.rs:73-75 | at `pixel == 0` with `1 <= index <= |message|`, the frame is the glyph of byte `index - 1` |
| `Text.EmptyMessage` | src/scrolling_text.rs:111-117 | an empty message renders blank in every state with `pixel < 5`, and 5 ticks from `(0, 0)` reach the finished state `(1, 0)` |
| `Text.EmptyMessageRunning` | src/scrolling_text.rs:111-117 | with an empty message, no state reached from `(0, 0)` by fewer than 5 ticks is finished, so it finishes after exactly 5 |
| `Text.ScrollingStaticText.constructor` | src/scrolling_text.rs:29-34 | the default scroller has an empty message and the cursor at `(0, 0)` |
| `Text.ScrollingStaticText.SetMessage` | src/scrolling_text.rs:41-44 | the message is replaced and the cursor reset to `(0, 0)` |
| `Text.ScrollingStaticText.Length` | src/scrolling_text.rs:52-54 | `length()` is the number of subimages, one per byte of the message, whatever the font |
| `Text.ScrollingStaticText.Subimages` | src/scrolling_text.rs:52-66 | there are `length()` subimages, one per byte of the message, subimage i being the glyph of `message[i]` |
| `Text.ScrollingStaticText.IsFinished` | src/scrolling.rs:116-118 | in a valid scroller, finished exactly at the terminal state `(length+1, 0)` |
| `Text.ScrollingStaticText.Reset` | src/scrolling.rs:120-122 | the cursor is back at `(0, 0)` |
| `Text.ScrollingStaticText.Tick` | src/scrolling.rs:124-128 | the cursor moves by `Step`, and the scroller stays valid |
| `Text.ScrollingStaticText.BrightnessAt` | src/scrolling_text.rs:73-75 | the frame is two-level, blank once finished, and at `pixel == 0` is the glyph of byte `index - 1` |
| `Text.ScrollingBufferedText.constructor` | src/scrolling_text.rs:111-117 | the default scroller of capacity N has length 0, an all-zero buffer of N bytes and the cursor at `(0, 0)` |
| `Text.ScrollingBufferedText.SetMessage` | src/scrolling_text.rs:99-104 | a message longer than N panics and changes nothing (no truncation); otherwise length is the message's length, the buffer's prefix is the message, the bytes after it are unchanged and the cursor is `(0, 0)` |
| `Text.ScrollingBufferedText.Length` | src/scrolling_text.rs:125-127 | the reported length never exceeds the capacity N |
| `Text.ScrollingBufferedText.Subimages` | src/scrolling_text.rs:125-139 | there are `length` subimages, subimage i being the glyph of buffer byte i; bytes past `length` are never shown |
| `Text.ScrollingBufferedText.IsFinished` | src/scrolling.rs:116-118 | in a valid scroller, finished exactly at the terminal state `(length+1, 0)` |
| `Text.ScrollingBufferedText.Reset` | src/scrolling.rs:120-122 | the cursor is back at `(0, 0)` |
| `Text.ScrollingBufferedText.Tick` | src/scrolling.rs:124-128 | the cursor moves by `Step`, and the scroller stays valid |
| `Text.ScrollingBufferedText.BrightnessAt` | src/scrolling_text.rs:145-147 | the frame is two-level, blank once finished, and at `pixel == 0` is the glyph of byte `index - 1` |
| `Statics.ScrollingStatics.constructor` | src/scrolling_statics.rs:63-68 | the default scroller holds no images, so `length() == 0`, and the cursor is at `(0, 0)` |
| `Statics.ScrollingStatics.SetImages` | src/scrolling_statics.rs:53-56 | the images are replaced and the cursor reset to `(0, 0)`; nothing else is modified |
| `Statics.ScrollingStatics.Length` | src/scrolling_statics.rs:76-78 | `length()` is the number of images given |
| `Statics.ScrollingStatics.Subimage` | src/scrolling_statics.rs:88-90 | subimage i is one of the given images |
| `Statics.ScrollingStatics.IsFinished` | src/scrolling.rs:116-118 | in a valid scroller, finished exactly at the terminal state `(length+1, 0)` |
| `Statics.ScrollingStatics.Reset` | src/scrolling.rs:120-122 | the cursor is back at `(0, 0)` |
| `Statics.ScrollingStatics.Tick` | src/scrolling.rs:124-128 | the cursor moves by `Step`, and the scroller stays valid |
| `Statics.ScrollingStatics.BrightnessAt` | src/scrolling_statics.rs:96-98 | blank once finished; at `pixel == 0` with `1 <= index <= length`, the frame is `subimage(index - 1)` as rendered |

## Left out

- The glyph table `font::character` is not part of this model. It is a parameter, and no glyph contents are assumed.
- The display library's `Render` trait and `MAX_BRIGHTNESS` are not part of this model. `Render` is a function parameter, and `MAX_BRIGHTNESS` is a constant whose value is left open.
- The display refresh, the frames, the 50 ms timing loops in the documentation examples, and `src/lib.rs` (module declarations only) are left out. None of them has logic.
- Coordinates outside 0..5 are excluded by the type `Coord`. The model does not reproduce the index or shift panic that Rust raises for them.
- The `usize` width is not modelled: integers are unbounded. `Scrolling.RunStaysReachable` shows that `index` never exceeds `length + 1`, so the increment cannot overflow.
- The panic of `ScrollingBufferedText::set_message` is modelled as a returned `Panicked` outcome that leaves the scroller unchanged. It does not abort.
- `copy_from_slice` is modelled as an aggregate assignment to the buffer prefix, without its internal loop.
- `Scrollable::state` and `state_mut` are not separate members. The classes read and update their `state` field directly.
- The const generic `N` is the buffer's length, chosen when the scroller is created.
- `Copy`, `Clone` and `Debug` derives, and `'static` lifetimes, are left out. Slices and strings are sequences.
- Statics.ScrollingStatics.Subimage: states only that the result is one of the images. That `subimage(i)` is exactly `images[i]` is its definition, and `BrightnessAt` states that `Subimage(index - 1)` is the one shown at `pixel == 0`.
- Statics.ScrollingStatics.BrightnessAt: does not restate the window-over-the-strip property. That property is stated once, for every scroller, by `Scrolling.CurrentBrightnessAt`, which it delegates to.
