/** Scrolling a sequence of 5×5 images horizontally (src/scrolling.rs).

    The display is a 5-column window sliding over a strip made of the
    subimages laid side by side. The cursor says how far the window has
    moved; the compositing rule says which subimage column each display
    column shows. */
module Scrolling {
  import opened Image

  /** The value of a `ScrollingState`: `index` is the subimage being scrolled
      on (or about to be), `pixel` how many of its columns have entered. */
  datatype Cursor = Cursor(index: nat, pixel: nat)

  /** The reset state: nothing has entered the display yet. */
  const Start: Cursor := Cursor(0, 0)

  /** How many columns the window has moved since the start. */
  function Position(c: Cursor): nat
  {
    5 * c.index + c.pixel
  }

  /** The cursors an animation over `length` subimages can be in: `pixel` is a
      digit in 0..5 and `index` at most `length`, or the terminal state
      `(length + 1, 0)`, where the window has moved past the last subimage. */
  ghost predicate Reachable(length: nat, c: Cursor)
  {
    c.pixel < 5 && (c.index <= length || c == Cursor(length + 1, 0))
  }

  /** A cursor with `pixel` in 0..5 is determined by its position. */
  lemma PositionDeterminesCursor(c: Cursor)
    requires c.pixel < 5
    ensures c.index == Position(c) / 5 && c.pixel == Position(c) % 5
  {
  }

  /** `ScrollingState::tick` on values: a two-digit odometer whose low digit
      counts 0..5. It moves the window by exactly one column; `index` grows,
      by one, exactly when `pixel` wraps from 4 to 0. */
  function Next(c: Cursor): (n: Cursor)
    ensures Position(n) == Position(c) + 1
    ensures c.pixel < 5 ==> n.pixel < 5
    ensures n.index == c.index + 1 <==> c.pixel == 4
    ensures n.index != c.index + 1 ==> n.index == c.index
  {
    if c.pixel + 1 == 5 then Cursor(c.index + 1, 0) else Cursor(c.index, c.pixel + 1)
  }

  /** The state of a scrolling animation, updated in place. */
  class ScrollingState {
    var index: nat
    var pixel: nat

    function Value(): Cursor
      reads this
    {
      Cursor(index, pixel)
    }

    /** `Default`: the start of the animation. */
    constructor ()
      ensures Value() == Start
    {
      index, pixel := 0, 0;
    }

    /** `ScrollingState::reset`, whatever the previous state. */
    method Reset()
      modifies this
      ensures Value() == Start
    {
      index := 0;
      pixel := 0;
    }

    /** `ScrollingState::tick`. */
    method Tick()
      modifies this
      ensures Value() == Next(old(Value()))
    {
      pixel := pixel + 1;
      if pixel == 5 {
        pixel := 0;
        index := index + 1;
      }
    }
  }

  /** Where one display column takes its pixels from. */
  datatype Source = Blank | Column(image: nat, column: Coord)

  /** The branch structure of `Scrollable::current_brightness_at`: display
      column x shows column `x + pixel` of subimage `index - 1` while that
      column is below 5, and column `x + pixel - 5` of subimage `index`
      after; both open ends of the strip, and a finished animation, are
      blank. Every subimage it names exists. */
  function Locate(length: nat, c: Cursor, x: Coord): (s: Source)
    requires c.pixel < 5
    ensures s.Column? ==> s.image < length
  {
    if c.index > length then Blank
    else if x + c.pixel < 5 then
      if c.index == 0 then Blank else Column(c.index - 1, x + c.pixel)
    else
      if c.index == length then Blank else Column(c.index, x + c.pixel - 5)
  }

  /** The strip the window slides over, column by column: five blank
      columns, then the columns of the `length` subimages with no gaps, then
      five blank columns and blank from there on. */
  function StripAt(length: nat, s: nat): Source
  {
    if s < 5 || s >= 5 * length + 5 then Blank else Column((s - 5) / 5, (s - 5) % 5)
  }

  /** The compositing rule is a window over the strip: display column x
      shows strip column `Position(c) + x`. */
  lemma LocateIsWindow(length: nat, c: Cursor, x: Coord)
    requires c.pixel < 5
    ensures Locate(length, c, x) == StripAt(length, Position(c) + x)
  {
  }

  /** The brightness at column `s` of the strip, row y. */
  function StripBrightness<T>(render: Render<T>, images: seq<T>, s: nat, y: Coord): nat
  {
    match StripAt(|images|, s)
    case Blank => 0
    case Column(i, col) => if i < |images| then render(images[i], col, y) else 0
  }

  /** `Scrollable::current_brightness_at` over the subimages `images` with
      cursor c. The frame is the strip seen through the window; a finished
      animation is blank, and so are the left region before the first
      subimage has entered and the right region after the last one. */
  function CurrentBrightnessAt<T>(render: Render<T>, images: seq<T>, c: Cursor, x: Coord, y: Coord): (b: nat)
    requires c.pixel < 5
    ensures b == StripBrightness(render, images, Position(c) + x, y)
    ensures c.index > |images| ==> b == 0
    ensures c.index == 0 && x + c.pixel < 5 ==> b == 0
    ensures c.index == |images| && x + c.pixel >= 5 ==> b == 0
  {
    LocateIsWindow(|images|, c, x);
    match Locate(|images|, c, x)
    case Blank => 0
    case Column(i, col) => render(images[i], col, y)
  }

  /** At `pixel == 0` the window sits exactly on subimage `index - 1`. */
  lemma FullFrame<T>(render: Render<T>, images: seq<T>, c: Cursor, x: Coord, y: Coord)
    ensures c.pixel == 0 && 1 <= c.index <= |images| ==>
      CurrentBrightnessAt(render, images, c, x, y) == render(images[c.index - 1], x, y)
  {
  }

  /** The frame at the reset state is blank. */
  lemma StartFrameBlank<T>(render: Render<T>, images: seq<T>, x: Coord, y: Coord)
    ensures CurrentBrightnessAt(render, images, Start, x, y) == 0
  {
  }

  /** Two subimages [a, b] at index 1, pixel 2: display columns 0, 1 and 2
      show columns 2, 3 and 4 of a (`x + pixel < 5`), display columns 3 and 4
      show columns 0 and 1 of b. */
  lemma TwoImagesMidway<T>(render: Render<T>, a: T, b: T, y: Coord)
    ensures CurrentBrightnessAt(render, [a, b], Cursor(1, 2), 0, y) == render(a, 2, y)
    ensures CurrentBrightnessAt(render, [a, b], Cursor(1, 2), 1, y) == render(a, 3, y)
    ensures CurrentBrightnessAt(render, [a, b], Cursor(1, 2), 2, y) == render(a, 4, y)
    ensures CurrentBrightnessAt(render, [a, b], Cursor(1, 2), 3, y) == render(b, 0, y)
    ensures CurrentBrightnessAt(render, [a, b], Cursor(1, 2), 4, y) == render(b, 1, y)
  {
  }

  /** `Animate::is_finished`. For a cursor with `pixel` in 0..5, the
      animation is finished exactly when the window has moved
      `5 * (length + 1)` columns or more. */
  predicate IsFinished(length: nat, c: Cursor)
    ensures c.pixel < 5 ==> (IsFinished(length, c) <==> Position(c) >= 5 * (length + 1))
  {
    c.index > length
  }

  /** `Animate::tick` on values: a finished animation stays where it is;
      otherwise the window moves one column. Reachable cursors stay
      reachable and `index` never decreases. */
  function Step(length: nat, c: Cursor): (n: Cursor)
    ensures IsFinished(length, c) ==> n == c
    ensures !IsFinished(length, c) ==> Position(n) == Position(c) + 1
    ensures Reachable(length, c) ==> Reachable(length, n)
    ensures n.index >= c.index
  {
    if IsFinished(length, c) then c else Next(c)
  }

  /** The cursor after k calls of `Animate::tick`. */
  function Run(length: nat, c: Cursor, k: nat): Cursor
    decreases k
  {
    if k == 0 then c else Run(length, Step(length, c), k - 1)
  }

  /** While the animation is running, k ticks move the window k columns. */
  lemma {:induction false} RunAdvances(length: nat, c: Cursor, k: nat)
    requires c.pixel < 5 && Position(c) + k <= 5 * (length + 1)
    ensures Run(length, c, k).pixel < 5
    ensures Position(Run(length, c, k)) == Position(c) + k
    decreases k
  {
    if k > 0 {
      assert !IsFinished(length, c);
      RunAdvances(length, Step(length, c), k - 1);
    }
  }

  /** The only cursor with `pixel` in 0..5 whose window has moved exactly
      `5 * (length + 1)` columns is `(length + 1, 0)`. */
  lemma TerminalCursor(length: nat, c: Cursor)
    requires c.pixel < 5 && Position(c) == 5 * (length + 1)
    ensures c == Cursor(length + 1, 0)
  {
  }

  /** From any cursor, as many ticks as the window still has to travel
      reach the terminal state `(length + 1, 0)`. */
  lemma RunToEnd(length: nat, c: Cursor, k: nat)
    requires c.pixel < 5 && Position(c) + k == 5 * (length + 1)
    ensures Run(length, c, k) == Cursor(length + 1, 0)
  {
    RunAdvances(length, c, k);
    TerminalCursor(length, Run(length, c, k));
  }

  /** Ticking never leaves the reachable cursors. */
  lemma {:induction false} RunStaysReachable(length: nat, c: Cursor, k: nat)
    requires Reachable(length, c)
    ensures Reachable(length, Run(length, c, k))
    decreases k
  {
    if k > 0 {
      RunStaysReachable(length, Step(length, c), k - 1);
    }
  }

  /** Between two cursors with `pixel` in 0..5, the second no further than
      the terminal state, the ticks needed are the columns between them. */
  lemma RunBetween(length: nat, c: Cursor, d: Cursor, k: nat)
    requires c.pixel < 5 && d.pixel < 5
    requires Position(c) + k == Position(d) <= 5 * (length + 1)
    ensures Run(length, c, k) == d
  {
    var e := Run(length, c, k);
    RunAdvances(length, c, k);
    PositionDeterminesCursor(d);
    PositionDeterminesCursor(e);
  }

  /** From the reset state, `5 * (length + 1)` ticks reach the terminal
      state `(length + 1, 0)`, which is finished. */
  lemma FinishesAfterExactly(length: nat)
    ensures Run(length, Start, 5 * (length + 1)) == Cursor(length + 1, 0)
    ensures IsFinished(length, Run(length, Start, 5 * (length + 1)))
  {
    RunToEnd(length, Start, 5 * (length + 1));
  }

  /** From the reset state, no fewer than `5 * (length + 1)` ticks reach a
      finished state. */
  lemma RunningBeforeEnd(length: nat)
    ensures forall k :: 0 <= k < 5 * (length + 1) ==> !IsFinished(length, Run(length, Start, k))
  {
    forall k | 0 <= k < 5 * (length + 1)
      ensures !IsFinished(length, Run(length, Start, k))
    {
      RunAdvances(length, Start, k);
    }
  }

  /** Every reachable cursor is reached from the reset state, by as many
      ticks as its position. */
  lemma ReachedFromStart(length: nat, c: Cursor)
    requires Reachable(length, c)
    ensures c == Run(length, Start, Position(c))
  {
    assert Position(c) <= 5 * (length + 1) by {
      if c.index <= length {
        assert 5 * c.index <= 5 * length;
      }
    }
    RunFromStart(length, c);
  }

  lemma RunFromStart(length: nat, c: Cursor)
    requires c.pixel < 5 && Position(c) <= 5 * (length + 1)
    ensures c == Run(length, Start, Position(c))
  {
    RunBetween(length, Start, c, Position(c));
  }

  /** A finished animation is absorbing: any number of further ticks
      changes nothing. */
  lemma {:induction false} FinishedIsAbsorbing(length: nat, c: Cursor, k: nat)
    requires IsFinished(length, c)
    ensures Run(length, c, k) == c
    decreases k
  {
    if k > 0 {
      FinishedIsAbsorbing(length, Step(length, c), k - 1);
    }
  }

  /** The blanket `Animate::tick` for any scrollable whose state is `state`
      and whose sequence has `length` subimages. */
  method AnimateTick(state: ScrollingState, length: nat)
    modifies state
    ensures state.Value() == Step(length, old(state.Value()))
  {
    if !IsFinished(length, state.Value()) {
      state.Tick();
    }
  }
}
