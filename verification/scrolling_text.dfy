/** Scrolling ascii text horizontally (src/scrolling_text.rs).

    Both text scrollers turn each byte of their message into a glyph image
    and scroll the glyphs with the engine of module Scrolling. */
module Text {
  import opened Image
  import opened Scrolling

  /** The glyph table `font::character`: a total map from a byte to a 5×5
      image, given to the model as a parameter. */
  type Font = bv8 -> BitImage

  /** The subimages of a message: glyph i is the font's image of byte i. */
  function Glyphs(font: Font, message: seq<bv8>): (images: seq<BitImage>)
    ensures |images| == |message|
    ensures forall i :: 0 <= i < |message| ==> images[i] == font(message[i])
  {
    seq(|message|, i requires 0 <= i < |message| => font(message[i]))
  }

  /** A frame of scrolled glyphs is two-level, like each glyph: every pixel
      is either off or at full brightness. */
  lemma GlyphFrameIsTwoLevel(font: Font, message: seq<bv8>, c: Cursor, x: Coord, y: Coord)
    requires c.pixel < 5
    ensures var b := CurrentBrightnessAt(Image.BrightnessAt, Glyphs(font, message), c, x, y);
      b == 0 || b == MAX_BRIGHTNESS
  {
  }

  /** A message that has scrolled on completely shows, at `pixel == 0`, the
      glyph of byte `index - 1`. */
  lemma GlyphFullFrame(font: Font, message: seq<bv8>, c: Cursor, x: Coord, y: Coord)
    ensures c.pixel == 0 && 1 <= c.index <= |message| ==>
      CurrentBrightnessAt(Image.BrightnessAt, Glyphs(font, message), c, x, y)
        == Image.BrightnessAt(font(message[c.index - 1]), x, y)
  {
  }

  /** An empty message: every frame is blank, and the animation finishes
      after five ticks from the reset state (and not before, by
      `EmptyMessageRunning`). */
  lemma EmptyMessage(font: Font, c: Cursor, x: Coord, y: Coord)
    requires c.pixel < 5
    ensures CurrentBrightnessAt(Image.BrightnessAt, Glyphs(font, []), c, x, y) == 0
    ensures Run(0, Start, 5) == Cursor(1, 0) && IsFinished(0, Run(0, Start, 5))
  {
    FinishesAfterExactly(0);
  }

  /** An empty message is still running after each of the first four ticks
      from the reset state. */
  lemma EmptyMessageRunning()
    ensures forall k :: 0 <= k < 5 ==> !IsFinished(0, Run(0, Start, k))
  {
    forall k | 0 <= k < 5
      ensures !IsFinished(0, Run(0, Start, k))
    {
      RunAdvances(0, Start, k);
    }
  }

  /** A scroller over a borrowed byte string. */
  class ScrollingStaticText {
    var message: seq<bv8>
    const state: ScrollingState

    ghost predicate Valid()
      reads this, state
    {
      Reachable(|message|, state.Value())
    }

    /** `Default`: an empty message, at the start of the animation. */
    constructor ()
      ensures Valid() && fresh(state)
      ensures message == [] && state.Value() == Start
    {
      message := [];
      state := new ScrollingState();
    }

    /** `set_message`: replaces the message and resets the animation. */
    method SetMessage(m: seq<bv8>)
      modifies this, state
      ensures Valid()
      ensures message == m && state.Value() == Start
    {
      message := m;
      Reset();
    }

    /** `Scrollable::length`: the number of subimages, one per byte of the
      message, whatever the font. */
    function Length(): (n: nat)
      reads this
      ensures forall font: Font :: |Glyphs(font, message)| == n
    {
      |message|
    }

    /** `Scrollable::subimage`, for every index at once: one glyph per byte
      of the message. */
    function Subimages(font: Font): (images: seq<BitImage>)
      reads this
      ensures |images| == Length()
      ensures forall i :: 0 <= i < Length() ==> images[i] == font(message[i])
    {
      Glyphs(font, message)
    }

    /** `Animate::is_finished`: once valid, only the terminal state is
      finished. */
    predicate IsFinished()
      reads this, state
      ensures Valid() ==> (IsFinished() <==> state.Value() == Cursor(Length() + 1, 0))
    {
      Scrolling.IsFinished(Length(), state.Value())
    }

    /** `Animate::reset`. */
    method Reset()
      modifies state
      ensures Valid() && state.Value() == Start
    {
      state.Reset();
    }

    /** `Animate::tick`: one step of the animation, none once finished. */
    method Tick()
      requires Valid()
      modifies state
      ensures Valid() && state.Value() == Step(Length(), old(state.Value()))
    {
      AnimateTick(state, Length());
    }

    /** `Render::brightness_at`: the current frame. It is two-level, blank
      once finished, and shows the whole glyph of byte `index - 1` at
      `pixel == 0`. */
    function BrightnessAt(font: Font, x: Coord, y: Coord): (b: nat)
      reads this, state
      requires Valid()
      ensures b == 0 || b == MAX_BRIGHTNESS
      ensures IsFinished() ==> b == 0
      ensures state.pixel == 0 && 1 <= state.index <= Length() ==>
        b == Image.BrightnessAt(font(message[state.index - 1]), x, y)
    {
      GlyphFrameIsTwoLevel(font, message, state.Value(), x, y);
      GlyphFullFrame(font, message, state.Value(), x, y);
      CurrentBrightnessAt(Image.BrightnessAt, Subimages(font), state.Value(), x, y)
    }
  }

  /** Why `set_message` on a buffered scroller returned. */
  datatype Outcome = Done | Panicked(reason: string)

  /** A scroller over its own copy of a message of at most N bytes, held in
      a fixed buffer of capacity N (`message.Length`). */
  class ScrollingBufferedText {
    var length: nat
    const message: array<bv8>
    const state: ScrollingState

    ghost predicate Valid()
      reads this, state
    {
      length <= message.Length && Reachable(length, state.Value())
    }

    /** The stored message: the first `length` bytes of the buffer. */
    ghost function Contents(): seq<bv8>
      reads this, message
      requires length <= message.Length
    {
      message[..length]
    }

    /** `Default` for capacity n: an empty message in an all-zero buffer, at
      the start of the animation. */
    constructor (n: nat)
      ensures Valid() && fresh(message) && fresh(state)
      ensures message.Length == n && message[..] == seq(n, _ => 0)
      ensures length == 0 && state.Value() == Start
    {
      length := 0;
      message := new bv8[n](_ => 0);
      state := new ScrollingState();
    }

    /** `set_message`: a message longer than the buffer panics and changes
      nothing (it is never truncated); otherwise it is copied into the front
      of the buffer, the bytes after it are left as they were, and the
      animation is reset. */
    method SetMessage(m: seq<bv8>) returns (outcome: Outcome)
      requires Valid()
      modifies this, message, state
      ensures Valid()
      ensures |m| > message.Length ==>
        && outcome == Panicked("message too long")
        && length == old(length) && message[..] == old(message[..]) && state.Value() == old(state.Value())
      ensures |m| <= message.Length ==>
        && outcome == Done
        && length == |m| && Contents() == m
        && message[|m|..] == old(message[..])[|m|..]
        && state.Value() == Start
    {
      if |m| > message.Length {
        return Panicked("message too long");
      }
      length := |m|;
      forall i | 0 <= i < |m| {
        message[i] := m[i];
      }
      Reset();
      outcome := Done;
    }

    /** `Scrollable::length`: the stored length, never above the capacity. */
    function Length(): (n: nat)
      reads this, state
      requires Valid()
      ensures n <= message.Length
    {
      length
    }

    /** `Scrollable::subimage`, for every index at once: one glyph per byte
      of the stored message; bytes past `length` are not shown. */
    function Subimages(font: Font): (images: seq<BitImage>)
      reads this, message, state
      requires Valid()
      ensures |images| == Length()
      ensures forall i :: 0 <= i < Length() ==> images[i] == font(message[i])
    {
      Glyphs(font, message[..length])
    }

    /** `Animate::is_finished`: once valid, only the terminal state is
      finished. */
    predicate IsFinished()
      reads this, state
      ensures Valid() ==> (IsFinished() <==> state.Value() == Cursor(length + 1, 0))
    {
      Scrolling.IsFinished(length, state.Value())
    }

    /** `Animate::reset`. */
    method Reset()
      requires length <= message.Length
      modifies state
      ensures Valid() && state.Value() == Start
    {
      state.Reset();
    }

    /** `Animate::tick`: one step of the animation, none once finished. */
    method Tick()
      requires Valid()
      modifies state
      ensures Valid() && state.Value() == Step(length, old(state.Value()))
    {
      AnimateTick(state, length);
    }

    /** `Render::brightness_at`: the current frame. It is two-level, blank
      once finished, and shows the whole glyph of byte `index - 1` at
      `pixel == 0`. */
    function BrightnessAt(font: Font, x: Coord, y: Coord): (b: nat)
      reads this, message, state
      requires Valid()
      ensures b == 0 || b == MAX_BRIGHTNESS
      ensures IsFinished() ==> b == 0
      ensures state.pixel == 0 && 1 <= state.index <= length ==>
        b == Image.BrightnessAt(font(message[state.index - 1]), x, y)
    {
      GlyphFrameIsTwoLevel(font, message[..length], state.Value(), x, y);
      GlyphFullFrame(font, message[..length], state.Value(), x, y);
      CurrentBrightnessAt(Image.BrightnessAt, Subimages(font), state.Value(), x, y)
    }
  }
}
