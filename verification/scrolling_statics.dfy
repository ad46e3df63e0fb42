/** Scrolling arbitrary static images horizontally (src/scrolling_statics.rs). */
module Statics {
  import opened Image
  import opened Scrolling

  /** A scroller over a borrowed slice of images of any type T that can be
      rendered with `render`. */
  class ScrollingStatics<T> {
    var images: seq<T>
    const state: ScrollingState

    ghost predicate Valid()
      reads this, state
    {
      Reachable(|images|, state.Value())
    }

    /** `Default`: no images, at the start of the animation. */
    constructor ()
      ensures Valid() && fresh(state)
      ensures images == [] && Length() == 0 && state.Value() == Start
    {
      images := [];
      state := new ScrollingState();
    }

    /** `set_images`: replaces the images and resets the animation; nothing
      else changes. */
    method SetImages(newImages: seq<T>)
      modifies this, state
      ensures Valid()
      ensures images == newImages && state.Value() == Start
    {
      images := newImages;
      Reset();
    }

    /** `Scrollable::length`: the number of images given. */
    function Length(): (n: nat)
      reads this
      ensures n == |images|
    {
      |images|
    }

    /** `Scrollable::subimage`: image i, as it was given. */
    function Subimage(i: nat): (image: T)
      reads this
      requires i < Length()
      ensures image in images
    {
      images[i]
    }

    /** `Animate::is_finished`: once valid, only the terminal state is
      finished. */
    predicate IsFinished()
      reads this, state
      ensures Valid() ==> (IsFinished() <==> state.Value() == Cursor(Length() + 1, 0))
    {
      Scrolling.IsFinished(Length(), state.Value())
    }

    /** `Animate::reset`. */
    method Reset()
      modifies state
      ensures Valid() && state.Value() == Start
    {
      state.Reset();
    }

    /** `Animate::tick`: one step of the animation, none once finished. */
    method Tick()
      requires Valid()
      modifies state
      ensures Valid() && state.Value() == Step(Length(), old(state.Value()))
    {
      AnimateTick(state, Length());
    }

    /** `Render::brightness_at`: the current frame, read through `Subimage`.
      It is blank once finished and shows the whole of subimage `index - 1`
      at `pixel == 0`. */
    function BrightnessAt(render: Render<T>, x: Coord, y: Coord): (b: nat)
      reads this, state
      requires Valid()
      ensures IsFinished() ==> b == 0
      ensures state.pixel == 0 && 1 <= state.index <= Length() ==>
        b == render(Subimage(state.index - 1), x, y)
    {
      FullFrame(render, images, state.Value(), x, y);
      CurrentBrightnessAt(render, images, state.Value(), x, y)
    }
  }
}
