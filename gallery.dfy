/**
 * The media gallery: which item the fullscreen viewer shows, how the arrow
 * keys and swipes move through the items, and the compact card grid.
 */
module Gallery {
  import opened Wrappers
  import opened MeetModel

  datatype Direction = Prev | Next

  /** One step through `n` items, wrapping at both ends. */
  function Step(direction: Direction, i: int, n: nat): (r: int)
    requires 0 <= i < n
    ensures 0 <= r < n
    ensures direction == Next ==> (if i == n - 1 then r == 0 else r == i + 1)
    ensures direction == Prev ==> (if i == 0 then r == n - 1 else r == i - 1)
  {
    ModBelowTwice(i - 1 + n, n);
    ModBelowTwice(i + 1, n);
    match direction
    case Prev => (i - 1 + n) % n
    case Next => (i + 1) % n
  }

  lemma ModBelowTwice(x: int, n: int)
    requires n > 0 && 0 <= x < 2 * n
    ensures x % n == (if x < n then x else x - n)
  {
    if x < n {
      assert x == 0 * n + x;
    } else {
      assert x == 1 * n + (x - n);
    }
  }

  /** A step and the opposite step undo each other. */
  lemma StepsUndo(i: int, n: nat)
    requires 0 <= i < n
    ensures Step(Prev, Step(Next, i, n), n) == i
    ensures Step(Next, Step(Prev, i, n), n) == i
  {
  }

  /** A key press as the viewer's `onKeyDown` sees it. */
  datatype Key = ArrowLeft | ArrowRight | Escape | OtherKey

  /** A swipe is a horizontal move of more than this many pixels. */
  const SwipeThreshold: real := 50.0

  /** The gallery and its fullscreen viewer on a non-empty media list; an empty
      list renders nothing and has no handlers. `touchStart` belongs to the
      viewer, which is mounted only while it is open. */
  class GalleryState {
    const media: seq<MediaItem>
    var selectedIndex: Option<int>
    var isFullscreen: bool
    var touchStart: Option<real>

    ghost predicate Valid()
      reads this
    {
      |media| > 0 &&
      (selectedIndex.Some? ==> 0 <= selectedIndex.value < |media|) &&
      (isFullscreen <==> selectedIndex.Some?)
    }

    /** Nothing selected, viewer closed. */
    constructor (media: seq<MediaItem>)
      requires |media| > 0
      ensures Valid()
      ensures this.media == media && selectedIndex.None? && !isFullscreen && touchStart.None?
    {
      this.media := media;
      selectedIndex := None;
      isFullscreen := false;
      touchStart := None;
    }

    /** `openMedia`: the tile's own index, viewer open. */
    method OpenMedia(index: int)
      requires Valid() && 0 <= index < |media|
      modifies this
      ensures Valid()
      ensures selectedIndex == Some(index) && isFullscreen && touchStart == old(touchStart)
    {
      selectedIndex := Some(index);
      isFullscreen := true;
    }

    /** `closeFullscreen`: back to nothing selected; the viewer and its touch
        state go away. */
    method CloseFullscreen()
      requires Valid()
      modifies this
      ensures Valid()
      ensures selectedIndex.None? && !isFullscreen && touchStart.None?
    {
      isFullscreen := false;
      selectedIndex := None;
      touchStart := None;
    }

    /** `navigateMedia`: nothing happens without a selection. */
    method NavigateMedia(direction: Direction)
      requires Valid()
      modifies this
      ensures Valid()
      ensures old(selectedIndex).None? ==> selectedIndex.None?
      ensures old(selectedIndex).Some? ==>
        selectedIndex == Some(Step(direction, old(selectedIndex).value, |media|))
      ensures isFullscreen == old(isFullscreen) && touchStart == old(touchStart)
    {
      if selectedIndex.None? {
        return;
      }
      selectedIndex := Some(Step(direction, selectedIndex.value, |media|));
    }

    /** `handleKeyDown`: left goes back, right goes on, Escape closes, any
        other key does nothing. */
    method HandleKeyDown(key: Key)
      requires Valid()
      modifies this
      ensures Valid()
      ensures key == ArrowLeft && old(selectedIndex).Some? ==>
        selectedIndex == Some(Step(Prev, old(selectedIndex).value, |media|))
      ensures key == ArrowRight && old(selectedIndex).Some? ==>
        selectedIndex == Some(Step(Next, old(selectedIndex).value, |media|))
      ensures key == Escape ==> selectedIndex.None? && !isFullscreen
      ensures key != Escape ==> isFullscreen == old(isFullscreen) && touchStart == old(touchStart)
      ensures key == OtherKey || old(selectedIndex).None? ==> selectedIndex == old(selectedIndex)
    {
      if key == ArrowLeft {
        NavigateMedia(Prev);
      }
      if key == ArrowRight {
        NavigateMedia(Next);
      }
      if key == Escape {
        CloseFullscreen();
      }
    }

    /** `handleTouchStart`: remembers where the finger went down. */
    method HandleTouchStart(x: real)
      requires Valid()
      modifies this
      ensures Valid()
      ensures touchStart == Some(x)
      ensures selectedIndex == old(selectedIndex) && isFullscreen == old(isFullscreen)
    {
      touchStart := Some(x);
    }

    /** `handleTouchEnd`. A start of 0 is falsy and counts as no touch at all,
        which also leaves it in place. Otherwise a move of more than the
        threshold to the left goes on, to the right goes back, and the start
        is cleared either way. */
    method HandleTouchEnd(x: real)
      requires Valid()
      modifies this
      ensures Valid()
      ensures isFullscreen == old(isFullscreen)
      ensures old(touchStart).None? || old(touchStart) == Some(0.0) ==>
        selectedIndex == old(selectedIndex) && touchStart == old(touchStart)
      ensures old(touchStart).Some? && old(touchStart) != Some(0.0) ==> touchStart.None?
      ensures old(touchStart).Some? && old(touchStart) != Some(0.0) && old(selectedIndex).Some? ==>
        var diff := old(touchStart).value - x;
        selectedIndex ==
          (if diff > SwipeThreshold then Some(Step(Next, old(selectedIndex).value, |media|))
           else if diff < -SwipeThreshold then Some(Step(Prev, old(selectedIndex).value, |media|))
           else old(selectedIndex))
      ensures old(selectedIndex).None? ==> selectedIndex.None?
    {
      if touchStart.None? || touchStart == Some(0.0) {
        return;
      }
      var diff := touchStart.value - x;
      if diff > SwipeThreshold || -diff > SwipeThreshold {
        if diff > 0.0 {
          NavigateMedia(Next);
        } else {
          NavigateMedia(Prev);
        }
      }
      touchStart := None;
    }
  }

  /** A tile of the compact card grid, with the "+k" overlay when it has one. */
  datatype Tile = Tile(item: MediaItem, index: nat, overlay: Option<nat>)

  /** The card view: the first three items; the third carries the count of the
      items not shown when there are any. */
  function CardTiles(media: seq<MediaItem>): (r: seq<Tile>)
    ensures |r| == if |media| < 3 then |media| else 3
    ensures forall i :: 0 <= i < |r| ==> r[i].item == media[i] && r[i].index == i
    ensures forall i :: 0 <= i < |r| ==> (r[i].overlay.Some? <==> i == 2 && |media| > 3)
  {
    var shown := if |media| < 3 then media else media[..3];
    seq(|shown|, i requires 0 <= i < |shown| =>
      Tile(shown[i], i, if i == 2 && |media| - 3 > 0 then Some(|media| - 3) else None))
  }

  /** The tiles plus the overlay count account for every item. */
  lemma TilesAccountForAll(media: seq<MediaItem>)
    ensures var r := CardTiles(media);
      |media| > 3 ==> |r| == 3 && r[2].overlay == Some(|media| - 3) && |r| + r[2].overlay.value == |media|
    ensures |media| <= 3 ==> |CardTiles(media)| == |media|
  {
  }
}
