/**
 * The CPU side of src/state.rs: the staging buffer `diffuse_image_temp` that
 * `draw_current_image` letterboxes the current entry into, the message line,
 * the texture double-buffer index, and the navigation entry points
 * `next_image`, `first_image` and `last_image`.
 */
module Display {
  import opened Wrappers
  import opened Utils
  import opened Images
  import opened Navigation
  import opened Catalog
  import opened Decoding
  import opened Loader

  /**
   * The letterbox of `src` in a `w` x `h` buffer: the source is placed at
   * the centring offsets on each axis; what it covers shows the source
   * pixel, everything else the background colour.
   */
  function LetterboxPixel(w: nat, h: nat, bg: Rgba, src: Image, x: nat, y: nat): (c: Rgba)
    ensures src.width == 0 || src.height == 0 ==> c == bg
    ensures src.width <= w && src.height <= h && (x >= w || y >= h) ==> c == bg
  {
    var left := CenteredOffset(w, src.width);
    var top := CenteredOffset(h, src.height);
    if left <= x < left + src.width && top <= y < top + src.height then Pixel(src, x - left, y - top)
    else bg
  }

  /** Every pixel of the letterbox is the background colour or some pixel of the source. */
  lemma LetterboxPixelOrigin(w: nat, h: nat, bg: Rgba, src: Image, x: nat, y: nat)
    ensures LetterboxPixel(w, h, bg, src, x, y) == bg
      || exists sx: nat, sy: nat :: sx < src.width && sy < src.height && LetterboxPixel(w, h, bg, src, x, y) == Pixel(src, sx, sy)
  {
    var left := CenteredOffset(w, src.width);
    var top := CenteredOffset(h, src.height);
    if left <= x < left + src.width && top <= y < top + src.height {
      assert LetterboxPixel(w, h, bg, src, x, y) == Pixel(src, x - left, y - top);
    }
  }

  /** An image that fits is shown whole: each source pixel lands inside the buffer at its centred position. */
  lemma LetterboxShowsWholeImage(w: nat, h: nat, bg: Rgba, src: Image, sx: nat, sy: nat)
    requires src.width <= w && src.height <= h
    requires sx < src.width && sy < src.height
    ensures CenteredOffset(w, src.width) + sx < w && CenteredOffset(h, src.height) + sy < h
    ensures LetterboxPixel(w, h, bg, src, CenteredOffset(w, src.width) + sx, CenteredOffset(h, src.height) + sy)
      == Pixel(src, sx, sy)
  {
  }

  /** An image larger than the buffer on both axes is cropped to its top-left corner. */
  lemma LetterboxCropsLargeImage(w: nat, h: nat, bg: Rgba, src: Image, x: nat, y: nat)
    requires src.width >= w && src.height >= h
    requires x < w && y < h
    ensures LetterboxPixel(w, h, bg, src, x, y) == Pixel(src, x, y)
  {
  }

  /** Outside the copied rectangle the background colour shows. */
  lemma LetterboxBackground(w: nat, h: nat, bg: Rgba, src: Image, x: nat, y: nat)
    requires x < w && y < h
    requires x < CenteredOffset(w, src.width) || x >= CenteredOffset(w, src.width) + src.width
          || y < CenteredOffset(h, src.height) || y >= CenteredOffset(h, src.height) + src.height
    ensures LetterboxPixel(w, h, bg, src, x, y) == bg
  {
  }

  /** The message `draw_current_image` shows for an entry that failed to load. */
  function LoadErrorMessage(path: Option<Path>, emsg: string): (m: string)
    ensures |m| >= 12 + |emsg|
    ensures m[..12] == "load error:\n" && m[|m| - |emsg|..] == emsg
    ensures path.Some? ==> |m| >= 14 + |path.value| && m[13..13 + |path.value|] == path.value
    ensures path.None? ==> m == "load error:\n" + emsg
  {
    if path.Some? then "load error:\n" + "\"" + path.value + "\"" + "\n" + emsg
    else "load error:\n" + emsg
  }

  /** The double-buffer index after a draw: 1 after the primary texture (0), 0 otherwise. */
  function ToggledTextureIndex(i: nat): (j: nat)
    ensures j <= 1
    ensures (j == 1) <==> (i == 0)
  {
    if i == 0 then 1 else 0
  }

  /** Two draws in a row return to the texture index they started from, once it is 0 or 1. */
  lemma ToggledTextureIndexTwice(i: nat)
    requires i <= 1
    ensures ToggledTextureIndex(ToggledTextureIndex(i)) == i
  {
  }

  class GraphicsState {
    /** `diffuse_image_temp`, indexed `[x, y]`; its dimensions are the texture size. */
    const buffer: array2<Rgba>
    const bgColor: Rgba
    var mainTextureIndex: nat
    var message: Option<string>

    /** The staging buffer starts filled with the background colour. */
    constructor(width: nat, height: nat, bgColor: Rgba)
      ensures fresh(buffer) && buffer.Length0 == width && buffer.Length1 == height
      ensures forall x, y :: 0 <= x < width && 0 <= y < height ==> buffer[x, y] == bgColor
      ensures this.bgColor == bgColor && mainTextureIndex == 0 && message == None
    {
      this.buffer := new Rgba[width, height]((x, y) => bgColor);
      this.bgColor := bgColor;
      this.mainTextureIndex := 0;
      this.message := None;
    }

    /** `update_message`: the on-screen message becomes `text`. */
    method UpdateMessage(text: string)
      modifies this`message
      ensures message == Some(text)
    {
      message := Some(text);
    }

    /** Every pixel of the buffer holds the background colour. */
    ghost predicate Filled()
      reads buffer
    {
      forall x, y :: 0 <= x < buffer.Length0 && 0 <= y < buffer.Length1 ==> buffer[x, y] == bgColor
    }

    /** The buffer holds the letterbox of `src` on the background colour. */
    ghost predicate Letterboxed(src: Image)
      reads buffer
    {
      forall x, y :: 0 <= x < buffer.Length0 && 0 <= y < buffer.Length1 ==>
        buffer[x, y] == LetterboxPixel(buffer.Length0, buffer.Length1, bgColor, src, x, y)
    }

    /** The first pixel loop of `draw_current_image`: every buffer pixel becomes the background colour. */
    method FillBackground()
      modifies buffer
      ensures Filled()
    {
      for y := 0 to buffer.Length1
        invariant forall i, j :: 0 <= i < buffer.Length0 && 0 <= j < y ==> buffer[i, j] == bgColor
      {
        for x := 0 to buffer.Length0
          invariant forall i, j :: 0 <= i < buffer.Length0 && 0 <= j < y ==> buffer[i, j] == bgColor
          invariant forall i :: 0 <= i < x ==> buffer[i, y] == bgColor
        {
          buffer[x, y] := bgColor;
        }
      }
    }

    /**
     * The second pixel loop: every source pixel, row by row, is written at the
     * centring offsets when that position lies inside the buffer.
     */
    method PutCentered(src: Image)
      modifies buffer
      ensures forall x, y :: 0 <= x < buffer.Length0 && 0 <= y < buffer.Length1 ==>
        buffer[x, y] == LetterboxPixel(buffer.Length0, buffer.Length1, old(buffer[x, y]), src, x, y)
      ensures old(Filled()) ==> Letterboxed(src)
    {
      var padLeft := CenteredOffset(buffer.Length0, src.width);
      var padTop := CenteredOffset(buffer.Length1, src.height);
      for srcY := 0 to src.height
        invariant forall x, y :: 0 <= x < buffer.Length0 && 0 <= y < buffer.Length1 ==>
          buffer[x, y] == (if padLeft <= x < padLeft + src.width && padTop <= y < padTop + srcY
                           then Pixel(src, x - padLeft, y - padTop) else old(buffer[x, y]))
      {
        for srcX := 0 to src.width
          invariant forall x, y :: 0 <= x < buffer.Length0 && 0 <= y < buffer.Length1 ==>
            buffer[x, y] == (if (padLeft <= x < padLeft + src.width && padTop <= y < padTop + srcY)
                               || (padLeft <= x < padLeft + srcX && y == padTop + srcY)
                             then Pixel(src, x - padLeft, y - padTop) else old(buffer[x, y]))
        {
          var dstX := padLeft + srcX;
          var dstY := padTop + srcY;
          if dstX < buffer.Length0 && dstY < buffer.Length1 {
            buffer[dstX, dstY] := Pixel(src, srcX, srcY);
          }
        }
      }
    }
  }

  class State {
    const graphics: GraphicsState
    const loader: ImageLoader
    const defaultTimerSecs: u32
    var currentTimerSecs: u32
    var paused: bool
    const pauseAtLast: bool

    /**
     * `State::new`: the timer starts at its default, and a zero timer starts
     * paused; then the current entry is drawn once.
     */
    constructor(graphics: GraphicsState, loader: ImageLoader, timerSecs: u32, pauseAtLast: bool, dec: Decoder)
      modifies graphics.buffer, graphics`message, graphics`mainTextureIndex
      modifies loader`cache, loader`preloadQueue, loader`currentPath
      ensures this.graphics == graphics && this.loader == loader
      ensures defaultTimerSecs == timerSecs && currentTimerSecs == timerSecs
      ensures paused == (timerSecs == 0) && this.pauseAtLast == pauseAtLast
      ensures ShowsCurrent()
      ensures loader.currentIndex in old(loader.cache) ==> loader.cache == old(loader.cache)
      ensures loader.currentIndex !in old(loader.cache) ==>
        loader.cache == old(loader.cache)[loader.currentIndex := loader.NewEntry(loader.currentIndex, dec)]
      ensures loader.cache[loader.currentIndex].emsg.Some? ==>
        graphics.message == Some(LoadErrorMessage(loader.cache[loader.currentIndex].path, loader.cache[loader.currentIndex].emsg.value))
      ensures loader.cache[loader.currentIndex].emsg.None? ==> graphics.message == old(graphics.message)
      ensures graphics.mainTextureIndex == ToggledTextureIndex(old(graphics.mainTextureIndex))
    {
      this.graphics := graphics;
      this.loader := loader;
      this.defaultTimerSecs := timerSecs;
      this.currentTimerSecs := timerSecs;
      this.paused := timerSecs == 0;
      this.pauseAtLast := pauseAtLast;
      new;
      DrawCurrentImage(dec);
    }

    /** The staging buffer holds the letterbox of `entry` on the background colour. */
    ghost predicate Shows(entry: ImageCache)
      reads graphics.buffer
    {
      graphics.Letterboxed(entry.image)
    }

    /**
     * The screen shows the current entry: it is cached, the buffer holds its
     * letterbox, its path is the current path, and the preload queue is the
     * plan around it.
     */
    ghost predicate ShowsCurrent()
      reads loader, graphics.buffer
    {
      && loader.currentIndex in loader.cache
      && Shows(loader.cache[loader.currentIndex])
      && loader.currentPath == loader.cache[loader.currentIndex].path
      && loader.preloadQueue == PreloadPlan(|loader.scannedPaths|, loader.currentIndex, loader.cacheExtent)
    }

    /**
     * What a call of `draw_current_image` did: the current entry is cached
     * (loaded if it was not) and shown, a load error is put on screen, and
     * the texture index is toggled.
     */
    twostate predicate Drew(dec: Decoder)
      reads loader, graphics, graphics.buffer
    {
      var index := loader.currentIndex;
      && ShowsCurrent()
      && (index in old(loader.cache) ==> loader.cache == old(loader.cache))
      && (index !in old(loader.cache) ==> loader.cache == old(loader.cache)[index := loader.NewEntry(index, dec)])
      && (loader.cache[index].emsg.Some? ==>
            graphics.message == Some(LoadErrorMessage(loader.cache[index].path, loader.cache[index].emsg.value)))
      && (loader.cache[index].emsg.None? ==> graphics.message == old(graphics.message))
      && graphics.mainTextureIndex == ToggledTextureIndex(old(graphics.mainTextureIndex))
    }

    /** `draw_current_image`. */
    method DrawCurrentImage(dec: Decoder)
      modifies graphics.buffer, graphics`message, graphics`mainTextureIndex
      modifies loader`cache, loader`preloadQueue, loader`currentPath
      ensures Drew(dec)
    {
      graphics.FillBackground();
      var imageCache := loader.GetCurrent(dec);
      if imageCache.emsg.Some? {
        graphics.UpdateMessage(LoadErrorMessage(imageCache.path, imageCache.emsg.value));
      }
      graphics.PutCentered(imageCache.image);
      loader.currentPath := imageCache.path;
      var isPrimary := graphics.mainTextureIndex == 0;
      graphics.mainTextureIndex := if isPrimary then 1 else 0;
    }

    /** `next_image`: move by `amount` with wrap-around, then draw. */
    method NextImage(amount: int, dec: Decoder)
      modifies graphics.buffer, graphics`message, graphics`mainTextureIndex
      modifies loader`cache, loader`preloadQueue, loader`currentPath, loader`currentIndex
      ensures GetNextIndex(|loader.scannedPaths|, old(loader.currentIndex), amount).None? ==>
        loader.currentIndex == old(loader.currentIndex)
      ensures GetNextIndex(|loader.scannedPaths|, old(loader.currentIndex), amount).Some? ==>
        loader.currentIndex == GetNextIndex(|loader.scannedPaths|, old(loader.currentIndex), amount).value
      ensures Drew(dec)
    {
      loader.NextIndex(amount);
      DrawCurrentImage(dec);
    }

    /** `first_image`: go to the start of the catalog, then draw. */
    method FirstImage(dec: Decoder)
      modifies graphics.buffer, graphics`message, graphics`mainTextureIndex
      modifies loader`cache, loader`preloadQueue, loader`currentPath, loader`currentIndex
      ensures loader.currentIndex == 0
      ensures Drew(dec)
    {
      loader.currentIndex := 0;
      DrawCurrentImage(dec);
    }

    /** `last_image`: go to the final entry (index 0 on an empty catalog), then draw. */
    method LastImage(dec: Decoder)
      modifies graphics.buffer, graphics`message, graphics`mainTextureIndex
      modifies loader`cache, loader`preloadQueue, loader`currentPath, loader`currentIndex
      ensures loader.currentIndex == LastIndex(|loader.scannedPaths|)
      ensures Drew(dec)
    {
      loader.currentIndex := LastIndex(|loader.scannedPaths|);
      DrawCurrentImage(dec);
    }
  }
}
