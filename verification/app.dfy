/**
 * The sequential pieces of src/main.rs that drive the loader: one iteration
 * of the preload thread, the slideshow's "next image" event, the navigation
 * dispatch, the display-time keys and the dropped-file handler. Threads,
 * locks, channels and clocks are not modelled; elapsed-time tests are
 * boolean inputs.
 */
module App {
  import opened Utils
  import opened Navigation
  import opened Catalog
  import opened Decoding
  import opened Loader
  import opened Display
  import Wrappers

  /** `TIMER_VALUE_INCREMENT`: seconds added or removed by one key press. */
  const TIMER_VALUE_INCREMENT: u32 := 5

  /** The navigation requested by an input event. */
  datatype Nav = None | Next | Prev | Next10 | Prev10 | First | Last

  /** The catalog index a navigation request leads to from `current` in a catalog of `len` entries. */
  function NavTarget(len: nat, current: nat, nav: Nav): (target: nat)
    ensures current < len ==> target < len
    ensures nav == Last && len > 0 ==> IsLast(len, target)
  {
    match nav
    case None => current
    case Next => StepTarget(len, current, 1)
    case Prev => StepTarget(len, current, -1)
    case Next10 => StepTarget(len, current, 10)
    case Prev10 => StepTarget(len, current, -10)
    case First => 0
    case Last => LastIndex(len)
  }

  /** Where `next_index(amount)` leaves the position. */
  function StepTarget(len: nat, current: nat, amount: int): (target: nat)
    ensures len <= 1 ==> target == current
    ensures len > 1 ==> target < len && target == (current + amount) % len
  {
    var next := GetNextIndex(len, current, amount);
    if next.Some? then next.value else current
  }

  /** `Prev` undoes `Next` and `Prev10` undoes `Next10`, wrap-around included. */
  lemma NavStepsUndo(len: nat, current: nat)
    requires current < len
    ensures NavTarget(len, NavTarget(len, current, Next), Prev) == current
    ensures NavTarget(len, NavTarget(len, current, Next10), Prev10) == current
  {
    if len > 1 {
      GetNextIndexUndo(len, current, 1);
      GetNextIndexUndo(len, current, 10);
    }
  }

  /** `Last` reaches the final entry of a non-empty catalog, and `Next` from there wraps to the first. */
  lemma NavLastThenNextWraps(len: nat, current: nat)
    requires len > 1
    ensures IsLast(len, NavTarget(len, current, Last))
    ensures NavTarget(len, NavTarget(len, current, Last), Next) == 0
  {
    ModuloIsEuclidean(len, len);
  }

  /** The loader thread's state carried from one iteration to the next. */
  class PreloadWorker {
    var prevLoadNeeded: bool

    constructor()
      ensures !prevLoadNeeded
    {
      prevLoadNeeded := false;
    }

    /**
     * One iteration of the loader thread (its sleep aside): take the next
     * index off the preload queue; load it only when it is not cached,
     * keeping a failure as the placeholder with the error's text; trim the
     * cache when the previous iteration loaded and this one did not. The
     * thread unwraps the catalog lookup, so a queued index must lie in the
     * catalog.
     */
    method Step(loader: ImageLoader, dec: Decoder) returns (loadNeeded: bool)
      requires loader.preloadQueue != [] ==> loader.preloadQueue[0] < |loader.scannedPaths|
      modifies this, loader`preloadQueue, loader`cache
      ensures old(loader.preloadQueue) == [] ==> loader.preloadQueue == [] && !loadNeeded
      ensures old(loader.preloadQueue) != [] ==>
        loader.preloadQueue == old(loader.preloadQueue)[1..]
        && (loadNeeded <==> old(loader.preloadQueue)[0] !in old(loader.cache))
      ensures var idx := if old(loader.preloadQueue) == [] then 0 else old(loader.preloadQueue)[0];
        var loaded := if loadNeeded
          then old(loader.cache)[idx := LoadEntry(dec, loader.scannedPaths[idx], loader.textureSize, loader.resizeFilter)]
          else old(loader.cache);
        && (old(prevLoadNeeded) && !loadNeeded ==>
              Trimmed(loaded, loader.cache, loader.maxCacheSize, |loader.scannedPaths|, loader.currentIndex))
        && (!(old(prevLoadNeeded) && !loadNeeded) ==> loader.cache == loaded)
      ensures prevLoadNeeded == loadNeeded
    {
      var idx: nat;
      var path: Wrappers.Option<Path>;
      if loader.preloadQueue != [] {
        var index := loader.preloadQueue[0];
        loader.preloadQueue := loader.preloadQueue[1..];
        idx := index;
        loadNeeded := index !in loader.cache;
        path := Wrappers.Some(loader.scannedPaths[index]);
      } else {
        idx := 0;
        loadNeeded := false;
        path := Wrappers.None;
      }

      if loadNeeded {
        var entry := if path.Some? then LoadEntry(dec, path.value, loader.textureSize, loader.resizeFilter)
                     else MissingEntry();
        loader.cache := loader.cache[idx := entry];
      }
      ghost var loaded := loader.cache;

      if prevLoadNeeded && !loadNeeded {
        loader.LimitCache();
      } else {
        assert loader.cache == loaded;
      }

      prevLoadNeeded := loadNeeded;
    }
  }

  /**
   * The slideshow timer's `NextImage` event: with pause-at-last set, reaching
   * the final entry pauses instead of advancing; otherwise the next image is shown.
   */
  method OnNextImage(s: State, dec: Decoder)
    modifies s`paused
    modifies s.graphics.buffer, s.graphics`message, s.graphics`mainTextureIndex
    modifies s.loader`cache, s.loader`preloadQueue, s.loader`currentPath, s.loader`currentIndex
    ensures s.pauseAtLast && IsLast(|s.loader.scannedPaths|, old(s.loader.currentIndex)) ==>
      s.paused && unchanged(s.loader) && unchanged(s.graphics) && unchanged(s.graphics.buffer)
    ensures !(s.pauseAtLast && IsLast(|s.loader.scannedPaths|, old(s.loader.currentIndex))) ==>
      s.paused == old(s.paused)
      && s.loader.currentIndex == StepTarget(|s.loader.scannedPaths|, old(s.loader.currentIndex), 1)
      && s.Drew(dec)
  {
    if s.pauseAtLast && IsLast(|s.loader.scannedPaths|, s.loader.currentIndex) {
      s.paused := true;
      return;
    }
    s.NextImage(1, dec);
  }

  /** The navigation dispatch at the end of the window-event handler. */
  method Navigate(s: State, nav: Nav, dec: Decoder)
    modifies s.graphics.buffer, s.graphics`message, s.graphics`mainTextureIndex
    modifies s.loader`cache, s.loader`preloadQueue, s.loader`currentPath, s.loader`currentIndex
    ensures s.loader.currentIndex == NavTarget(|s.loader.scannedPaths|, old(s.loader.currentIndex), nav)
    ensures nav == Nav.None ==> unchanged(s.loader) && unchanged(s.graphics) && unchanged(s.graphics.buffer)
    ensures nav != Nav.None ==> s.Drew(dec)
  {
    match nav {
      case Next => s.NextImage(1, dec);
      case Prev => s.NextImage(-1, dec);
      case Next10 => s.NextImage(10, dec);
      case Prev10 => s.NextImage(-10, dec);
      case First => s.FirstImage(dec);
      case Last => s.LastImage(dec);
      case None =>
    }
  }

  /** The `[` key: shorten the display time by the increment, stopping at zero. */
  method DecreaseTimer(s: State)
    modifies s`currentTimerSecs
    ensures s.currentTimerSecs == SaturatingSub(old(s.currentTimerSecs), TIMER_VALUE_INCREMENT)
  {
    s.currentTimerSecs := SaturatingSub(s.currentTimerSecs, TIMER_VALUE_INCREMENT);
  }

  /** The `]` key: lengthen the display time by the increment, stopping at the u32 maximum. */
  method IncreaseTimer(s: State)
    modifies s`currentTimerSecs
    ensures s.currentTimerSecs == SaturatingAdd(old(s.currentTimerSecs), TIMER_VALUE_INCREMENT)
  {
    s.currentTimerSecs := SaturatingAdd(s.currentTimerSecs, TIMER_VALUE_INCREMENT);
  }

  /** The Back key: restore the configured display time. */
  method ResetTimer(s: State)
    modifies s`currentTimerSecs
    ensures s.currentTimerSecs == s.defaultTimerSecs
  {
    s.currentTimerSecs := s.defaultTimerSecs;
  }

  /** `[` undoes `]` unless `]` hit the ceiling, and `]` undoes `[` unless `[` hit zero. */
  lemma TimerKeysUndo(t: u32)
    ensures t as int + TIMER_VALUE_INCREMENT as int <= U32_MAX ==>
      SaturatingSub(SaturatingAdd(t, TIMER_VALUE_INCREMENT), TIMER_VALUE_INCREMENT) == t
    ensures t >= TIMER_VALUE_INCREMENT ==>
      SaturatingAdd(SaturatingSub(t, TIMER_VALUE_INCREMENT), TIMER_VALUE_INCREMENT) == t
  {
  }

  /**
   * The `DroppedFile` handler: a drop after the timeout starts a new
   * catalog; the dropped path is appended either way; a new or previously
   * empty catalog restarts at index 0 with a fresh cache holding only entry
   * 0, and is drawn.
   */
  method OnDroppedFile(s: State, path: FsNode, timeoutElapsed: bool, dec: Decoder) returns (isNew: bool)
    modifies s.graphics.buffer, s.graphics`message, s.graphics`mainTextureIndex
    modifies s.loader`scannedPaths, s.loader`cache, s.loader`preloadQueue, s.loader`currentPath, s.loader`currentIndex
    ensures isNew <==> timeoutElapsed || old(s.loader.scannedPaths) == []
    ensures s.loader.scannedPaths ==
      (if timeoutElapsed then [] else old(s.loader.scannedPaths))
      + Visit(s.loader.scanSubfolders, s.loader.supportedExtensions, path, 0)
    ensures isNew ==>
      s.loader.currentIndex == 0
      && s.loader.cache == map[0 := s.loader.NewEntry(0, dec)]
      && s.ShowsCurrent()
      && s.graphics.mainTextureIndex == ToggledTextureIndex(old(s.graphics.mainTextureIndex))
    ensures isNew && s.loader.cache[0].emsg.Some? ==>
      s.graphics.message == Wrappers.Some(LoadErrorMessage(s.loader.cache[0].path, s.loader.cache[0].emsg.value))
    ensures isNew && s.loader.cache[0].emsg.None? ==> s.graphics.message == old(s.graphics.message)
    ensures !isNew ==>
      s.loader.currentIndex == old(s.loader.currentIndex) && s.loader.cache == old(s.loader.cache)
      && s.loader.preloadQueue == old(s.loader.preloadQueue) && s.loader.currentPath == old(s.loader.currentPath)
      && unchanged(s.graphics) && unchanged(s.graphics.buffer)
  {
    isNew := false;
    var loader := s.loader;
    if timeoutElapsed {
      loader.scannedPaths := [];
      isNew := true;
    } else if loader.scannedPaths == [] {
      isNew := true;
    }

    loader.AppendPath(path);

    if isNew {
      loader.currentIndex := 0;
      loader.cache := map[];
      loader.ForceReloadCache(0, dec);
    }

    if isNew {
      s.DrawCurrentImage(dec);
    }
  }
}
