/**
 * `ImageLoader` of src/image_loader.rs: the catalog of scanned paths, the
 * current position in it, the cache of loaded entries keyed by catalog index
 * and the queue of indices to preload next.
 */
module Loader {
  import opened Wrappers
  import opened Utils
  import opened Navigation
  import opened Catalog
  import opened Decoding
  import opened SeqFacts

  /**
   * What `limit_cache` promises about a cache `after` trimmed from `before`:
   * only removals, a cache within `maxSize` left alone, an oversized one cut
   * to exactly `maxSize`, and no removed index closer to `current` on the
   * ring of `len` entries than any index kept.
   */
  ghost predicate Trimmed(before: map<nat, ImageCache>, after: map<nat, ImageCache>, maxSize: nat, len: nat, current: nat)
  {
    && KeptCloser(before, after, len, current)
    && (|before| <= maxSize ==> after == before)
    && (|before| > maxSize ==> |after| == maxSize)
  }

  /**
   * `after` is `before` with some entries dropped, and no dropped index is
   * closer to `current` in the ring of `len` entries than any index kept.
   */
  ghost predicate KeptCloser(before: map<nat, ImageCache>, after: map<nat, ImageCache>, len: nat, current: nat)
  {
    && after.Keys <= before.Keys
    && (forall k :: k in after ==> after[k] == before[k])
    && (forall r, k :: r in before && r !in after && k in after ==>
          IndexDistance(len, current, r) >= IndexDistance(len, current, k))
  }

  /**
   * Removing a key at least as far from `current` as every other key keeps
   * the eviction invariant of `limit_cache`: what is gone from `orig` is
   * never closer than what remains.
   */
  lemma EvictFarthest(orig: map<nat, ImageCache>, before: map<nat, ImageCache>, victim: nat, len: nat, current: nat)
    requires victim in before
    requires KeptCloser(orig, before, len, current)
    requires forall k :: k in before ==> IndexDistance(len, current, k) <= IndexDistance(len, current, victim)
    ensures |before - {victim}| == |before| - 1
    ensures KeptCloser(orig, before - {victim}, len, current)
  {
    var after := before - {victim};
    assert after.Keys == before.Keys - {victim};
    assert |after.Keys| == |before.Keys| - 1;
  }

  /** Bookkeeping of one iteration of the listing loop in `scan_recursively`. */
  lemma ScanStep(scanSubfolders: bool, extensions: seq<string>, out: seq<Path>, paths: seq<FsNode>, i: nat, depth: nat,
                 before: seq<Path>, after: seq<Path>)
    requires i < |paths|
    requires before == out + ScanEntries(scanSubfolders, extensions, paths[..i], depth)
    requires after == before + Visit(scanSubfolders, extensions, paths[i], depth + 1)
    ensures after == out + ScanEntries(scanSubfolders, extensions, paths[..i + 1], depth)
  {
    ScanEntriesSnoc(scanSubfolders, extensions, paths, i, depth);
    AppendAssoc(out, ScanEntries(scanSubfolders, extensions, paths[..i], depth),
      Visit(scanSubfolders, extensions, paths[i], depth + 1));
  }

  /** Exchanging two elements keeps the multiset of a sequence. */
  lemma SwapKeepsMultiset<T>(s: seq<T>, i: nat, j: nat)
    requires i < |s| && j < |s|
    ensures multiset(s[i := s[j]][j := s[i]]) == multiset(s)
  {
    if i != j {
      var t := s[i := s[j]];
      assert multiset(t) == multiset(s) - multiset{s[i]} + multiset{s[j]};
      assert multiset(t[j := s[i]]) == multiset(t) - multiset{t[j]} + multiset{s[i]};
    }
  }

  class ImageLoader {
    var cache: map<nat, ImageCache>
    var preloadQueue: seq<nat>
    var scannedPaths: seq<Path>
    const scanSubfolders: bool
    var currentPath: Option<Path>
    var currentIndex: nat
    /** The lower-case extensions of every format the image library can decode. */
    const supportedExtensions: seq<string>
    const cacheExtent: nat
    const maxCacheSize: nat
    const textureSize: Size2d
    const resizeFilter: FilterType

    /** `ImageLoader::new`; the supported extensions are the image library's, passed in. */
    constructor(scanSubfolders: bool, textureSize: Size2d, resizeFilter: FilterType, cacheExtent: nat,
                supportedExtensions: seq<string>)
      ensures cache == map[] && preloadQueue == [] && scannedPaths == []
      ensures currentPath == None && currentIndex == 0
      ensures this.scanSubfolders == scanSubfolders && this.textureSize == textureSize
      ensures this.resizeFilter == resizeFilter && this.cacheExtent == cacheExtent
      ensures this.supportedExtensions == supportedExtensions
      ensures maxCacheSize == 2 * cacheExtent + 1
    {
      this.cache := map[];
      this.preloadQueue := [];
      this.scannedPaths := [];
      this.scanSubfolders := scanSubfolders;
      this.currentPath := None;
      this.currentIndex := 0;
      this.supportedExtensions := supportedExtensions;
      this.cacheExtent := cacheExtent;
      this.maxCacheSize := cacheExtent * 2 + 1;
      this.textureSize := textureSize;
      this.resizeFilter := resizeFilter;
    }

    /** `index_distance(current_index, k)` over the current catalog. */
    function Distance(k: nat): int
      reads this`scannedPaths, this`currentIndex
    {
      IndexDistance(|scannedPaths|, currentIndex, k)
    }

    /** The entry `ensure_cache` builds for `index`. */
    function NewEntry(index: nat, dec: Decoder): (c: ImageCache)
      reads this`scannedPaths
      ensures index < |scannedPaths| ==> c.path == Some(scannedPaths[index])
      ensures index >= |scannedPaths| ==> c == MissingEntry()
    {
      if index < |scannedPaths| then LoadEntry(dec, scannedPaths[index], textureSize, resizeFilter)
      else MissingEntry()
    }

    /** `append_path`: what a dropped or given path contributes is added after the existing catalog. */
    method AppendPath(path: FsNode)
      modifies this`scannedPaths
      ensures scannedPaths == old(scannedPaths) + Visit(scanSubfolders, supportedExtensions, path, 0)
      ensures scannedPaths[..|old(scannedPaths)|] == old(scannedPaths)
    {
      var newPaths := [];
      if path.Dir? {
        newPaths := ScanRecursively(newPaths, path, 0);
      } else if path.File? && IsSupportedExt(supportedExtensions, path.path) {
        newPaths := newPaths + [path.path];
      }
      scannedPaths := scannedPaths + newPaths;
      assert scannedPaths[..|old(scannedPaths)|] == old(scannedPaths);
    }

    /**
     * `shuffle_paths`: the library's Fisher-Yates shuffle, walking down from
     * the end and swapping each position with one drawn at or below it;
     * `draw(i)` stands for the random number drawn at position `i`.
     */
    method ShufflePaths(draw: nat -> nat)
      modifies this`scannedPaths
      ensures |scannedPaths| == |old(scannedPaths)|
      ensures multiset(scannedPaths) == multiset(old(scannedPaths))
    {
      var i := |scannedPaths|;
      while i > 1
        invariant 0 <= i <= |scannedPaths|
        invariant |scannedPaths| == |old(scannedPaths)|
        invariant multiset(scannedPaths) == multiset(old(scannedPaths))
      {
        i := i - 1;
        var j := draw(i) % (i + 1);
        SwapKeepsMultiset(scannedPaths, i, j);
        scannedPaths := scannedPaths[i := scannedPaths[j]][j := scannedPaths[i]];
      }
    }

    /** The largest ring distance from the current index among the cached indices. */
    method MaxCachedDistance() returns (d: int)
      requires cache != map[]
      ensures exists k :: k in cache && Distance(k) == d
      ensures forall k :: k in cache ==> Distance(k) <= d
    {
      var keys := cache.Keys;
      var k0 :| k0 in keys;
      d := Distance(k0);
      keys := keys - {k0};
      while keys != {}
        invariant keys <= cache.Keys
        invariant k0 in cache && k0 !in keys
        invariant exists k :: k in cache && Distance(k) == d
        invariant forall k :: k in cache && k !in keys ==> Distance(k) <= d
        decreases keys
      {
        var k :| k in keys;
        if Distance(k) > d {
          d := Distance(k);
        }
        keys := keys - {k};
      }
    }

    /**
     * `limit_cache`: while the cache holds more than `max_cache_size`
     * entries, drop one of those farthest from the current index (which one
     * among equally far is left open, as map iteration order is).
     */
    method LimitCache()
      modifies this`cache
      ensures Trimmed(old(cache), cache, maxCacheSize, |scannedPaths|, currentIndex)
    {
      ghost var orig := cache;
      var cacheCount := |cache|;
      while cacheCount > maxCacheSize
        invariant cacheCount == |cache|
        invariant KeptCloser(orig, cache, |scannedPaths|, currentIndex)
        invariant |orig| <= maxCacheSize ==> cache == orig
        invariant |orig| > maxCacheSize ==> |cache| >= maxCacheSize
      {
        var maxDist := MaxCachedDistance();
        var maxDistKey :| maxDistKey in cache && Distance(maxDistKey) == maxDist;
        EvictFarthest(orig, cache, maxDistKey, |scannedPaths|, currentIndex);
        cache := cache - {maxDistKey};
        cacheCount := cacheCount - 1;
      }
    }

    /** `next_index`: move by `amount` with wrap-around; a catalog of at most one entry keeps its position. */
    method NextIndex(amount: int)
      modifies this`currentIndex
      ensures GetNextIndex(|scannedPaths|, old(currentIndex), amount).None? ==> currentIndex == old(currentIndex)
      ensures GetNextIndex(|scannedPaths|, old(currentIndex), amount).Some? ==>
        currentIndex == GetNextIndex(|scannedPaths|, old(currentIndex), amount).value
    {
      var next := GetNextIndex(|scannedPaths|, currentIndex, amount);
      if next.Some? {
        currentIndex := next.value;
      }
    }

    /** `ensure_cache`: load the entry for `index` unless it is cached already. */
    method EnsureCache(index: nat, dec: Decoder)
      modifies this`cache
      ensures index in cache
      ensures index in old(cache) ==> cache == old(cache)
      ensures index !in old(cache) ==> cache == old(cache)[index := NewEntry(index, dec)]
    {
      if index !in cache {
        var entry;
        if index < |scannedPaths| {
          entry := LoadEntry(dec, scannedPaths[index], textureSize, resizeFilter);
        } else {
          entry := MissingEntry();
        }
        cache := cache[index := entry];
      }
    }

    /** `force_reload_cache`: drop the entry for `index` and load it afresh. */
    method ForceReloadCache(index: nat, dec: Decoder)
      modifies this`cache
      ensures cache == old(cache)[index := NewEntry(index, dec)]
    {
      cache := map k | k in cache && k != index :: cache[k];
      EnsureCache(index, dec);
    }

    /**
     * `get_current`: make sure the current entry is cached and return it,
     * then rebuild the preload queue around the current index.
     */
    method GetCurrent(dec: Decoder) returns (entry: ImageCache)
      modifies this`cache, this`preloadQueue
      ensures currentIndex in old(cache) ==> cache == old(cache)
      ensures currentIndex !in old(cache) ==> cache == old(cache)[currentIndex := NewEntry(currentIndex, dec)]
      ensures currentIndex in cache && entry == cache[currentIndex]
      ensures preloadQueue == PreloadPlan(|scannedPaths|, currentIndex, cacheExtent)
    {
      var index := currentIndex;
      EnsureCache(index, dec);
      entry := cache[index];
      var len := |scannedPaths|;
      ghost var loaded := cache;
      var queue := [];
      for i := 1 to cacheExtent + 1
        invariant cache == loaded
        invariant queue == PreloadPlan(len, index, i - 1)
      {
        ghost var planned := queue;
        var forward := GetNextIndex(len, index, i);
        if forward.Some? {
          queue := queue + [forward.value];
        }
        assert queue == planned + OptionToSeq(forward);
        var backward := GetNextIndex(len, index, -i);
        if backward.Some? {
          queue := queue + [backward.value];
        }
        assert queue == planned + OptionToSeq(forward) + OptionToSeq(backward);
        PreloadPlanStep(len, index, i);
      }
      preloadQueue := queue;
    }

    /** `scan_input_paths`: the catalog becomes what the given roots contribute, in order. */
    method ScanInputPaths(paths: seq<FsNode>)
      modifies this`scannedPaths
      ensures scannedPaths == ScanRoots(scanSubfolders, supportedExtensions, paths)
    {
      var out := [];
      for i := 0 to |paths|
        invariant out == ScanRoots(scanSubfolders, supportedExtensions, paths[..i])
      {
        var path := paths[i];
        if path.Dir? {
          out := ScanRecursively(out, path, 0);
        } else if path.File? && IsSupportedExt(supportedExtensions, path.path) {
          out := out + [path.path];
        }
        assert paths[..i + 1][..i] == paths[..i];
      }
      assert paths[..|paths|] == paths;
      scannedPaths := out;
    }

    /**
     * `scan_recursively`: below the depth limit, walk a readable directory's
     * sorted listing, descending into sub-directories one level deeper and
     * appending supported files.
     */
    method ScanRecursively(out: seq<Path>, dir: FsNode, depth: nat) returns (result: seq<Path>)
      ensures result == out + ScanDir(scanSubfolders, supportedExtensions, dir, depth)
      decreases dir
    {
      result := out;
      ScanDirUnfold(scanSubfolders, supportedExtensions, dir, depth);
      AppendNothing(out);
      if scanSubfolders {
        if depth > MAX_DEPTH_SCAN {
          return;
        }
      } else if depth > 0 {
        return;
      }
      if dir.Dir? && dir.readable {
        var paths := dir.entries;
        for i := 0 to |paths|
          invariant result == out + ScanEntries(scanSubfolders, supportedExtensions, paths[..i], depth)
        {
          var path := paths[i];
          ghost var before := result;
          VisitCases(scanSubfolders, supportedExtensions, path, depth + 1);
          if path.Dir? {
            result := ScanRecursively(result, path, depth + 1);
          } else if path.File? && IsSupportedExt(supportedExtensions, path.path) {
            result := result + [path.path];
          } else {
            AppendNothing(result);
          }
          ScanStep(scanSubfolders, supportedExtensions, out, paths, i, depth, before, result);
        }
        assert paths[..|paths|] == paths;
      }
    }
  }
}
