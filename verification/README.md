# sldshow image cache and navigation, modelled in Dafny

sldshow is a slideshow image viewer. This project models its core. That
core is the `ImageLoader` of `src/image_loader.rs`, and the sequential code
in `src/state.rs` and `src/main.rs` that drives it.

**The catalog.** `scanned_paths` is the list of image paths, built from an
abstract directory tree whose listings come already sorted. The model
covers:

- the depth-guarded recursive scan;
- the case-insensitive extension filter;
- appending a dropped path;
- the Fisher–Yates shuffle.

**The circular index space.** This covers the ring distance between catalog
indices, wrapping navigation built on Rust's truncating `%`, the "is last"
test, and the preload plan `+1, −1, +2, −2, …` around the current position.

**The cache.** It is a map from catalog index to loaded entry. The model
covers:

- `ensure_cache`, `force_reload_cache` and `get_current`;
- `limit_cache`, which evicts the entries farthest round the ring until
  `2 * cache_extent + 1` remain;
- the EXIF orientation dispatch applied when an image is opened.

**The display side.** `draw_current_image` fills the staging buffer with
the background colour and blits the entry centred and clipped. It also puts
a load error on screen, records the current path and toggles the
double-buffer texture index. `next_image`, `first_image` and `last_image`
move and then draw.

**The application side.** This covers one iteration of the preload worker
thread, the `NextImage` event with pause-at-last, the navigation dispatch,
the display-time keys and the dropped-file handler.

**Modules**, one file each:

- `Wrappers`: `Option` and `Result`.
- `SeqFacts`: generic sequence identities used only as proof aids.
- `Utils`: `src/utils.rs`, plus the saturating `u32` operations and the
  `i32` cast and addition of the window centring.
- `Images`: a raster image and the flips and rotations of the image library.
- `Navigation`: index arithmetic.
- `Catalog`: paths, extensions, the file tree and the scan specification.
- `Decoding`: opening, orientation and cache entries.
- `Loader`: the `ImageLoader` class.
- `Display`: the `GraphicsState` and `State` classes.
- `App`: the handlers of `src/main.rs`.

**How the parts are specified.** The imperative parts are classes whose
methods update fields in place. The pixel buffer is an `array2`. Each method
is specified against a pure function, such as `PreloadPlan`, `ScanDir`,
`Visit`, `LetterboxPixel` or `LoadEntry`, or against a predicate, such as
`Trimmed` or `Drew`. The functions in turn are related to independent
reference definitions:

- `IndexDistance` to `RingDistance`;
- `PreloadPlan` to `AlternatingNeighbours`;
- `ScanDir` to `FilterSupported(AllFiles(...))`;
- `Orient` to its inverse tag.

## Model

| member | source | states |
|---|---|---|
| Utils.TruncRem | src/utils.rs:101-106 | Rust's `%`: the remainder is smaller than the divisor in magnitude, takes the dividend's sign, and differs from the dividend by a multiple of the divisor |
| Utils.Modulo | src/utils.rs:101-106 | `modulo(a, b)` takes the divisor's sign: in `[0, b)` for positive `b`, in `(b, 0]` for negative `b` |
| Utils.ModuloIsEuclidean | src/utils.rs:101-106 | for a positive divisor `modulo(a, b)` lies in `[0, b)` and is congruent to `a`, for negative `a` too |
| Utils.ModuloInRange | src/utils.rs:101-106 | `modulo(a, b) == a` when `0 <= a < b` |
| Utils.ModuloOfMinusOne | src/utils.rs:101-106 | `modulo(-1, 10) == 9` |
| Utils.ConvertFilterType | src/utils.rs:12-20 | `Linear` maps to `Triangle` and `Cubic` maps to `CatmullRom`, both ways round |
| Utils.ConvertFilterTypeInjective | src/utils.rs:12-20 | distinct configuration filters map to distinct library filters |
| Utils.YesNo | src/utils.rs:52-58 | the result is "yes" exactly for `true` and "no" exactly for `false` |
| Utils.SaturatingSub | src/main.rs:478-480 | never wraps: the exact difference when it is non-negative, otherwise 0 |
| Utils.SaturatingAdd | src/main.rs:495-497 | never wraps: the exact sum when it fits in u32, otherwise `u32::MAX` |
| Utils.CenteredOffset | src/state.rs:752-753 | an inner extent that fits lies inside the outer one, with the two margins differing by at most 1; one that does not fit gets offset 0 |
| Utils.U32AsI32 | src/utils.rs:44-46 | the `as i32` cast keeps the 32 bits: the result is congruent to the input modulo 2^32, and non-negative exactly when the input is at most `i32::MAX` |
| Utils.HalfTowardZero | src/utils.rs:44-46 | Rust's `/ 2` on an i32: within 1 of half the input, never larger in magnitude, and with the input's sign |
| Utils.WrappingAddI32 | src/utils.rs:44-46 | the i32 addition of a release build: congruent to the exact sum modulo 2^32, and equal to it when the sum fits |
| Utils.CenteredPosition | src/utils.rs:43-47 | where the cast margin and the sum fit in i32, a window that fits lies within the monitor with balanced margins; a larger window is placed at the monitor's top-left |
| Utils.CenteredPositionWideMonitor | src/utils.rs:44-46 | a margin above `i32::MAX` turns negative in the cast, so the window lands left of the monitor (width 0xFFFF_FFFF, window 1 gives -1) |
| Utils.CenteredPositionWraps | src/utils.rs:44-46 | a top-left of `i32::MAX` plus an offset of 5 wraps to `i32::MIN + 4` |
| Images.FlipH | src/image_loader.rs:298 | pixel `(x, y)` of the result is source pixel `(w-1-x, y)`, same size |
| Images.FlipV | src/image_loader.rs:300 | pixel `(x, y)` of the result is source pixel `(x, h-1-y)`, same size |
| Images.Rotate90 | src/image_loader.rs:302 | the dimensions swap, and pixel `(x, y)` of the result is source pixel `(y, h-1-x)` |
| Images.Rotate180 | src/image_loader.rs:299 | pixel `(x, y)` of the result is source pixel `(w-1-x, h-1-y)`, same size |
| Images.Rotate270 | src/image_loader.rs:304 | the dimensions swap, and pixel `(x, y)` of the result is source pixel `(w-1-y, x)` |
| Navigation.IndexDistanceIsRingDistance | src/image_loader.rs:131-146 | within the catalog, `index_distance` equals the shorter way round the ring |
| Navigation.IndexDistanceSymmetric | src/image_loader.rs:131-146 | `index_distance(a, b) == index_distance(b, a)` |
| Navigation.IndexDistance | src/image_loader.rs:131-146 | equal indices are 0 apart; within the catalog the distance is 0 iff `a == b`, and it never exceeds `len / 2` |
| Navigation.IndexDistanceExample | src/image_loader.rs:136-145 | the documented example: length 10, indices 7 and 1, distance 4 |
| Navigation.GetNextIndex | src/image_loader.rs:148-160 | `None` iff `len <= 1`; otherwise a value in `[0, len)` congruent to `current + amount`, and exactly `current + amount` when that is already in range |
| Navigation.GetNextIndexWrapsBackward | src/image_loader.rs:148-160 | stepping back from 0 in a catalog of 10 gives 9 |
| Navigation.GetNextIndexUndo | src/image_loader.rs:148-160 | moving by `-amount` undoes a move by `amount`, wrap-around included |
| Navigation.IsLastOverflowsOnEmpty | src/image_loader.rs:168-170 | as written, `is_last` underflows `len - 1` on an empty catalog |
| Navigation.IsLast | src/image_loader.rs:168-170 | true iff the catalog is non-empty and the position is its final index; agrees with the written form wherever that is defined |
| Navigation.LastIndexOverflowsOnEmpty | src/state.rs:712-719 | as written, `last_image` underflows `len - 1` on an empty catalog |
| Navigation.LastIndex | src/state.rs:712-719 | on a non-empty catalog, the final index, for which `IsLast` holds; 0 on an empty one |
| Navigation.PreloadPlan | src/image_loader.rs:214-225 | the preload queue holds at most two indices per unit of extent, and none when `len <= 1` |
| Navigation.PreloadPlanIsAlternating | src/image_loader.rs:214-225 | on a catalog of more than one entry the queue equals the reference plan that appends `current + d` and `current - d`, wrapped, for `d = 1 .. extent` |
| Navigation.PreloadPlanShape | src/image_loader.rs:214-225 | otherwise the queue has `2 * extent` entries; entry `2k` is `current + k + 1` and entry `2k + 1` is `current - k - 1`, both wrapped |
| Navigation.PreloadPlanInRange | src/image_loader.rs:214-225 | every queued index is inside the catalog |
| Navigation.PreloadPlanExample | src/image_loader.rs:214-225 | position 5 of 10 with extent 2 queues `[6, 4, 7, 3]` |
| Catalog.Extension | src/image_loader.rs:230-241 | an extension, when there is one, holds no '.' and no '/' |
| Catalog.AsciiLower | src/image_loader.rs:232 | same length; each ASCII capital is lowered and every other character is kept |
| Catalog.IsSupportedExt | src/image_loader.rs:230-241 | a path without an extension is rejected; one with an extension is accepted iff its ASCII lower-case form is listed; an empty list accepts nothing |
| Catalog.NoExtensionNotSupported | src/image_loader.rs:230-241 | a file name without a '.' after its first character has no extension and is never supported |
| Catalog.ExtensionOfDotted | src/image_loader.rs:230-241 | `stem + "." + ext` has extension `ext` when `ext` is non-empty and holds no '.' or '/' |
| Catalog.IsSupportedExtIgnoresCase | src/image_loader.rs:230-241 | two extensions with the same ASCII lower-case form are both supported or both not |
| Catalog.ScanDirIsFilteredFiles | src/image_loader.rs:257-278 | wherever the depth guard lets it run, the scan is exactly the supported files of the tree, in order, down to `MaxLevel - depth` levels |
| Catalog.ScanDir | src/image_loader.rs:257-278 | every path `scan_recursively` appends passes the extension filter |
| Catalog.ScanEntries | src/image_loader.rs:266-276 | every path the loop over a directory listing appends passes the extension filter |
| Catalog.Visit | src/image_loader.rs:271-275 | every path one listing entry contributes passes the extension filter |
| Catalog.ScanRoots | src/image_loader.rs:243-255 | every path `scan_input_paths` collects from its roots passes the extension filter |
| Catalog.ScanDirFlatStopsBelowTop | src/image_loader.rs:258-264 | without subfolder scanning nothing is collected below depth 0 |
| Catalog.ScanDirDeepStopsPastMax | src/image_loader.rs:258-264 | with subfolder scanning nothing is collected beyond `MAX_DEPTH_SCAN` |
| Catalog.ScanFlatIsDirectFiles | src/image_loader.rs:257-278 | without subfolder scanning a directory yields exactly its own supported files, in listing order |
| Decoding.Orient | src/image_loader.rs:295-307 | tags 5–8 swap width and height; other tags keep them; tags 0, 1 and above 8 leave the image unchanged |
| Decoding.InverseTag | src/image_loader.rs:296-306 | only the quarter turns 6 and 8 have a different inverse tag |
| Decoding.InverseTagInvolutive | src/image_loader.rs:296-306 | the inverse of the inverse tag is the tag |
| Decoding.OrientRoundTrip | src/image_loader.rs:295-307 | applying the inverse tag's transformation after a tag's restores the decoded image, for every tag |
| Decoding.OpenAndResizeImage | src/image_loader.rs:280-323 | fails iff opening fails, with the same error; on success it returns the upright image resized to the texture size |
| Decoding.Placeholder | src/image_loader.rs:187 | the stand-in image is 1×1 |
| Decoding.LoadEntry | src/image_loader.rs:176-190 | the entry keeps the path; on failure it has the 1×1 placeholder and the error text, otherwise the loaded image and no error |
| Decoding.MissingEntry | src/image_loader.rs:191 | an index past the catalog gets no path, the 1×1 image and no error |
| Loader.EvictFarthest | src/image_loader.rs:104-129 | removing a key at least as far as every remaining key keeps "nothing removed is closer than anything kept" |
| Loader.ImageLoader.constructor | src/image_loader.rs:60-85 | empty catalog, cache and queue at index 0, and `max_cache_size == 2 * cache_extent + 1` |
| Loader.ImageLoader.NewEntry | src/image_loader.rs:172-198 | an index inside the catalog keeps its path; one outside gets the missing entry |
| Loader.ImageLoader.AppendPath | src/image_loader.rs:87-98 | the catalog becomes the old catalog followed by what the path contributes; the old catalog is a prefix |
| Loader.ImageLoader.ShufflePaths | src/image_loader.rs:100-102 | the catalog keeps its length and its multiset of paths |
| Loader.ImageLoader.MaxCachedDistance | src/image_loader.rs:104-129 | returns the largest ring distance from the current index among the cached keys |
| Loader.ImageLoader.LimitCache | src/image_loader.rs:104-129 | only removes entries and keeps values unchanged; a cache within bound is untouched, an oversized one ends with exactly `max_cache_size` entries; no removed key is closer than a kept one |
| Loader.ImageLoader.NextIndex | src/image_loader.rs:162-166 | the position becomes `get_next_index(amount)` when defined and is unchanged when `len <= 1` |
| Loader.ImageLoader.EnsureCache | src/image_loader.rs:172-198 | afterwards `index` is cached; an existing entry is kept and nothing else changes; otherwise exactly the new entry is added |
| Loader.ImageLoader.ForceReloadCache | src/image_loader.rs:200-203 | the entry at `index` is always rebuilt and no other key changes |
| Loader.ImageLoader.GetCurrent | src/image_loader.rs:205-228 | returns the current entry, cached as `ensure_cache` leaves it, and rebuilds the preload queue as `PreloadPlan` |
| Loader.ImageLoader.ScanInputPaths | src/image_loader.rs:243-255 | the catalog becomes what the roots contribute, in order |
| Loader.ImageLoader.ScanRecursively | src/image_loader.rs:257-278 | appends exactly `ScanDir` of the directory to `out` |
| Display.LetterboxPixel | src/state.rs:748-760 | an empty source shows only the background; an image that fits puts nothing outside the buffer |
| Display.LetterboxPixelOrigin | src/state.rs:748-760 | every pixel of the letterbox is the background colour or some pixel of the source |
| Display.LetterboxShowsWholeImage | src/state.rs:748-760 | an image that fits lands whole at its centred position |
| Display.LetterboxCropsLargeImage | src/state.rs:748-760 | an image larger than the buffer on both axes is cropped to its top-left corner |
| Display.LetterboxBackground | src/state.rs:748-760 | outside the copied rectangle the background colour shows |
| Display.LoadErrorMessage | src/state.rs:739-745 | starts "load error:\n", ends with the error text, and carries the path when there is one |
| Display.ToggledTextureIndex | src/state.rs:805 | the new index is 0 or 1, and 1 exactly when the old one was 0 |
| Display.ToggledTextureIndexTwice | src/state.rs:805 | two draws return to the starting texture index |
| Display.GraphicsState.constructor | src/state.rs:222-223 | the staging buffer starts filled with the background colour; no message; texture index 0 |
| Display.GraphicsState.UpdateMessage | src/state.rs:578-581 | the message becomes the given text |
| Display.GraphicsState.FillBackground | src/state.rs:731-733 | every buffer pixel holds the background colour |
| Display.GraphicsState.PutCentered | src/state.rs:748-760 | each pixel becomes the letterboxed source pixel or keeps its old value; on a filled buffer the result is the letterbox |
| Display.State.constructor | src/state.rs:620-636 | the timer starts at its default, and a zero timer starts paused; the current entry is then drawn as `draw_current_image` does |
| Display.State.DrawCurrentImage | src/state.rs:721-808 | the current entry is cached and letterboxed on the background, is the current path, and has the preload plan around it; a load error is shown; the texture index toggles |
| Display.State.NextImage | src/state.rs:694-701 | moves as `get_next_index` says, then draws |
| Display.State.FirstImage | src/state.rs:703-710 | goes to index 0, then draws |
| Display.State.LastImage | src/state.rs:712-719 | goes to the final index, then draws |
| App.NavTarget | src/main.rs:857-865 | every navigation keeps a position inside the catalog; `Last` reaches the final entry |
| App.StepTarget | src/main.rs:857-860 | no move when `len <= 1`; otherwise the position `current + amount` reduced into `[0, len)` |
| App.NavStepsUndo | src/main.rs:857-865 | `Prev` undoes `Next` and `Prev10` undoes `Next10` |
| App.NavLastThenNextWraps | src/main.rs:857-865 | `Last` reaches the final entry, and `Next` from there wraps to 0 |
| App.PreloadWorker.constructor | src/main.rs:342 | no load was needed before the first iteration |
| App.PreloadWorker.Step | src/main.rs:347-398 | pops the queue head; a load is needed iff the head was not cached; the entry is loaded then; the cache is trimmed only on the falling edge of "load needed"; the flag is carried over |
| App.OnNextImage | src/main.rs:420-427 | with pause-at-last set on the final entry, it pauses and changes nothing else; otherwise it advances by one and draws |
| App.Navigate | src/main.rs:857-865 | the position becomes the navigation target, and a draw happens unless the request is `None`, which changes nothing |
| App.DecreaseTimer | src/main.rs:476-480 | the display time drops by 5 seconds, stopping at 0 |
| App.IncreaseTimer | src/main.rs:493-497 | the display time rises by 5 seconds, stopping at `u32::MAX` |
| App.ResetTimer | src/main.rs:611-613 | the display time returns to its default |
| App.TimerKeysUndo | src/main.rs:476-497 | `[` undoes `]` unless the ceiling was hit, and `]` undoes `[` unless zero was hit |
| App.OnDroppedFile | src/main.rs:814-840 | a restart iff the timeout elapsed or the catalog was empty; the path is appended; a restart resets to index 0 with only entry 0 cached and draws it, showing its load error if any; otherwise position, cache, preload queue, current path and screen are kept |

## Left out

Threads and time:

- The worker thread, the slideshow, OSD, cursor and transition threads, the
  `Mutex` locking and `sleep` are not modelled. `PreloadWorker.Step` is one
  loop iteration over explicit state.
- Channel sends and their logged errors are not modelled.
- Elapsed-time tests are boolean inputs. `OnDroppedFile` receives
  `timeoutElapsed` in place of the `FILE_DROP_TIMEOUT` comparison.

Graphics and floating point:

- The GPU and text rendering are not modelled: the texture upload after the
  blit, the render pipeline and the fonts.
- Floating-point code is not modelled: transition blending, window scale
  and touch distances.
- `GraphicsState` is reduced to the staging buffer, the background colour,
  the message and the texture index. The buffer's dimensions are taken to
  be the texture size.

Libraries and external data:

- The image library is represented by an abstract `Decoder`. It covers
  opening the file, decoding, reading the EXIF tag, and `resize`. The
  flips and rotations are modelled on an explicit raster.
- The file system is an abstract tree. Directory listings arrive already
  sorted, so `alphanumeric_sort` is not modelled. Paths are taken to be
  normalised.
- The supported extensions are a constructor parameter, not the image
  library's table.
- `ShufflePaths` stands in `draw` for the random number generator, and
  states only the permutation property.

Messages and logging:

- The `"Timer: N"` OSD messages of the timer keys are not modelled.
- `LoadErrorMessage`: the path is quoted with plain '"' marks. Rust's
  `{:?}` escaping of the characters inside the path is not modelled.
- Logging is not modelled.

Integer widths:

- Catalog indices and amounts are unbounded integers. The `usize`/`i32`
  casts in `get_next_index` and the usize subtraction in `index_distance`
  for keys past the catalog are not modelled.
- `PutCentered`: `pad_left + src_x` cannot overflow `u32`, because
  coordinates are unbounded.
- `CenteredPosition`: the `as i32` cast and the i32 addition of
  src/utils.rs:44-46 are modelled, with the addition wrapping as in a release
  build. The panic a debug build raises on that overflow is not modelled, and
  the containment ensures is promised only where `CentringFits` holds.

Error paths:

- `get_current`, `ensure_cache` and `limit_cache` return `Result`, but no
  error can occur in them once the cache insert has happened. The model
  returns their values directly.
- `PreloadWorker.Step` requires the queued index to be inside the catalog,
  because the source unwraps that lookup and would panic otherwise.
  The source does not always meet this. The dropped-file handler
  (src/main.rs:817-833) can shrink `scanned_paths` without clearing
  `preload_queue`, and then releases the lock before
  `draw_current_image` rebuilds the queue. If the worker takes the lock in
  between, it can pop an index past the new catalog. The unwrap at
  src/main.rs:353 then panics and poisons the mutex. This interleaving is
  not modelled, because the model has no threads.

## Findings

| source | as written | input that shows it | evidently intended | confidence | as-written member | corrected member |
|---|---|---|---|---|---|---|
| src/image_loader.rs:168-170 | `is_last` compares with `scanned_paths.len() - 1` in usize | an empty catalog: `0 - 1` underflows (a panic in debug builds, `usize::MAX` otherwise); `OnNextImage` with pause-at-last reaches it before any image is loaded | an empty catalog has no last entry | not executed | Navigation.IsLastOverflowsOnEmpty | Navigation.IsLast |
| src/state.rs:712-719 | `last_image` sets `current_index = len - 1` in usize | an empty catalog, with the End key pressed before any path is given | an empty catalog stays at index 0 | not executed | Navigation.LastIndexOverflowsOnEmpty | Navigation.LastIndex |
