# Burgerloy scroll-driven frame player, modelled in Dafny

The Burgerloy site tells its story by scrubbing through numbered `.webp`
frames as the visitor scrolls. This project models the logic behind it:

- **ScrollyTelling** (`scrolly_telling.dfy`). The canvas player.
  - A batched preloader walks frames 1..384 in windows of 32. It writes each frame that loads into slot `i - 1` of a fixed 384-slot array (a Dafny `array`). After each batch it publishes a copy of the array.
  - The render step rounds and clamps the motion value to a slot. It paints that slot's image twice: once blurred and scaled to cover the canvas, then crisp and scaled to fit inside it. The scale and offset arithmetic is over `real`.
- **BurgerStory** (`burger_story.dfy`). The two-sequence DOM player.
  - The first half of the scroll scrubs `frames1`; the second half scrubs `frames2`. The image changes only when the frame or the sequence changes.
  - A four-step caption follows the scroll.
  - Reduced motion shows a fixed frame.
  - Preloading runs in three timed stages through a module-level image cache.
- **FrameSequence** (`frame_sequence.dfy`). The single-sequence DOM player.
  - It has the clamped `floor` mapper and the same change rule.
  - It has two preload strategies: `immediate` and `lazy`.
  - An empty frame list renders nothing.
  - Reduced motion gives a crossfade of the first and last frames.
- **Shared pieces**:
  - `frame_index.dfy`: the clamped `floor(p * (n - 1))` mapper.
  - `image_cache.dfy`: the `imageCache` set as a class, its `preload` loop and the timed stages.
  - `naming.dfy`: decimal rendering, `padStart`, `endsWith`, the frame URL and the `.webp` filter.
  - `ordering.dfy`: the two string orders and a stable insertion sort.
  - `min_max.dfy`: the integer `Math.min` and `Math.max`, used for clamping and for the batch bound.
  - `seq_facts.dfy`: regrouping facts about sequence concatenation.
  - `wrappers.dfy`: `Option`, and `At`, which gives JavaScript's out-of-range `undefined`.
- **normalize_assets** (`normalize_assets.dfy`). The build script. It copies the `.webp` files of the source directories into one folder and renames them `0001.webp`, `0002.webp`, … in directory order and sorted-name order. The directory listings are an input. The copies come back as a plan instead of being performed.
- **getFrames** (`frames.dfy`). The server-side listing of one public folder: the `.webp` names, in natural order, as root-relative URLs.

Whatever comes from outside the program is a parameter:

- whether each image request loads, and at what size (`net`);
- which loads finish between two timed stages (`arrivals`);
- whether a timer fires before unmount;
- scroll progress, as a `real`;
- window size;
- directory listings, with `None` for a missing folder.

## Model

| member | source | states |
|---|---|---|
| Wrappers.At | src/components/FrameSequence.tsx:68 | Indexing inside the list gives that element; anywhere else gives `None`, standing for `undefined` |
| Naming.DigitChar | scripts/normalize_assets.js:23 | The character of digit d is a digit character denoting d |
| Naming.Decimal | scripts/normalize_assets.js:23 | `String(n)` is a non-empty string of digits, one character long exactly when n < 10 |
| Naming.Repeat | scripts/normalize_assets.js:23 | The padding run has the requested length and holds only the pad character |
| Naming.PadStart | scripts/normalize_assets.js:23 | `padStart` leaves a string of at least the width unchanged, else pads it to exactly the width; the result ends with the original string, preceded only by pad characters |
| Naming.DecimalRoundTrip | scripts/normalize_assets.js:23 | Reading the decimal string of `n` back gives `n` |
| Naming.LeadingZerosValue | src/components/ScrollyTelling.tsx:35 | Leading zeros change neither digit-ness nor value |
| Naming.DecimalLength | scripts/normalize_assets.js:23 | Numbers below 10000 have at most 4 digits; from 1000 on they have at least 4 |
| Naming.Pad4RoundTrip | src/components/ScrollyTelling.tsx:35 | The zero-padded number is all digits and reads back as the number |
| Naming.Pad4Shape | scripts/normalize_assets.js:23 | For n <= 9999 the padded form has exactly 4 characters; from 1000 on it is the plain decimal (no truncation) |
| Naming.Pad4Injective | scripts/normalize_assets.js:23 | Distinct numbers get distinct padded names, in both directions |
| Naming.FrameUrlShape | src/components/ScrollyTelling.tsx:35 | For 1 <= i <= 9999 the URL is `/frames/` + 4 digits reading back as i + `.webp`, 17 characters in all |
| Naming.FrameUrlInjective | src/components/ScrollyTelling.tsx:35 | Two frame URLs are equal exactly when their numbers are |
| Naming.Pad4Examples | scripts/normalize_assets.js:22-23 | 7 gives `0007`, 384 gives `0384`, and 12345 stays `12345` |
| Naming.WebpOnly | src/lib/frames.ts:15 | The filter keeps only names ending in `.webp`, and is never longer than its input |
| Naming.WebpOnlyCounts | src/lib/frames.ts:15 | Each `.webp` name is kept as often as listed; every other name is dropped |
| Naming.WebpOnlySameNames | scripts/normalize_assets.js:17-20 | Two listings of the same names, in any order, keep the same `.webp` names, the same number of them |
| Ordering.KeyLeTotal | src/lib/frames.ts:16-19 | The comparator is total: any two keys compare one way or the other |
| Ordering.KeyLeReflexive | src/lib/frames.ts:16-19 | Every key compares <= itself |
| Ordering.KeyLeCommonPrefix | src/lib/frames.ts:16-19 | A shared prefix does not change how two keys compare |
| Ordering.KeyLeAntisymmetric | scripts/normalize_assets.js:17 | Two keys that compare <= both ways are equal |
| Ordering.KeyLeTransitive | src/lib/frames.ts:16-19 | The comparator is transitive |
| Ordering.DigitRun | src/lib/frames.ts:18 | The numeric option's token is the maximal leading run of digits: all digits, followed by a non-digit or the end |
| Ordering.CodeUnitKey | scripts/normalize_assets.js:17 | The default sort's key has one code-unit token per character |
| Ordering.LeTotal | src/lib/frames.ts:16-19 | Both string orders are total |
| Ordering.LeReflexive | src/lib/frames.ts:16-19 | Both string orders are reflexive |
| Ordering.LeTransitive | src/lib/frames.ts:16-19 | Both string orders are transitive |
| Ordering.InsertBy | src/lib/frames.ts:16-19 | One insertion step adds exactly the inserted element: the multiset gains it and the length grows by one |
| Ordering.InsertSorted | src/lib/frames.ts:16-19 | Inserting into a sorted list leaves it sorted |
| Ordering.SortBy | src/lib/frames.ts:16-19 | The sort result is a permutation of its input |
| Ordering.SortBySorted | src/lib/frames.ts:16-19 | The sort result is sorted by the key |
| Ordering.Sort | scripts/normalize_assets.js:17 | Sorting under either order gives a sorted permutation of the input |
| Ordering.WebpOnlySorted | src/lib/frames.ts:14-19 | Filtering a sorted list leaves it sorted |
| Ordering.SortedByHead | src/lib/frames.ts:16-19 | The head of a sorted list is <= every element |
| Ordering.MultisetTail | src/lib/frames.ts:16-19 | Two lists with the same head and the same multiset have tails with the same multiset |
| Ordering.SortedByUnique | src/lib/frames.ts:16-19 | When the key tells the elements apart, two sorted permutations of the same multiset are equal |
| Ordering.CodeUnitKeyInjective | scripts/normalize_assets.js:17 | Distinct strings have distinct code-unit keys |
| Ordering.CodeUnitSortUnique | scripts/normalize_assets.js:17 | Sorting two orderings of the same names by code unit gives the same list |
| Ordering.NaturalKeyLetters | src/lib/frames.ts:18 | A digit-free prefix contributes one case-folded token per character |
| Ordering.NaturalKeyNumber | src/lib/frames.ts:18 | A run of digits contributes a single token: its numeric value |
| Ordering.NaturalKeyNumbered | src/lib/frames.ts:17 | `prefix + String(d) + ".webp"` has key letters, then (0, d), then the suffix |
| Ordering.NaturalOrderNumbered | src/lib/frames.ts:17-18 | For names `prefix<n>.webp`, the natural order is numeric order, in both directions, so `frame2.webp` precedes `frame10.webp` |
| Ordering.CodeUnitOrderExample | scripts/normalize_assets.js:17 | The default sort does NOT put `frame2.webp` before `frame10.webp` |
| FrameIndex.FloorIndex | src/components/FrameSequence.tsx:59-62 | For n >= 1 the clamped index lies in [0, n-1] for every progress; for n = 0 it is -1 |
| FrameIndex.FloorIndexInRange | src/components/FrameSequence.tsx:59-62 | Inside [0, 1] the clamps are inactive and the index is floor(p * (n - 1)) |
| FrameIndex.FloorIndexEndpoints | src/components/FrameSequence.tsx:59-62 | Progress 0 maps to frame 0 and progress 1 maps to frame n - 1 |
| FrameIndex.FloorIndexMonotone | src/components/FrameSequence.tsx:59-62 | More progress never gives a smaller index |
| ImageCache.Take | src/components/BurgerStory.tsx:43 | `slice(0, k)` gives the first min(k, length) elements |
| ImageCache.Drop | src/components/BurgerStory.tsx:47 | `slice(k)` is what `slice(0, k)` leaves: together they make the whole list |
| ImageCache.MissingMembers | src/components/BurgerStory.tsx:32-40 | `preload` requests a source exactly when it is listed and not cached; with an empty cache it requests the whole list |
| ImageCache.MissingAppend | src/components/BurgerStory.tsx:47-48 | Two `preload` calls in a row request what one call on the joined list would |
| ImageCache.StagedRequestsSound | src/components/BurgerStory.tsx:31-58 | Every staged request is a scheduled source that was not cached at the start |
| ImageCache.StagedRequestsComplete | src/components/BurgerStory.tsx:31-58 | Every scheduled source is either requested or in the cache by the end of the run (the start cache plus every load that finished); the per-stage statement is `StagedRequestsAtStage` |
| ImageCache.StagedRequestsPrefix | src/components/BurgerStory.tsx:43-52 | Later stages only append: the requests of the first k stages are a prefix of the whole run's requests |
| ImageCache.StagedRequestsAtStage | src/components/BurgerStory.tsx:32-40 | Stage k adds, right after the earlier stages' requests, exactly its sources that are not in the cache as it stands when it fires (start cache plus the loads finished by stage k), so each of its sources is requested or was cached by that stage |
| ImageCache.StagedRequestsNoArrivals | src/components/FrameSequence.tsx:29-53 | When no load finishes between stages, the stages request exactly the uncached part of the schedule, in order |
| ImageCache.Cache.constructor | src/components/BurgerStory.tsx:12 | The module-level cache starts empty, with nothing requested |
| ImageCache.Cache.OnLoad | src/components/BurgerStory.tsx:37 | A source enters the cache only when its image loads |
| ImageCache.Cache.Arrive | src/components/FrameSequence.tsx:35 | After a group of loads the cache holds exactly the old sources plus the loaded ones |
| ImageCache.Cache.Preload | src/components/FrameSequence.tsx:30-38 | `preload(list)` requests the uncached sources in list order and does not change the cache |
| ImageCache.Cache.PreloadAll | src/components/BurgerStory.tsx:46-49 | Several `preload` calls in one timer request the uncached part of their concatenation |
| ImageCache.Cache.RunStages | src/components/BurgerStory.tsx:43-52 | Running the timed stages yields the cache and the request log that `StagedRequests` specifies |
| BurgerStory.StoryTarget | src/components/BurgerStory.tsx:68-84 | Sequence 1 is chosen exactly when progress < 0.5; the frame is a valid index of the active list whenever that list is non-empty |
| BurgerStory.StoryEndpoints | src/components/BurgerStory.tsx:68-84 | Progress 0 gives (1, 0), progress 0.5 gives (2, 0), and progress 1 gives (2, N2 - 1) |
| BurgerStory.StoryMonotone | src/components/BurgerStory.tsx:71-83 | Within each half the frame never decreases as progress grows |
| BurgerStory.ReducedMotionSrc | src/components/BurgerStory.tsx:148-150 | Under reduced motion the image is `frames1[0]` for sequence 1, else the last frame of `frames2`, and is undefined exactly when that list is empty |
| BurgerStory.Story.constructor | src/components/BurgerStory.tsx:17-18 | The player starts at frame 0 of sequence 1, showing `frames1[0]` |
| BurgerStory.Story.OnScroll | src/components/BurgerStory.tsx:61-101 | Reduced motion changes nothing. Otherwise the state moves to the target, and the shown source is the active list's frame. When both the frame and the sequence are unchanged, nothing changes |
| BurgerStory.Story.Displayed | src/components/BurgerStory.tsx:148-161 | Under reduced motion the visitor sees the fixed endpoint frame of the current sequence (`undefined` exactly when that list is empty); otherwise the scrubbed image, which shows the current frame of the current sequence whenever the image is in step with the state |
| BurgerStory.PhilosophyIndex | src/components/BurgerStory.tsx:111-117 | The caption step is always in {0, 1, 2, 3} |
| BurgerStory.PhilosophyIndexCounts | src/components/BurgerStory.tsx:111-117 | The step equals the number of thresholds 0.3, 0.35, 0.4 reached |
| BurgerStory.PhilosophyIndexMonotone | src/components/BurgerStory.tsx:111-117 | The step never decreases as progress grows |
| BurgerStory.PhilosophyText | src/components/BurgerStory.tsx:119-130 | The caption lookup is always one of the four texts |
| BurgerStory.StoryScheduleOrdered | src/components/BurgerStory.tsx:43-52 | The stages fire at strictly increasing delays |
| BurgerStory.StoryScheduleCovers | src/components/BurgerStory.tsx:43-52 | The three stages together schedule `frames1` then `frames2`, each element once |
| BurgerStory.PreloadEffect | src/components/BurgerStory.tsx:31-58 | The effect runs the mount stage plus the timer stages that fired before cleanup, with the cache semantics of `RunStages` |
| BurgerStory.StoryPreloadRequestsEachOnce | src/components/BurgerStory.tsx:31-58 | With an empty cache, every timer fired and no load finishing between stages, each frame of both lists is requested exactly once, in order |
| FrameSequence.SequenceScheduleCovers | src/components/FrameSequence.tsx:40-52 | Under either strategy the stages fire in time order and schedule every frame exactly once, in order |
| FrameSequence.PreloadEffect | src/components/FrameSequence.tsx:29-53 | The effect runs the untimed stage, plus the timed one only if it fired before cleanup, with the cache semantics of `RunStages` |
| FrameSequence.StagesRun | src/components/FrameSequence.tsx:40-52 | At most two stages run; for any frame list the count never exceeds the strategy's stages, and every stage runs exactly when the timer fired (under `lazy` nothing runs otherwise) |
| FrameSequence.SequencePreloadRequestsEachOnce | src/components/FrameSequence.tsx:29-53 | With an empty cache, the timer fired and no load finishing between stages, every frame is requested exactly once, in order |
| FrameSequence.Render | src/components/FrameSequence.tsx:78-108 | An empty list renders nothing. Otherwise: a crossfade of the first and last frames under reduced motion, else the scrubbed image starting at `frames[0]` |
| FrameSequence.Player.constructor | src/components/FrameSequence.tsx:18 | The player starts at frame 0, showing `frames[0]` |
| FrameSequence.Player.OnScroll | src/components/FrameSequence.tsx:56-72 | Reduced motion changes nothing. Otherwise the frame becomes the mapped index and the image shows that frame. An equal index leaves the state untouched |
| Frames.FrameNames | src/lib/frames.ts:14-19 | The names are sorted in natural order and are a permutation of the listing's `.webp` entries |
| Frames.GetFrames | src/lib/frames.ts:4-21 | A missing folder gives []; otherwise URL i is `/` + folder + `/` + name i |
| Frames.GetFramesShape | src/lib/frames.ts:14-20 | There is one URL per `.webp` entry, every URL ends in `.webp`, and the list is empty exactly when the listing has no `.webp` entry |
| Frames.FrameNameListed | src/lib/frames.ts:14-19 | Every frame name is a `.webp` entry of the folder's listing |
| Frames.UrlOfWebp | src/lib/frames.ts:20 | The URL of a `.webp` name ends in `.webp` and is longer than the folder with its two slashes |
| Frames.FrameNamesIgnoreListingOrder | src/lib/frames.ts:12-19 | If no two `.webp` names tie in the natural order, the result does not depend on the order of the listing |
| NormalizeAssets.SortEach | scripts/normalize_assets.js:17 | There is one sorted listing per directory |
| NormalizeAssets.SortEachAt | scripts/normalize_assets.js:17 | Each directory's sorted listing is in code-unit order and is a permutation of its listing |
| NormalizeAssets.Plan | scripts/normalize_assets.js:14-33 | The nested loops with the global counter produce the specified plan, and the reported total is its length |
| NormalizeAssets.CopyDir | scripts/normalize_assets.js:16-31 | One directory's pass extends the plan by that directory's copies |
| NormalizeAssets.CopyFiles | scripts/normalize_assets.js:19-30 | The inner loop appends one copy per `.webp` name, numbered by the counter, and the counter ends one past the plan |
| NormalizeAssets.CopyStep | scripts/normalize_assets.js:19-30 | One turn of the inner loop, with the name built inline, keeps the plan equal to the copies of the names seen so far |
| NormalizeAssets.TargetNameIs | scripts/normalize_assets.js:23 | The name built inline is the target name of the counter |
| NormalizeAssets.DirCopiesStep | scripts/normalize_assets.js:20-28 | A `.webp` name adds one copy under the next number; any other name adds nothing and uses no number |
| NormalizeAssets.PlanOfStep | scripts/normalize_assets.js:16 | The next directory's copies are appended after all earlier ones |
| NormalizeAssets.DirCopiesLength | scripts/normalize_assets.js:20 | A directory contributes one copy per `.webp` name |
| NormalizeAssets.DirCopiesEntry | scripts/normalize_assets.js:20-28 | The j-th copy of a directory is its j-th `.webp` name, numbered next + j |
| NormalizeAssets.PlanOfEntry | scripts/normalize_assets.js:14-28 | Copy j has number j + 1 and name `Pad4(j + 1).webp`, and is a `.webp` file of its own directory |
| NormalizeAssets.PlanEntry | scripts/normalize_assets.js:14-28 | Numbers run 1..K with no gaps; each copy is a `.webp` file listed in its source directory |
| NormalizeAssets.TargetNameInjective | scripts/normalize_assets.js:23 | Equal target names come from equal counters |
| NormalizeAssets.PlanTargetsDistinct | scripts/normalize_assets.js:23-26 | No two copies share a target name, so no copy overwrites another |
| NormalizeAssets.PlanOfLength | scripts/normalize_assets.js:20-28 | The plan has one copy per `.webp` name across all directories |
| NormalizeAssets.WebpTotalSameNames | scripts/normalize_assets.js:17-20 | Reordering listings does not change the `.webp` count |
| NormalizeAssets.PlanTotal | scripts/normalize_assets.js:33 | The reported total `globalIndex - 1` equals the number K of `.webp` files across all directories |
| NormalizeAssets.PlanOfDirsOrdered | scripts/normalize_assets.js:4-7 | Copies from earlier directories come first |
| NormalizeAssets.PlanDirsOrdered | scripts/normalize_assets.js:4-16 | Every file from an earlier source directory is numbered before every file from a later one |
| NormalizeAssets.DirFilesAppend | scripts/normalize_assets.js:16 | The files copied from one directory split over appended plan parts |
| NormalizeAssets.DirFilesOfDir | scripts/normalize_assets.js:19-20 | A directory's copies all carry its own index, and they are its `.webp` names |
| NormalizeAssets.DirFilesBeyond | scripts/normalize_assets.js:16 | No copy names a directory that is not in the list |
| NormalizeAssets.PlanOfDirFiles | scripts/normalize_assets.js:16-30 | The names copied from directory d are exactly the `.webp` part of its sorted listing |
| NormalizeAssets.PlanDirOrder | scripts/normalize_assets.js:17-20 | Within a directory, the copies are sorted in code-unit order and are a permutation of its `.webp` files |
| NormalizeAssets.PlanIgnoresListingOrder | scripts/normalize_assets.js:16-31 | The plan depends only on which names each directory holds, so a rerun on unchanged directories gives the same mapping |
| ScrollyTelling.Range | src/components/ScrollyTelling.tsx:32 | The loop's indices are lo, lo + 1, …, hi - 1 |
| ScrollyTelling.RangeSplit | src/components/ScrollyTelling.tsx:29-32 | Adjacent windows join into one range |
| ScrollyTelling.BatchesCover | src/components/ScrollyTelling.tsx:22-32 | All batches together request every frame from 1 to FRAME_COUNT exactly once, in increasing order |
| ScrollyTelling.BatchesSizes | src/components/ScrollyTelling.tsx:29 | Every batch is non-empty and holds at most BATCH_SIZE frames; all but the last are full |
| ScrollyTelling.BatchesChained | src/components/ScrollyTelling.tsx:26-29 | Each batch starts where the previous one ended; the first starts at `currentIndex` and the last ends at FRAME_COUNT + 1; there are none once `currentIndex` > FRAME_COUNT |
| ScrollyTelling.BatchCount | src/components/ScrollyTelling.tsx:29 | The batch count is the number of remaining frames divided by the batch size, rounded up |
| ScrollyTelling.BatchesFull | src/components/ScrollyTelling.tsx:29 | When the frames left are a whole number m of batches, there are exactly m batches, all full |
| ScrollyTelling.TwelveBatches | src/components/ScrollyTelling.tsx:6-7 | 384 frames in batches of 32 are exactly 12 full batches |
| ScrollyTelling.HundredFramesExample | src/components/ScrollyTelling.tsx:29 | 100 frames give batches of 32, 32, 32 and 4 |
| ScrollyTelling.Fill | src/components/ScrollyTelling.tsx:37-44 | Settling a range of frames keeps the slot array's length |
| ScrollyTelling.FillCompose | src/components/ScrollyTelling.tsx:50-57 | Settling [a, b) and then [b, c) is the same as settling [a, c) |
| ScrollyTelling.FillStep | src/components/ScrollyTelling.tsx:37-44 | Settling one more frame fills its slot when it loads and changes nothing when it fails |
| ScrollyTelling.FillKeepsFrames | src/components/ScrollyTelling.tsx:32-38 | After a batch settles, every filled slot holds a frame below the new cursor, under its own URL |
| ScrollyTelling.CountLoadedFill | src/components/ScrollyTelling.tsx:38-39 | Filling an empty slot raises the loaded count by one |
| ScrollyTelling.NoneSlots | src/components/ScrollyTelling.tsx:20 | The fresh array has FRAME_COUNT slots, all empty |
| ScrollyTelling.FullRunSlots | src/components/ScrollyTelling.tsx:20-57 | After a full run, slot k holds frame k + 1 exactly when that frame loaded |
| ScrollyTelling.ContainBelowCover | src/components/ScrollyTelling.tsx:93-105 | The contain scale is never larger than the cover scale |
| ScrollyTelling.CoverCoversCanvas | src/components/ScrollyTelling.tsx:93-97 | The cover rectangle reaches past the canvas on every side and meets it on two opposite sides. It keeps the aspect ratio and is centred |
| ScrollyTelling.ContainFitsCanvas | src/components/ScrollyTelling.tsx:105-109 | The contain rectangle lies inside the canvas and meets it on two opposite sides. It keeps the aspect ratio and is centred |
| ScrollyTelling.RenderIndex | src/components/ScrollyTelling.tsx:75-78 | The render index is always in [0, FRAME_COUNT - 1] |
| ScrollyTelling.RenderIndexNearest | src/components/ScrollyTelling.tsx:75-78 | Inside the frame range the index is the frame nearest the motion value, with halves rounding up |
| ScrollyTelling.RenderIndexMonotone | src/components/ScrollyTelling.tsx:75-78 | A larger motion value never gives a smaller index |
| ScrollyTelling.Paint | src/components/ScrollyTelling.tsx:80-112 | Nothing is drawn unless the slot holds a loaded image. Otherwise there are two draws of that image: first blurred and covering the canvas, then crisp and inside it |
| ScrollyTelling.Canvas.constructor | src/components/ScrollyTelling.tsx:10 | The element behind `canvasRef` starts blank, at the HTML canvas element's default size of 300 by 150; the source sets no size until its first render |
| ScrollyTelling.Player.constructor | src/components/ScrollyTelling.tsx:20-22 | Mount: all FRAME_COUNT slots empty, the cursor at 1, the invariant established |
| ScrollyTelling.Player.NoneCount | src/components/ScrollyTelling.tsx:13 | An all-empty array has a loaded count of 0 |
| ScrollyTelling.Player.OnLoad | src/components/ScrollyTelling.tsx:37-41 | A load of frame i writes slot i - 1 only, which is always in range, and raises the count by one |
| ScrollyTelling.Player.SettleBatch | src/components/ScrollyTelling.tsx:32-50 | After a batch settles, each loaded frame is in its slot and failures leave slots untouched. The count matches the array |
| ScrollyTelling.Player.RunBatch | src/components/ScrollyTelling.tsx:29-54 | One round advances the cursor strictly to min(cursor + 32, FRAME_COUNT + 1), fills the batch's slots and publishes a copy |
| ScrollyTelling.Player.LoadBatch | src/components/ScrollyTelling.tsx:24-58 | The recursion terminates with the cursor at FRAME_COUNT + 1, after running exactly the specified batches; a failed load does not stop later batches |
| ScrollyTelling.Player.Render | src/components/ScrollyTelling.tsx:72-112 | The canvas is resized to the window, and the draws appended are exactly `Paint` of the published slot at the render index |
| ScrollyTelling.MountAndPreload | src/components/ScrollyTelling.tsx:19-63 | Mount plus a full preload issues the 12 batches in order. The published array holds frame k + 1 in slot k exactly when that frame loaded |

## Left out

- Concurrency. Each batch's `Promise.all` is one sequential step: its requests settle in frame order and then the batch completes. The `onload` callbacks of the DOM players' `preload` are gathered into the `arrivals` input, not interleaved.
- Time. `setTimeout` and `requestAnimationFrame` are not modelled, and neither is `clearTimeout` on unmount. Which timed stages fire is an input, and a stage's effect happens when it fires.
- The ScrollyTelling preloader effect has no cleanup, so once mounted it runs to the end. The model runs it to the end too; an unmount mid-preload is not modelled.
- The resize listener is never removed, because removal is given a fresh closure. That is not modelled, and neither is the fact that setting `canvas.width` clears the canvas.
- Canvas filters (`blur`, `brightness`) and `save`/`restore` are not modelled. Only the `blurred` flag on each draw is kept.
- Floating point. Scroll progress, motion values and the cover/contain arithmetic are over `real`. So rounding of JavaScript doubles, NaN and infinities are not modelled.
- The framer-motion `useTransform` mapping from scroll to the ScrollyTelling motion value is not modelled; the motion value is an input. The same holds for every opacity curve of the text sections and of the reduced-motion crossfade.
- React semantics are not modelled: state updates are immediate, with no batching or stale closures. `setLoadedCount`'s counter is the model's `loadedCount`. The `imgRef` presence check is not modelled: the image source is updated whenever the state changes.
- The two module-level image caches are each an explicit `Cache` object that the caller owns. Sharing across component instances is not modelled.
- The ScrollyTelling variable `activeRequests` is declared but never used, so it is not modelled.
- FrameSequence's debug badge and `debugName` are not modelled. JSX markup and styling are not modelled.
- `Ordering.NaturalKey` models `localeCompare(b, undefined, {numeric: true, sensitivity: 'base'})` only in simplified form:
  - a maximal run of ASCII digits is one token, compared by numeric value;
  - any other character is one token, compared by its code after ASCII case folding;
  - digit runs sort before other characters.
  ICU collation (accents, punctuation weights, non-Latin scripts) is not modelled. JavaScript's sort is stable, and so is the model's insertion sort, but no lemma states that names which tie keep their listing order.
- `Ordering.CodeUnitKey` treats each `char` as one UTF-16 code unit. Characters outside the Basic Multilingual Plane are not modelled.
- File-system calls are not modelled: `existsSync`, `mkdirSync`, `readdir`, `readdirSync` and their errors. Listings are inputs, and a missing folder is `None`. `copyFileSync` becomes a returned plan of copies; copy failures and `console` output are not modelled.
- `NormalizeAssets.Plan` takes any number of source directories (the script lists two, `animation1` then `animation2`). Directory `d` of the input stands for the script's `d`-th source directory.
- Image sizes are positive integers, and `img.complete` is the slot being filled. An image with a zero natural size is not modelled.
- BurgerStory.Story and FrameSequence.Player: the reduced-motion preference is fixed when the player is constructed; a change of the media preference while the component is mounted is not modelled.

## Notes on the code

- In `philosophyIndex`, the branch `p < 0.45` returns 3, the same as the fall-through, so the caption has four steps but only three thresholds. `BurgerStory.PhilosophyIndexCounts` states that.
- The ScrollyTelling loader stops when `currentIndex > FRAME_COUNT`, checked at the start of `loadBatch`. The last batch is cut to end at `FRAME_COUNT + 1`, so no frame outside 1..384 is ever requested.
- The FrameSequence comment says "first 10", but the code preloads 20 frames immediately. The model follows the code.
- In BurgerStory, `shouldReduceMotion` makes the scroll handler return at once, so while it holds `currentSequence` keeps its initial value 1. The `frames2[totalFrames2 - 1]` branch of the reduced-motion image can then show only if the preference turns on after the visitor has scrolled into the second half. The model fixes the preference when `Story` is constructed, so in the model that branch is never displayed; `Story.OnScroll` states that reduced motion leaves the state unchanged.
