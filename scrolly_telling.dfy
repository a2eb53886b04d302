/** The canvas-based scroll player: a batched preloader that fills a
    fixed-length slot array with the frames `/frames/0001.webp` ...
    `/frames/0384.webp`, and a render step that picks the frame nearest the
    scroll position and paints it twice, blurred to cover the canvas and
    crisp to fit inside it. Image loading is a parameter: `net[i - 1]` says
    whether the request for frame `i` loads (and at which size) or fails. */
module ScrollyTelling {
  import opened Wrappers
  import opened Naming
  import opened MinMax

  const FrameCount: nat := 384
  const BatchSize: nat := 32

  // ---------------------------------------------------------------------
  // Batch schedule
  // ---------------------------------------------------------------------

  /** The frame numbers `[start, limit)` requested together. */
  datatype Batch = Batch(start: nat, limit: nat)

  /** The batches `loadBatch` runs when `currentIndex` is `current`: one of
      `[current, min(current + size, count + 1))`, then the rest, until
      `current > count`. */
  function Batches(current: nat, count: nat, size: nat): seq<Batch>
    requires size >= 1
    decreases count + 1 - current
  {
    if current > count then []
    else
      var limit := Min(current + size, count + 1);
      [Batch(current, limit)] + Batches(limit, count, size)
  }

  /** `lo, lo + 1, ..., hi - 1`. */
  function Range(lo: int, hi: int): (r: seq<int>)
    ensures |r| == Max(0, hi - lo)
    ensures forall k :: 0 <= k < |r| ==> r[k] == lo + k
    decreases hi - lo
  {
    if lo >= hi then [] else [lo] + Range(lo + 1, hi)
  }

  /** The frame numbers the batches request, in request order. */
  function Indices(bs: seq<Batch>): seq<int> {
    if bs == [] then [] else Range(bs[0].start, bs[0].limit) + Indices(bs[1..])
  }

  lemma {:induction false} RangeSplit(lo: int, mid: int, hi: int)
    requires lo <= mid <= hi
    ensures Range(lo, mid) + Range(mid, hi) == Range(lo, hi)
  {
  }

  /** Together the batches request every frame from `current` to `count`
      exactly once, in increasing order. */
  lemma {:induction false} BatchesCover(current: nat, count: nat, size: nat)
    requires size >= 1 && current <= count + 1
    ensures Indices(Batches(current, count, size)) == Range(current, count + 1)
    decreases count + 1 - current
  {
    if current <= count {
      var limit := Min(current + size, count + 1);
      var bs := Batches(current, count, size);
      assert bs[1..] == Batches(limit, count, size);
      BatchesCover(limit, count, size);
      RangeSplit(current, limit, count + 1);
    }
  }

  /** Each batch is non-empty and holds at most `size` frames, and every
      batch but the last is full. */
  lemma {:induction false} BatchesSizes(current: nat, count: nat, size: nat)
    requires size >= 1
    ensures forall k :: 0 <= k < |Batches(current, count, size)| ==>
      Batches(current, count, size)[k].start < Batches(current, count, size)[k].limit
                                             <= Batches(current, count, size)[k].start + size
    ensures forall k :: 0 <= k < |Batches(current, count, size)| - 1 ==>
      Batches(current, count, size)[k].limit == Batches(current, count, size)[k].start + size
    decreases count + 1 - current
  {
    if current <= count {
      var limit := Min(current + size, count + 1);
      var bs := Batches(current, count, size);
      var rest := Batches(limit, count, size);
      assert bs == [Batch(current, limit)] + rest;
      BatchesSizes(limit, count, size);
      if limit <= count {
        assert rest != [];
      }
      forall k | 1 <= k < |bs|
        ensures bs[k].start < bs[k].limit <= bs[k].start + size
        ensures k < |bs| - 1 ==> bs[k].limit == bs[k].start + size
      {
        assert bs[k] == rest[k - 1];
      }
    }
  }

  /** Each batch starts where the previous one ended; the first starts at
      `current` and the last ends at `count + 1`; there are none once
      `current` is past `count`. */
  lemma {:induction false} BatchesChained(current: nat, count: nat, size: nat)
    requires size >= 1
    ensures forall k :: 0 <= k < |Batches(current, count, size)| - 1 ==>
      Batches(current, count, size)[k].limit == Batches(current, count, size)[k + 1].start
    ensures current <= count ==>
      && Batches(current, count, size) != []
      && Batches(current, count, size)[0].start == current
      && Batches(current, count, size)[|Batches(current, count, size)| - 1].limit == count + 1
    ensures current > count ==> Batches(current, count, size) == []
    decreases count + 1 - current
  {
    if current <= count {
      var limit := Min(current + size, count + 1);
      var bs := Batches(current, count, size);
      var rest := Batches(limit, count, size);
      assert bs == [Batch(current, limit)] + rest;
      BatchesChained(limit, count, size);
      forall k | 1 <= k < |bs| - 1 ensures bs[k].limit == bs[k + 1].start {
        assert bs[k] == rest[k - 1] && bs[k + 1] == rest[k];
      }
      if rest != [] {
        assert bs[|bs| - 1] == rest[|rest| - 1];
      }
    }
  }

  /** The number of batches is `count - current + 1` divided by `size`,
      rounded up: all but the last batch are full and the last is not empty. */
  lemma {:induction false} BatchCount(current: nat, count: nat, size: nat)
    requires size >= 1 && current <= count + 1
    ensures var n := |Batches(current, count, size)|;
      (n - 1) * size < count + 1 - current <= n * size
    decreases count + 1 - current
  {
    var left := count + 1 - current;
    if current <= count {
      var limit := Min(current + size, count + 1);
      BatchCount(limit, count, size);
      var m := |Batches(limit, count, size)|;
      assert |Batches(current, count, size)| == m + 1;
      assert (m + 1) * size == m * size + size;
      assert m * size == (m - 1) * size + size;
    }
  }

  /** When the frames left are a whole number `m` of batches, every batch
      is full and there are exactly `m` of them. */
  lemma {:induction false} BatchesFull(current: nat, count: nat, size: nat, m: nat)
    requires size >= 1 && count + 1 - current == m * size && current <= count + 1
    ensures |Batches(current, count, size)| == m
    ensures forall k :: 0 <= k < m ==>
      Batches(current, count, size)[k].limit == Batches(current, count, size)[k].start + size
    decreases m
  {
    if m > 0 {
      assert m * size == (m - 1) * size + size;
      BatchesFull(current + size, count, size, m - 1);
    }
  }

  /** 384 frames in batches of 32 are exactly 12 full batches. */
  lemma TwelveBatches()
    ensures |Batches(1, FrameCount, BatchSize)| == 12
    ensures forall k :: 0 <= k < 12 ==>
      Batches(1, FrameCount, BatchSize)[k].limit - Batches(1, FrameCount, BatchSize)[k].start == BatchSize
  {
    BatchesFull(1, FrameCount, BatchSize, 12);
  }

  /** 100 frames in batches of 32: batches of 32, 32, 32 and 4. */
  lemma HundredFramesExample()
    ensures Batches(1, 100, 32) == [Batch(1, 33), Batch(33, 65), Batch(65, 97), Batch(97, 101)]
  {
  }

  // ---------------------------------------------------------------------
  // Slot array
  // ---------------------------------------------------------------------

  type Pos = n: int | n > 0 witness 1

  /** A decoded image: where it came from and its natural size. */
  datatype Image = Image(src: string, width: Pos, height: Pos)

  /** How the request for one frame settles. */
  datatype Fetch = Loaded(width: Pos, height: Pos) | Failed

  /** The slots after frames `lo <= i < hi` have settled: a frame that
      loaded is in slot `i - 1`; a frame that failed leaves its slot as it
      was; every other slot is untouched. */
  function Fill(slots: seq<Option<Image>>, net: seq<Fetch>, lo: int, hi: int): (r: seq<Option<Image>>)
    requires |net| == |slots|
    ensures |r| == |slots|
  {
    seq(|slots|, k requires 0 <= k < |slots| =>
      if lo <= k + 1 < hi && net[k].Loaded?
      then Some(Image(FrameUrl(k + 1), net[k].width, net[k].height))
      else slots[k])
  }

  lemma FillCompose(slots: seq<Option<Image>>, net: seq<Fetch>, a: int, b: int, c: int)
    requires |net| == |slots| && a <= b <= c
    ensures Fill(Fill(slots, net, a, b), net, b, c) == Fill(slots, net, a, c)
  {
  }

  /** Settling frames `[lo, hi)` over slots that hold only frames below
      `lo`, each under its own URL, leaves slots that hold only frames below
      `hi`, each under its own URL. */
  lemma FillKeepsFrames(slots: seq<Option<Image>>, net: seq<Fetch>, lo: int, hi: int)
    requires |net| == |slots| && lo <= hi
    requires forall k :: 0 <= k < |slots| && slots[k].Some? ==>
               k + 1 < lo && slots[k].value.src == FrameUrl(k + 1)
    ensures forall k :: 0 <= k < |slots| && Fill(slots, net, lo, hi)[k].Some? ==>
              k + 1 < hi && Fill(slots, net, lo, hi)[k].value.src == FrameUrl(k + 1)
  {
  }

  /** Settling frame `i` after `[lo, i)`: a load fills slot `i - 1`, a
      failure changes nothing. */
  lemma FillStep(slots: seq<Option<Image>>, net: seq<Fetch>, lo: int, i: nat)
    requires |net| == |slots| && lo <= i && 1 <= i <= |slots|
    ensures net[i - 1].Loaded? ==>
      Fill(slots, net, lo, i)[i - 1 := Some(Image(FrameUrl(i), net[i - 1].width, net[i - 1].height))]
        == Fill(slots, net, lo, i + 1)
    ensures net[i - 1].Failed? ==> Fill(slots, net, lo, i) == Fill(slots, net, lo, i + 1)
  {
  }

  function CountLoaded(slots: seq<Option<Image>>): nat {
    if slots == [] then 0
    else CountLoaded(slots[..|slots| - 1]) + (if slots[|slots| - 1].Some? then 1 else 0)
  }

  /** Filling an empty slot adds one to the loaded count. */
  lemma {:induction false} CountLoadedFill(slots: seq<Option<Image>>, k: nat, img: Image)
    requires k < |slots| && slots[k].None?
    ensures CountLoaded(slots[k := Some(img)]) == CountLoaded(slots) + 1
    decreases |slots|
  {
    var n := |slots| - 1;
    var t := slots[k := Some(img)];
    if k < n {
      assert t[..n] == slots[..n][k := Some(img)];
      CountLoadedFill(slots[..n], k, img);
    } else {
      assert t[..n] == slots[..n];
    }
  }

  function NoneSlots(n: nat): (r: seq<Option<Image>>)
    ensures |r| == n && forall k :: 0 <= k < n ==> r[k] == None
  {
    seq(n, _ => None)
  }

  /** After a full run from an empty array, a slot holds frame `k + 1`
      exactly when its request loaded. */
  lemma FullRunSlots(net: seq<Fetch>)
    requires |net| == FrameCount
    ensures var r := Fill(NoneSlots(FrameCount), net, 1, FrameCount + 1);
      forall k :: 0 <= k < FrameCount ==>
        (r[k].Some? <==> net[k].Loaded?) &&
        (r[k].Some? ==> r[k].value.src == FrameUrl(k + 1))
  {
  }

  // ---------------------------------------------------------------------
  // Cover / contain placement (real arithmetic stands for JS doubles)
  // ---------------------------------------------------------------------

  datatype Rect = Rect(x: real, y: real, w: real, h: real)

  function RMax(a: real, b: real): real { if a >= b then a else b }
  function RMin(a: real, b: real): real { if a <= b then a else b }

  function CoverScale(cw: real, ch: real, iw: real, ih: real): real
    requires iw > 0.0 && ih > 0.0
  {
    RMax(cw / iw, ch / ih)
  }

  function ContainScale(cw: real, ch: real, iw: real, ih: real): real
    requires iw > 0.0 && ih > 0.0
  {
    RMin(cw / iw, ch / ih)
  }

  /** The image scaled by `scale`, centred on the canvas. */
  function Place(cw: real, ch: real, iw: real, ih: real, scale: real): Rect {
    var w := iw * scale;
    var h := ih * scale;
    Rect((cw - w) / 2.0, (ch - h) / 2.0, w, h)
  }

  function Cover(cw: real, ch: real, iw: real, ih: real): Rect
    requires iw > 0.0 && ih > 0.0
  {
    Place(cw, ch, iw, ih, CoverScale(cw, ch, iw, ih))
  }

  function Contain(cw: real, ch: real, iw: real, ih: real): Rect
    requires iw > 0.0 && ih > 0.0
  {
    Place(cw, ch, iw, ih, ContainScale(cw, ch, iw, ih))
  }

  lemma MulMonotone(a: real, x: real, y: real)
    requires a >= 0.0 && x <= y
    ensures a * x <= a * y
  {
    assert a * y - a * x == a * (y - x);
  }

  /** Scaling by `c / i` turns length `i` into `c`. */
  lemma ScaleExact(c: real, i: real)
    requires i > 0.0
    ensures i * (c / i) == c
  {
  }

  /** Contain never scales more than cover. */
  lemma ContainBelowCover(cw: real, ch: real, iw: real, ih: real)
    requires iw > 0.0 && ih > 0.0
    ensures ContainScale(cw, ch, iw, ih) <= CoverScale(cw, ch, iw, ih)
  {
  }

  /** The cover rectangle reaches the canvas edge on every side (meeting it
      on two opposite sides), keeps the image's aspect ratio and shares the
      canvas centre. */
  lemma CoverCoversCanvas(cw: real, ch: real, iw: real, ih: real)
    requires iw > 0.0 && ih > 0.0
    ensures var c := Cover(cw, ch, iw, ih);
      && c.x <= 0.0 && c.y <= 0.0 && c.x + c.w >= cw && c.y + c.h >= ch
      && (c.w == cw || c.h == ch)
      && c.w * ih == c.h * iw
      && c.x + c.w / 2.0 == cw / 2.0 && c.y + c.h / 2.0 == ch / 2.0
  {
    var sx, sy := cw / iw, ch / ih;
    var s := CoverScale(cw, ch, iw, ih);
    ScaleExact(cw, iw);
    ScaleExact(ch, ih);
    MulMonotone(iw, sx, s);
    MulMonotone(ih, sy, s);
    assert (iw * s) * ih == (ih * s) * iw;
  }

  /** The contain rectangle lies inside the canvas (meeting it on two
      opposite sides), keeps the image's aspect ratio and shares the canvas
      centre. */
  lemma ContainFitsCanvas(cw: real, ch: real, iw: real, ih: real)
    requires iw > 0.0 && ih > 0.0
    ensures var f := Contain(cw, ch, iw, ih);
      && f.x >= 0.0 && f.y >= 0.0 && f.x + f.w <= cw && f.y + f.h <= ch
      && (f.w == cw || f.h == ch)
      && f.w * ih == f.h * iw
      && f.x + f.w / 2.0 == cw / 2.0 && f.y + f.h / 2.0 == ch / 2.0
  {
    var sx, sy := cw / iw, ch / ih;
    var s := ContainScale(cw, ch, iw, ih);
    ScaleExact(cw, iw);
    ScaleExact(ch, ih);
    MulMonotone(iw, s, sx);
    MulMonotone(ih, s, sy);
    assert (iw * s) * ih == (ih * s) * iw;
  }

  // ---------------------------------------------------------------------
  // Render
  // ---------------------------------------------------------------------

  /** `Math.round(x)` in JavaScript: the nearest integer, halves upwards. */
  function Round(x: real): int {
    (x + 0.5).Floor
  }

  /** `Math.min(FRAME_COUNT - 1, Math.max(0, Math.round(v)))` for the
      motion value `v`: always a valid slot. */
  function RenderIndex(v: real): (r: int)
    ensures 0 <= r < FrameCount
  {
    Min(FrameCount - 1, Max(0, Round(v)))
  }

  /** Inside the frame range the render index is the frame nearest `v`. */
  lemma RenderIndexNearest(v: real)
    requires 0.0 <= v <= (FrameCount - 1) as real
    ensures var r := RenderIndex(v) as real; r - 0.5 <= v < r + 0.5
  {
  }

  lemma RenderIndexMonotone(v: real, w: real)
    requires v <= w
    ensures RenderIndex(v) <= RenderIndex(w)
  {
  }

  /** One `drawImage` call: which image, whether under the blur filter, where. */
  datatype DrawCall = DrawCall(src: string, blurred: bool, rect: Rect)

  /** What `render` paints for slot `index` of `images` on a `cw` by `ch`
      canvas: nothing unless that slot holds a loaded image; otherwise the
      blurred cover pass, then the crisp contain pass on top. */
  function Paint(images: seq<Option<Image>>, index: int, cw: real, ch: real): (r: seq<DrawCall>)
    requires cw >= 0.0 && ch >= 0.0
    ensures r == [] <==> !(0 <= index < |images| && images[index].Some?)
    ensures r != [] ==>
      var img := images[index].value;
      && |r| == 2
      && r[0].src == img.src && r[0].blurred
      && r[1].src == img.src && !r[1].blurred
      && r[0].rect.x <= 0.0 && r[0].rect.x + r[0].rect.w >= cw
      && r[0].rect.y <= 0.0 && r[0].rect.y + r[0].rect.h >= ch
      && r[1].rect.x >= 0.0 && r[1].rect.x + r[1].rect.w <= cw
      && r[1].rect.y >= 0.0 && r[1].rect.y + r[1].rect.h <= ch
  {
    var slot := At(images, index);
    if slot.Some? && slot.value.Some? then
      var img := slot.value.value;
      var iw, ih := img.width as real, img.height as real;
      CoverCoversCanvas(cw, ch, iw, ih);
      ContainFitsCanvas(cw, ch, iw, ih);
      [DrawCall(img.src, true, Cover(cw, ch, iw, ih)), DrawCall(img.src, false, Contain(cw, ch, iw, ih))]
    else []
  }

  /** The drawing surface; `draws` is every `drawImage` call made on it. */
  class Canvas {
    var width: nat
    var height: nat
    var draws: seq<DrawCall>

    /** A fresh canvas element is 300 by 150 and blank. */
    constructor ()
      ensures width == 300 && height == 150 && draws == []
    {
      width, height, draws := 300, 150, [];
    }
  }

  /** The component: the preloader's slot array and cursor, and the React
      state the renderer reads. */
  class Player {
    const loadedImages: array<Option<Image>>
    var currentIndex: nat
    var images: seq<Option<Image>>
    var loadedCount: nat
    /** The batches started so far. */
    ghost var issued: seq<Batch>

    ghost predicate Valid()
      reads this, loadedImages
    {
      && loadedImages.Length == FrameCount
      && 1 <= currentIndex <= FrameCount + 1
      && (forall k :: 0 <= k < FrameCount && loadedImages[k].Some? ==>
            k + 1 < currentIndex && loadedImages[k].value.src == FrameUrl(k + 1))
      && loadedCount == CountLoaded(loadedImages[..])
    }

    /** Mount: every slot empty, the cursor at frame 1, no state yet. */
    constructor ()
      ensures Valid() && fresh(loadedImages)
      ensures loadedImages[..] == NoneSlots(FrameCount)
      ensures currentIndex == 1 && images == [] && loadedCount == 0 && issued == []
    {
      loadedImages := new Option<Image>[FrameCount](_ => None);
      currentIndex := 1;
      images := [];
      loadedCount := 0;
      issued := [];
      new;
      assert loadedImages[..] == NoneSlots(FrameCount);
      assert CountLoaded(NoneSlots(FrameCount)) == 0 by {
        NoneCount(FrameCount);
      }
    }

    static lemma {:induction false} NoneCount(n: nat)
      ensures CountLoaded(NoneSlots(n)) == 0
    {
      if n > 0 {
        assert NoneSlots(n)[..n - 1] == NoneSlots(n - 1);
        NoneCount(n - 1);
      }
    }

    /** `img.onload` for frame `i`: slot `i - 1` takes the image, nothing
        else in the array changes, and the loaded count goes up by one. */
    method OnLoad(i: nat, img: Image)
      requires loadedImages.Length == FrameCount && 1 <= i <= FrameCount
      modifies loadedImages, this`loadedCount
      ensures loadedImages[..] == old(loadedImages[..])[i - 1 := Some(img)]
      ensures loadedCount == old(loadedCount) + 1
    {
      loadedImages[i - 1] := Some(img);
      loadedCount := loadedCount + 1;
    }

    /** The requests of frames `[lo, hi)` settle: each loaded frame goes
        into its slot, a failed one leaves its slot alone. */
    method SettleBatch(lo: nat, hi: nat, net: seq<Fetch>)
      requires loadedImages.Length == FrameCount && |net| == FrameCount
      requires 1 <= lo <= hi <= FrameCount + 1
      requires forall k :: lo <= k + 1 < hi ==> loadedImages[k].None?
      requires loadedCount == CountLoaded(loadedImages[..])
      modifies loadedImages, this`loadedCount
      ensures loadedImages[..] == Fill(old(loadedImages[..]), net, lo, hi)
      ensures loadedCount == CountLoaded(loadedImages[..])
    {
      ghost var before := loadedImages[..];
      for i := lo to hi
        invariant loadedImages[..] == Fill(before, net, lo, i)
        invariant loadedCount == CountLoaded(loadedImages[..])
      {
        FillStep(before, net, lo, i);
        match net[i - 1]
        case Loaded(w, h) =>
          var img := Image(FrameUrl(i), w, h);
          assert loadedImages[i - 1] == before[i - 1];
          CountLoadedFill(loadedImages[..], i - 1, img);
          OnLoad(i, img);
        case Failed =>
      }
    }

    /** One batch: request frames `[currentIndex, limit)`, let each settle,
        advance the cursor to `limit` and publish a copy of the slots. */
    method RunBatch(net: seq<Fetch>)
      requires Valid() && currentIndex <= FrameCount && |net| == FrameCount
      modifies this, loadedImages
      ensures Valid()
      ensures currentIndex == Min(old(currentIndex) + BatchSize, FrameCount + 1)
      ensures loadedImages[..] == Fill(old(loadedImages[..]), net, old(currentIndex), currentIndex)
      ensures images == loadedImages[..]
      ensures issued == old(issued) + [Batch(old(currentIndex), currentIndex)]
    {
      var limit := Min(currentIndex + BatchSize, FrameCount + 1);
      ghost var before := loadedImages[..];
      SettleBatch(currentIndex, limit, net);
      FillKeepsFrames(before, net, currentIndex, limit);
      issued := issued + [Batch(currentIndex, limit)];
      currentIndex := limit;
      images := loadedImages[..];
    }

    /** `loadBatch`: stop once the cursor passes the last frame, otherwise
        run one batch and start again. */
    method LoadBatch(net: seq<Fetch>)
      requires Valid() && |net| == FrameCount
      modifies this, loadedImages
      ensures Valid()
      ensures currentIndex == FrameCount + 1
      ensures loadedImages[..] == Fill(old(loadedImages[..]), net, old(currentIndex), FrameCount + 1)
      ensures issued == old(issued) + Batches(old(currentIndex), FrameCount, BatchSize)
      ensures old(currentIndex) <= FrameCount ==> images == loadedImages[..]
      ensures old(currentIndex) > FrameCount ==> images == old(images)
      decreases FrameCount + 1 - currentIndex
    {
      if currentIndex > FrameCount {
        return;
      }
      ghost var start := currentIndex;
      ghost var before := loadedImages[..];
      RunBatch(net);
      ghost var mid := currentIndex;
      assert Batches(start, FrameCount, BatchSize)
        == [Batch(start, mid)] + Batches(mid, FrameCount, BatchSize);
      LoadBatch(net);
      FillCompose(before, net, start, mid, FrameCount + 1);
    }

    /** `render`: size the canvas to the window, then paint the slot nearest
        the motion value `v` from the published images. */
    method Render(canvas: Canvas, v: real, innerWidth: nat, innerHeight: nat)
      modifies canvas
      ensures canvas.width == innerWidth && canvas.height == innerHeight
      ensures canvas.draws ==
        old(canvas.draws) + Paint(images, RenderIndex(v), innerWidth as real, innerHeight as real)
    {
      var index := RenderIndex(v);
      canvas.width := innerWidth;
      canvas.height := innerHeight;
      if 0 <= index < |images| && images[index].Some? {
        var img := images[index].value;
        var cw, ch := canvas.width as real, canvas.height as real;
        var iw, ih := img.width as real, img.height as real;
        var cover := Cover(cw, ch, iw, ih);
        var contain := Contain(cw, ch, iw, ih);
        canvas.draws := canvas.draws + [DrawCall(img.src, true, cover)];
        canvas.draws := canvas.draws + [DrawCall(img.src, false, contain)];
      }
    }
  }

  /** Mounting and running the preloader to the end requests the 12 batches
      in order, and slot `k` then holds frame `k + 1` exactly when that
      frame loaded. */
  method MountAndPreload(net: seq<Fetch>) returns (p: Player)
    requires |net| == FrameCount
    ensures p.Valid()
    ensures p.issued == Batches(1, FrameCount, BatchSize)
    ensures p.images == p.loadedImages[..] == Fill(NoneSlots(FrameCount), net, 1, FrameCount + 1)
  {
    p := new Player();
    p.LoadBatch(net);
  }
}
