/** The single-sequence DOM player: scroll progress picks a frame of
    `frames`; frames are preloaded through the shared image cache either
    20 now and the rest after 2 s (`immediate`) or all after 0.5 s (`lazy`). */
module FrameSequence {
  import opened Wrappers
  import opened FrameIndex
  import opened ImageCache

  datatype Strategy = Immediate | Lazy

  /** The preload stages of each strategy. */
  function SequenceSchedule(frames: seq<string>, strategy: Strategy): seq<Stage> {
    match strategy
    case Immediate => [Stage(0, [Take(frames, 20)]), Stage(2000, [Drop(frames, 20)])]
    case Lazy => [Stage(500, [frames])]
  }

  /** Under either strategy the stages fire in time order and together ask
      for every frame once, in list order. */
  lemma SequenceScheduleCovers(frames: seq<string>, strategy: Strategy)
    ensures var st := SequenceSchedule(frames, strategy);
      && (forall k :: 0 < k < |st| ==> st[k - 1].delayMs < st[k].delayMs)
      && Scheduled(st) == frames
  {
    var st := SequenceSchedule(frames, strategy);
    match strategy
    case Immediate =>
      var a, b := Take(frames, 20), Drop(frames, 20);
      var s0, s1 := Stage(0, [a]), Stage(2000, [b]);
      assert st == [s0] + [s1];
      FlattenSmall(a, a);
      FlattenSmall(b, b);
      ScheduledSingle(s0);
      ScheduledSingle(s1);
      ScheduledAppend([s0], [s1]);
    case Lazy =>
      FlattenSmall(frames, frames);
      ScheduledSingle(st[0]);
  }

  /** The preload effect: the immediate first stage runs on mount; the timed
      stage runs only if its timer fires before unmount clears it. */
  method PreloadEffect(cache: Cache, frames: seq<string>, strategy: Strategy,
                       timerFired: bool, arrivals: seq<seq<string>>)
    requires |arrivals| == StagesRun(strategy, timerFired)
    modifies cache
    ensures cache.cached == old(cache.cached) + Union(arrivals)
    ensures cache.requested == old(cache.requested)
      + StagedRequests(SequenceSchedule(frames, strategy)[..StagesRun(strategy, timerFired)],
                       arrivals, old(cache.cached))
  {
    cache.RunStages(SequenceSchedule(frames, strategy)[..StagesRun(strategy, timerFired)], arrivals);
  }

  /** How many stages run. Under `immediate` the untimed first stage always
      runs and the 2 s stage only if its timer fired; under `lazy` the one
      stage is the 0.5 s timer, so nothing runs unless it fired. Whatever
      the frames, the count never exceeds the schedule's stages, and all of
      them run exactly when the timer fired. */
  function StagesRun(strategy: Strategy, timerFired: bool): (n: nat)
    ensures n <= 2
    ensures forall frames: seq<string> ::
      n <= |SequenceSchedule(frames, strategy)|
      && (n == |SequenceSchedule(frames, strategy)| <==> timerFired)
  {
    match strategy
    case Immediate => if timerFired then 2 else 1
    case Lazy => if timerFired then 1 else 0
  }

  /** With an empty cache, the timer fired and no load completing in
      between, every frame is requested exactly once, in order. */
  lemma SequencePreloadRequestsEachOnce(frames: seq<string>, strategy: Strategy)
    ensures var st := SequenceSchedule(frames, strategy);
      StagedRequests(st, Empties(|st|), {}) == frames
  {
    StagedRequestsNoArrivals(SequenceSchedule(frames, strategy), {});
    SequenceScheduleCovers(frames, strategy);
    MissingMembers(frames, {});
  }

  /** What the component renders. */
  datatype View =
    | Nothing                                   // `return null`
    | Crossfade(first: string, last: string)    // reduced motion: two fading images
    | Scrub(initial: string)                    // the scrubbed image, starting at frame 0

  function Render(frames: seq<string>, reduceMotion: bool): (v: View)
    ensures v == Nothing <==> frames == []
    ensures v.Crossfade? ==> reduceMotion && v.first == frames[0] && v.last == frames[|frames| - 1]
    ensures v.Scrub? ==> !reduceMotion && v.initial == frames[0]
  {
    if frames == [] then Nothing
    else if reduceMotion then Crossfade(frames[0], frames[|frames| - 1])
    else Scrub(frames[0])
  }

  class Player {
    const frames: seq<string>
    const reduceMotion: bool
    var currentFrame: int
    /** The `src` of the scrubbed `<img>`; `None` stands for `undefined`. */
    var shownSrc: Option<string>

    ghost predicate Synced()
      reads this
    {
      shownSrc == At(frames, currentFrame)
    }

    constructor (frames: seq<string>, reduceMotion: bool)
      ensures this.frames == frames && this.reduceMotion == reduceMotion
      ensures currentFrame == 0 && shownSrc == At(frames, 0) && Synced()
    {
      this.frames := frames;
      this.reduceMotion := reduceMotion;
      currentFrame := 0;
      shownSrc := At(frames, 0);
    }

    /** The scroll handler. Under reduced motion nothing changes. Otherwise
        the frame and the image move only when the mapped index differs from
        the current one; either way the state ends at the mapped index. */
    method OnScroll(latest: real)
      requires Synced()
      modifies this`currentFrame, this`shownSrc
      ensures Synced()
      ensures reduceMotion ==> unchanged(this)
      ensures !reduceMotion ==>
        && currentFrame == FloorIndex(latest, |frames|)
        && (FloorIndex(latest, |frames|) == old(currentFrame) ==> unchanged(this))
    {
      if reduceMotion {
        return;
      }
      var index := FloorIndex(latest, |frames|);
      if index != currentFrame {
        currentFrame := index;
        shownSrc := At(frames, index);
      }
    }
  }
}
