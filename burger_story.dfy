/** The two-sequence DOM player: one scroll region drives `frames1` over
    the first half of the progress and `frames2` over the second, a caption
    steps through four lines, and both lists are preloaded in three timed
    stages through the shared image cache. */
module BurgerStory {
  import opened Wrappers
  import opened FrameIndex
  import opened ImageCache
  import opened SeqFacts

  /** The source's `1 | 2`. */
  datatype Sequence = One | Two

  /** Where the scrubber wants to be: a sequence and a frame of it. */
  datatype Target = Target(sequence: Sequence, frame: int)

  /** Progress below one half plays `frames1` with its local progress
      `latest / 0.5`; from one half on, `frames2` with `(latest - 0.5) / 0.5`. */
  function StoryTarget(latest: real, n1: nat, n2: nat): (t: Target)
    ensures t.sequence == One <==> latest < 0.5
    ensures t.sequence == One && n1 >= 1 ==> 0 <= t.frame < n1
    ensures t.sequence == Two && n2 >= 1 ==> 0 <= t.frame < n2
  {
    if latest < 0.5 then Target(One, FloorIndex(latest / 0.5, n1))
    else Target(Two, FloorIndex((latest - 0.5) / 0.5, n2))
  }

  /** The start of the story is the first frame of `frames1`; the midpoint
      is the first frame of `frames2`; the end is the last frame of `frames2`. */
  lemma StoryEndpoints(n1: nat, n2: nat)
    requires n1 >= 1 && n2 >= 1
    ensures StoryTarget(0.0, n1, n2) == Target(One, 0)
    ensures StoryTarget(0.5, n1, n2) == Target(Two, 0)
    ensures StoryTarget(1.0, n1, n2) == Target(Two, n2 - 1)
  {
    FloorIndexEndpoints(n1);
    FloorIndexEndpoints(n2);
    assert 0.0 / 0.5 == 0.0;
    assert (0.5 - 0.5) / 0.5 == 0.0;
    assert (1.0 - 0.5) / 0.5 == 1.0;
  }

  /** Within each half more progress never moves the frame backwards. */
  lemma StoryMonotone(p: real, q: real, n1: nat, n2: nat)
    requires p <= q && (q < 0.5 || 0.5 <= p)
    ensures StoryTarget(p, n1, n2).sequence == StoryTarget(q, n1, n2).sequence
    ensures StoryTarget(p, n1, n2).frame <= StoryTarget(q, n1, n2).frame
  {
    if q < 0.5 {
      FloorIndexMonotone(p / 0.5, q / 0.5, n1);
    } else {
      FloorIndexMonotone((p - 0.5) / 0.5, (q - 0.5) / 0.5, n2);
    }
  }

  function Frames(s: Sequence, frames1: seq<string>, frames2: seq<string>): seq<string> {
    if s == One then frames1 else frames2
  }

  /** The frame shown under reduced motion: the first of `frames1` for
      sequence 1, else the last of `frames2`. */
  function ReducedMotionSrc(s: Sequence, frames1: seq<string>, frames2: seq<string>): (r: Option<string>)
    ensures s == One ==> (r.Some? <==> frames1 != []) && (r.Some? ==> r.value == frames1[0])
    ensures s == Two ==> (r.Some? <==> frames2 != []) && (r.Some? ==> r.value == frames2[|frames2| - 1])
  {
    if s == One then At(frames1, 0) else At(frames2, |frames2| - 1)
  }

  class Story {
    const frames1: seq<string>
    const frames2: seq<string>
    const reduceMotion: bool
    var currentFrame: int
    var currentSequence: Sequence
    /** The `src` of the scrubbed `<img>`; `None` stands for `undefined`. */
    var shownSrc: Option<string>

    /** The image shows the frame the state names. */
    ghost predicate Synced()
      reads this
    {
      shownSrc == At(Frames(currentSequence, frames1, frames2), currentFrame)
    }

    constructor (frames1: seq<string>, frames2: seq<string>, reduceMotion: bool)
      ensures this.frames1 == frames1 && this.frames2 == frames2 && this.reduceMotion == reduceMotion
      ensures currentFrame == 0 && currentSequence == One && shownSrc == At(frames1, 0)
      ensures Synced()
    {
      this.frames1 := frames1;
      this.frames2 := frames2;
      this.reduceMotion := reduceMotion;
      currentFrame := 0;
      currentSequence := One;
      shownSrc := At(frames1, 0);
    }

    /** The `<img>` the visitor sees: under reduced motion the fixed
        endpoint frame of the current sequence, otherwise the scrubbed
        image, which shows the state's frame while the two are in step. */
    function Displayed(): (r: Option<string>)
      reads this
      ensures reduceMotion ==> r == ReducedMotionSrc(currentSequence, frames1, frames2)
      ensures reduceMotion && currentSequence == One ==> (r.Some? <==> frames1 != [])
      ensures reduceMotion && currentSequence == Two ==> (r.Some? <==> frames2 != [])
      ensures !reduceMotion && Synced() ==> r == At(Frames(currentSequence, frames1, frames2), currentFrame)
    {
      if reduceMotion then ReducedMotionSrc(currentSequence, frames1, frames2) else shownSrc
    }

    /** The scroll handler. Under reduced motion nothing changes. Otherwise
        the state and the image move to the target only when its frame or
        its sequence differs from the current one; either way the state
        ends at the target and the image stays in step with it. */
    method OnScroll(latest: real)
      requires Synced()
      modifies this`currentFrame, this`currentSequence, this`shownSrc
      ensures Synced()
      ensures reduceMotion ==> unchanged(this)
      ensures !reduceMotion ==>
        var t := StoryTarget(latest, |frames1|, |frames2|);
        && currentFrame == t.frame && currentSequence == t.sequence
        && (t.frame == old(currentFrame) && t.sequence == old(currentSequence) ==> unchanged(this))
    {
      if reduceMotion {
        return;
      }
      var t := StoryTarget(latest, |frames1|, |frames2|);
      if t.frame != currentFrame || t.sequence != currentSequence {
        currentFrame := t.frame;
        currentSequence := t.sequence;
        shownSrc := At(Frames(t.sequence, frames1, frames2), t.frame);
      }
    }
  }

  // ---------------------------------------------------------------------
  // Caption
  // ---------------------------------------------------------------------

  const PhilosophyTexts: seq<string> :=
    ["Aged beef.", "Hand-selected produce.", "Precision heat.", "No shortcuts."]

  /** The caption step for progress `p`. */
  function PhilosophyIndex(p: real): (i: int)
    ensures 0 <= i < |PhilosophyTexts|
  {
    if p < 0.3 then 0
    else if p < 0.35 then 1
    else if p < 0.4 then 2
    else if p < 0.45 then 3
    else 3
  }

  /** How many of the thresholds `p` has reached. */
  function Reached(p: real, thresholds: seq<real>): nat {
    if thresholds == [] then 0
    else (if thresholds[0] <= p then 1 else 0) + Reached(p, thresholds[1..])
  }

  /** The caption step is the number of thresholds 0.3, 0.35, 0.4 reached. */
  lemma PhilosophyIndexCounts(p: real)
    ensures PhilosophyIndex(p) == Reached(p, [0.3, 0.35, 0.4])
  {
    var t3: seq<real> := [0.4];
    var t2: seq<real> := [0.35] + t3;
    var t1: seq<real> := [0.3] + t2;
    assert t3[1..] == [] && t2[1..] == t3 && t1[1..] == t2;
    assert Reached(p, t3) == if 0.4 <= p then 1 else 0;
    assert Reached(p, t2) == (if 0.35 <= p then 1 else 0) + Reached(p, t3);
    assert Reached(p, t1) == (if 0.3 <= p then 1 else 0) + Reached(p, t2);
    assert t1 == [0.3, 0.35, 0.4];
  }

  lemma PhilosophyIndexMonotone(p: real, q: real)
    requires p <= q
    ensures PhilosophyIndex(p) <= PhilosophyIndex(q)
  {
  }

  /** `philosophyTexts[Math.floor(idx)]`: always one of the four lines. */
  function PhilosophyText(p: real): (s: string)
    ensures s in PhilosophyTexts
  {
    PhilosophyTexts[PhilosophyIndex(p)]
  }

  // ---------------------------------------------------------------------
  // Preload stages
  // ---------------------------------------------------------------------

  /** Now: the first 20 of `frames1`; after 1 s: the rest of `frames1` and
      the first 20 of `frames2`; after 3 s: the rest of `frames2`. */
  function StorySchedule(frames1: seq<string>, frames2: seq<string>): seq<Stage> {
    [ Stage(0, [Take(frames1, 20)]),
      Stage(1000, [Drop(frames1, 20), Take(frames2, 20)]),
      Stage(3000, [Drop(frames2, 20)]) ]
  }

  /** The stages fire in time order. */
  lemma StoryScheduleOrdered(frames1: seq<string>, frames2: seq<string>)
    ensures var st := StorySchedule(frames1, frames2);
      forall k :: 0 < k < |st| ==> st[k - 1].delayMs < st[k].delayMs
  {
  }

  /** Together the stages ask for `frames1` then `frames2`, each frame once. */
  lemma StoryScheduleCovers(frames1: seq<string>, frames2: seq<string>)
    ensures Scheduled(StorySchedule(frames1, frames2)) == frames1 + frames2
  {
    var a, b := Take(frames1, 20), Drop(frames1, 20);
    var c, d := Take(frames2, 20), Drop(frames2, 20);
    ScheduledThree(Stage(0, [a]), Stage(1000, [b, c]), Stage(3000, [d]));
    FlattenSmall(a, a);
    FlattenSmall(b, c);
    FlattenSmall(d, d);
    Regroup(a, b, c, d);
  }

  /** The preload effect: the first stage runs on mount, the two timer
      stages only if they fire before unmount clears them; `arrivals[k]`
      are the loads that complete before stage `k`. */
  method PreloadEffect(cache: Cache, frames1: seq<string>, frames2: seq<string>,
                       timersFired: nat, arrivals: seq<seq<string>>)
    requires timersFired <= 2 && |arrivals| == timersFired + 1
    modifies cache
    ensures cache.cached == old(cache.cached) + Union(arrivals)
    ensures cache.requested == old(cache.requested)
      + StagedRequests(StorySchedule(frames1, frames2)[..timersFired + 1], arrivals, old(cache.cached))
  {
    cache.RunStages(StorySchedule(frames1, frames2)[..timersFired + 1], arrivals);
  }

  /** With an empty cache, all stages fired and no load completing in
      between, every frame of both lists is requested exactly once, in order. */
  lemma StoryPreloadRequestsEachOnce(frames1: seq<string>, frames2: seq<string>)
    ensures StagedRequests(StorySchedule(frames1, frames2), Empties(3), {}) == frames1 + frames2
  {
    StagedRequestsNoArrivals(StorySchedule(frames1, frames2), {});
    StoryScheduleCovers(frames1, frames2);
    MissingMembers(frames1 + frames2, {});
  }
}
