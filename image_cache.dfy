/** The module-level `imageCache` of the two DOM players, its `preload`
    helper and the timed preload stages, owned here by an explicit object.

    An image request is recorded in `requested`; the cache gains a source
    only in `OnLoad`, the image's `onload` callback. Loads finish
    asynchronously, so a `preload` call never sees its own requests
    complete; loads that finish between two timed stages are passed in. */
module ImageCache {
  import opened Wrappers
  import opened MinMax
  import opened SeqFacts

  /** `s.slice(0, k)`: at most the first `k` elements. */
  function Take<T>(s: seq<T>, k: nat): (r: seq<T>)
    ensures |r| == Min(k, |s|) && r == s[..|r|]
  {
    s[..Min(k, |s|)]
  }

  /** `s.slice(k)`: what `Take(s, k)` leaves. */
  function Drop<T>(s: seq<T>, k: nat): (r: seq<T>)
    ensures Take(s, k) + r == s
  {
    s[Min(k, |s|)..]
  }

  function Flatten(calls: seq<seq<string>>): seq<string> {
    if calls == [] then [] else Flatten(calls[..|calls| - 1]) + calls[|calls| - 1]
  }

  /** The sources `preload(list)` requests against a cache: those not in it,
      in list order (a source listed twice is requested twice). */
  function Missing(list: seq<string>, cache: set<string>): seq<string>
    decreases |list|
  {
    if list == [] then []
    else
      var last := list[|list| - 1];
      Missing(list[..|list| - 1], cache) + (if last in cache then [] else [last])
  }

  /** A cached source is skipped and every other one is requested. */
  lemma {:induction false} MissingMembers(list: seq<string>, cache: set<string>)
    ensures forall x :: x in Missing(list, cache) <==> x in list && x !in cache
    ensures cache == {} ==> Missing(list, cache) == list
    decreases |list|
  {
    if list != [] {
      var last := list[|list| - 1];
      assert list == list[..|list| - 1] + [last];
      MissingMembers(list[..|list| - 1], cache);
    }
  }

  lemma {:induction false} MissingAppend(a: seq<string>, b: seq<string>, cache: set<string>)
    ensures Missing(a + b, cache) == Missing(a, cache) + Missing(b, cache)
    decreases |b|
  {
    if b == [] {
      assert a + b == a;
    } else {
      var b' := b[..|b| - 1];
      assert (a + b)[..|a + b| - 1] == a + b';
      MissingAppend(a, b', cache);
    }
  }

  /** One timer callback: the `preload` calls it makes, after `delayMs`. */
  datatype Stage = Stage(delayMs: nat, calls: seq<seq<string>>)

  /** Everything a schedule asks for, stage by stage, call by call. */
  function Scheduled(stages: seq<Stage>): seq<string> {
    if stages == [] then []
    else Scheduled(stages[..|stages| - 1]) + Flatten(stages[|stages| - 1].calls)
  }

  function Elems(s: seq<string>): set<string> {
    set x | x in s
  }

  lemma FlattenSmall(x: seq<string>, y: seq<string>)
    ensures Flatten([x]) == x && Flatten([x, y]) == x + y
  {
    assert [x][..0] == [];
    assert [x, y][..1] == [x];
  }

  lemma {:induction false} ScheduledAppend(a: seq<Stage>, b: seq<Stage>)
    ensures Scheduled(a + b) == Scheduled(a) + Scheduled(b)
    decreases |b|
  {
    if b == [] {
      assert a + b == a;
    } else {
      var n := |b| - 1;
      var ab := a + b;
      assert ab[..|ab| - 1] == a + b[..n];
      assert ab[|ab| - 1] == b[n];
      ScheduledAppend(a, b[..n]);
      AppendAssoc(Scheduled(a), Scheduled(b[..n]), Flatten(b[n].calls));
    }
  }

  lemma ScheduledSingle(s: Stage)
    ensures Scheduled([s]) == Flatten(s.calls)
  {
    assert [s][..0] == [];
  }

  lemma ScheduledThree(s0: Stage, s1: Stage, s2: Stage)
    ensures Scheduled([s0, s1, s2]) == Flatten(s0.calls) + Flatten(s1.calls) + Flatten(s2.calls)
  {
    ScheduledSingle(s0);
    ScheduledSingle(s1);
    ScheduledSingle(s2);
    ScheduledAppend([s0], [s1]);
    ScheduledAppend([s0, s1], [s2]);
    assert [s0] + [s1] == [s0, s1];
    assert [s0, s1] + [s2] == [s0, s1, s2];
  }

  function Union(arrivals: seq<seq<string>>): set<string> {
    if arrivals == [] then {}
    else Union(arrivals[..|arrivals| - 1]) + Elems(arrivals[|arrivals| - 1])
  }

  /** The requests made by the stages, when `arrivals[k]` finish loading just
      before stage `k` fires and the cache started as `cache`. */
  function StagedRequests(stages: seq<Stage>, arrivals: seq<seq<string>>, cache: set<string>): seq<string>
    requires |arrivals| == |stages|
  {
    if stages == [] then []
    else
      var n := |stages| - 1;
      StagedRequests(stages[..n], arrivals[..n], cache)
        + Missing(Flatten(stages[n].calls), cache + Union(arrivals))
  }

  /** A staged request is a scheduled source that was not cached at the start. */
  lemma {:induction false} StagedRequestsSound(stages: seq<Stage>, arrivals: seq<seq<string>>, cache: set<string>)
    requires |arrivals| == |stages|
    ensures forall x :: x in StagedRequests(stages, arrivals, cache) ==> x in Scheduled(stages) && x !in cache
  {
    if stages != [] {
      var n := |stages| - 1;
      StagedRequestsSound(stages[..n], arrivals[..n], cache);
      MissingMembers(Flatten(stages[n].calls), cache + Union(arrivals));
    }
  }

  /** Every scheduled source is requested or was in the cache by its stage. */
  lemma {:induction false} StagedRequestsComplete(stages: seq<Stage>, arrivals: seq<seq<string>>, cache: set<string>)
    requires |arrivals| == |stages|
    ensures forall x :: x in Scheduled(stages) ==>
      x in StagedRequests(stages, arrivals, cache) || x in cache + Union(arrivals)
  {
    if stages != [] {
      var n := |stages| - 1;
      StagedRequestsComplete(stages[..n], arrivals[..n], cache);
      MissingMembers(Flatten(stages[n].calls), cache + Union(arrivals));
    }
  }

  /** Later stages only append: the requests of the first `k` stages are a
      prefix of the requests of the whole run. */
  lemma {:induction false} StagedRequestsPrefix(stages: seq<Stage>, arrivals: seq<seq<string>>, cache: set<string>, k: nat)
    requires |arrivals| == |stages| && k <= |stages|
    ensures StagedRequests(stages[..k], arrivals[..k], cache) <= StagedRequests(stages, arrivals, cache)
    decreases |stages|
  {
    if k < |stages| {
      var n := |stages| - 1;
      assert stages[..n][..k] == stages[..k];
      assert arrivals[..n][..k] == arrivals[..k];
      StagedRequestsPrefix(stages[..n], arrivals[..n], cache, k);
    } else {
      assert stages[..k] == stages;
      assert arrivals[..k] == arrivals;
    }
  }

  /** What one `preload` stage does at the moment it fires: stage `k` adds to
      the requests exactly its sources that are not in the cache as it stands
      then (the start cache plus the loads finished by stage `k`), after the
      earlier stages' requests and before the later ones'. So each of its
      sources is requested or had entered the cache by that stage. */
  lemma StagedRequestsAtStage(stages: seq<Stage>, arrivals: seq<seq<string>>, cache: set<string>, k: nat)
    requires |arrivals| == |stages| && k < |stages|
    ensures var before := StagedRequests(stages[..k], arrivals[..k], cache);
      var upTo := StagedRequests(stages[..k + 1], arrivals[..k + 1], cache);
      && before <= upTo <= StagedRequests(stages, arrivals, cache)
      && forall x :: x in upTo[|before|..] <==>
           x in Flatten(stages[k].calls) && x !in cache + Union(arrivals[..k + 1])
    ensures forall x :: x in Flatten(stages[k].calls) ==>
      x in StagedRequests(stages, arrivals, cache) || x in cache + Union(arrivals[..k + 1])
  {
    var st, ar := stages[..k + 1], arrivals[..k + 1];
    assert st[..k] == stages[..k] && ar[..k] == arrivals[..k] && st[k] == stages[k];
    var before := StagedRequests(stages[..k], arrivals[..k], cache);
    var added := Missing(Flatten(stages[k].calls), cache + Union(ar));
    var upTo := StagedRequests(st, ar, cache);
    assert upTo == before + added;
    assert upTo[|before|..] == added;
    MissingMembers(Flatten(stages[k].calls), cache + Union(ar));
    StagedRequestsPrefix(stages, arrivals, cache, k + 1);
  }

  function Empties(k: nat): (r: seq<seq<string>>)
    ensures |r| == k && forall i :: 0 <= i < k ==> r[i] == []
  {
    if k == 0 then [] else Empties(k - 1) + [[]]
  }

  /** With no load finishing in between, the stages request exactly the
      uncached part of the schedule, in schedule order. */
  lemma {:induction false} StagedRequestsNoArrivals(stages: seq<Stage>, cache: set<string>)
    ensures Union(Empties(|stages|)) == {}
    ensures StagedRequests(stages, Empties(|stages|), cache) == Missing(Scheduled(stages), cache)
  {
    var e := Empties(|stages|);
    if stages != [] {
      var n := |stages| - 1;
      assert e[..n] == Empties(n);
      StagedRequestsNoArrivals(stages[..n], cache);
      assert Elems(e[n]) == {};
      assert Union(e) == Union(e[..n]) + Elems(e[n]);
      assert cache + Union(e) == cache;
      MissingAppend(Scheduled(stages[..n]), Flatten(stages[n].calls), cache);
    }
  }

  class Cache {
    var cached: set<string>
    var requested: seq<string>

    constructor ()
      ensures cached == {} && requested == []
    {
      cached := {};
      requested := [];
    }

    /** `img.onload = () => imageCache.add(src)`. */
    method OnLoad(src: string)
      modifies this`cached
      ensures cached == old(cached) + {src}
    {
      cached := cached + {src};
    }

    /** The `onload` callbacks of `srcs` run, one after another. */
    method Arrive(srcs: seq<string>)
      modifies this`cached
      ensures cached == old(cached) + Elems(srcs)
    {
      for j := 0 to |srcs|
        invariant cached == old(cached) + Elems(srcs[..j])
      {
        assert Elems(srcs[..j + 1]) == Elems(srcs[..j]) + {srcs[j]} by {
          assert srcs[..j + 1] == srcs[..j] + [srcs[j]];
        }
        OnLoad(srcs[j]);
      }
      assert srcs[..|srcs|] == srcs;
    }

    /** `preload(list)`: a new image for each source not in the cache. */
    method Preload(list: seq<string>)
      modifies this`requested
      ensures requested == old(requested) + Missing(list, cached)
    {
      for i := 0 to |list|
        invariant requested == old(requested) + Missing(list[..i], cached)
      {
        assert list[..i + 1][..i] == list[..i];
        if list[i] !in cached {
          requested := requested + [list[i]];
        }
      }
      assert list[..|list|] == list;
    }

    method PreloadAll(calls: seq<seq<string>>)
      modifies this`requested
      ensures requested == old(requested) + Missing(Flatten(calls), cached)
    {
      for k := 0 to |calls|
        invariant requested == old(requested) + Missing(Flatten(calls[..k]), cached)
      {
        assert calls[..k + 1][..k] == calls[..k];
        MissingAppend(Flatten(calls[..k]), calls[k], cached);
        Preload(calls[k]);
      }
      assert calls[..|calls|] == calls;
    }

    /** The timer callbacks that fired before teardown cleared the rest, in
        order; `arrivals[k]` are the loads that finished before stage `k`. */
    method RunStages(stages: seq<Stage>, arrivals: seq<seq<string>>)
      requires |arrivals| == |stages|
      modifies this
      ensures cached == old(cached) + Union(arrivals)
      ensures requested == old(requested) + StagedRequests(stages, arrivals, old(cached))
    {
      for k := 0 to |stages|
        invariant cached == old(cached) + Union(arrivals[..k])
        invariant requested == old(requested) + StagedRequests(stages[..k], arrivals[..k], old(cached))
      {
        Arrive(arrivals[k]);
        assert arrivals[..k + 1][..k] == arrivals[..k];
        assert stages[..k + 1][..k] == stages[..k];
        assert Union(arrivals[..k + 1]) == Union(arrivals[..k]) + Elems(arrivals[k]);
        assert cached == old(cached) + Union(arrivals[..k + 1]);
        assert stages[..k + 1][k] == stages[k];
        PreloadAll(stages[k].calls);
        assert StagedRequests(stages[..k + 1], arrivals[..k + 1], old(cached))
          == StagedRequests(stages[..k], arrivals[..k], old(cached))
             + Missing(Flatten(stages[k].calls), old(cached) + Union(arrivals[..k + 1]));
      }
      assert arrivals[..|arrivals|] == arrivals;
      assert stages[..|stages|] == stages;
    }
  }
}
