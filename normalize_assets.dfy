/** The asset normaliser script: copies the `.webp` files of the source
    directories, one directory after another and in code-unit order inside
    each, into one target directory, numbering them 0001.webp, 0002.webp, ...
    The directory listings are a parameter; the copies are returned as a plan
    instead of being performed. */
module NormalizeAssets {
  import opened SeqFacts
  import opened Naming
  import opened Ordering

  /** File `file` of source directory number `dir` is copied as the
      `number`-th frame under the name `target`. */
  datatype Copy = Copy(dir: nat, file: string, number: nat, target: string)

  /** `String(n).padStart(4, '0') + '.webp'`. */
  function TargetName(n: nat): string {
    Pad4(n) + Webp
  }

  /** The copies one directory contributes: `files` is its sorted listing
      and `next` the counter's value on entering it. */
  function DirCopies(dir: nat, files: seq<string>, next: nat): seq<Copy>
    decreases |files|
  {
    if files == [] then []
    else
      var p := DirCopies(dir, files[..|files| - 1], next);
      var f := files[|files| - 1];
      if IsWebp(f) then p + [Copy(dir, f, next + |p|, TargetName(next + |p|))] else p
  }

  /** The copies of all directories, given their sorted listings, in order
      and with the counter starting at 1. */
  function PlanOf(sorted: seq<seq<string>>): seq<Copy>
    decreases |sorted|
  {
    if sorted == [] then []
    else
      var p := PlanOf(sorted[..|sorted| - 1]);
      p + DirCopies(|sorted| - 1, sorted[|sorted| - 1], |p| + 1)
  }

  /** `readdirSync(dir).sort()` for every directory. */
  function SortEach(listings: seq<seq<string>>): (r: seq<seq<string>>)
    ensures |r| == |listings|
  {
    seq(|listings|, d requires 0 <= d < |listings| => Sort(CodeUnit, listings[d]))
  }

  /** Each sorted listing is in code-unit order and holds its directory's names. */
  lemma SortEachAt(listings: seq<seq<string>>, d: nat)
    requires d < |listings|
    ensures SortEach(listings)[d] == Sort(CodeUnit, listings[d])
    ensures Sorted(CodeUnit, SortEach(listings)[d])
    ensures multiset(SortEach(listings)[d]) == multiset(listings[d])
  {
  }

  /** What the script copies, given what each source directory lists. */
  function PlanSpec(listings: seq<seq<string>>): seq<Copy> {
    PlanOf(SortEach(listings))
  }

  /** The script's loop over the directories, with the global counter;
      `total` is the final report. */
  method Plan(listings: seq<seq<string>>) returns (plan: seq<Copy>, total: nat)
    ensures plan == PlanSpec(listings)
    ensures total == |plan|
  {
    var globalIndex := 1;
    plan := [];
    for d := 0 to |listings|
      invariant plan == PlanOf(SortEach(listings)[..d])
      invariant globalIndex == |plan| + 1
    {
      plan, globalIndex := CopyDir(listings, d, plan, globalIndex);
    }
    assert SortEach(listings)[..|listings|] == SortEach(listings);
    total := globalIndex - 1;
  }

  /** The body for directory `d`: sort its listing, then copy its files. */
  method CopyDir(listings: seq<seq<string>>, d: nat, plan0: seq<Copy>, index0: nat)
    returns (plan: seq<Copy>, globalIndex: nat)
    requires d < |listings|
    requires plan0 == PlanOf(SortEach(listings)[..d]) && index0 == |plan0| + 1
    ensures plan == PlanOf(SortEach(listings)[..d + 1]) && globalIndex == |plan| + 1
  {
    var files := Sort(CodeUnit, listings[d]);
    SortEachAt(listings, d);
    plan, globalIndex := CopyFiles(d, files, plan0, index0);
    PlanOfStep(SortEach(listings), d);
  }

  /** The inner loop over one directory's sorted listing: each `.webp` name
      is copied under the counter's name and the counter moves on. */
  method CopyFiles(dir: nat, files: seq<string>, plan0: seq<Copy>, index0: nat)
    returns (plan: seq<Copy>, globalIndex: nat)
    requires index0 == |plan0| + 1
    ensures plan == plan0 + DirCopies(dir, files, index0)
    ensures globalIndex == |plan| + 1
  {
    plan, globalIndex := plan0, index0;
    for i := 0 to |files|
      invariant plan == plan0 + DirCopies(dir, files[..i], index0)
      invariant globalIndex == |plan| + 1
    {
      CopyStep(dir, files, i, plan0, index0, plan);
      if EndsWith(files[i], Webp) {
        plan := plan + [Copy(dir, files[i], globalIndex, PadStart(Decimal(globalIndex), 4, '0') + Webp)];
        globalIndex := globalIndex + 1;
      }
    }
    assert files[..|files|] == files;
  }

  /** One turn of the inner loop keeps the plan equal to the copies of the
      names seen so far. */
  lemma CopyStep(dir: nat, files: seq<string>, i: nat, plan0: seq<Copy>, index0: nat, plan: seq<Copy>)
    requires i < |files| && index0 == |plan0| + 1
    requires plan == plan0 + DirCopies(dir, files[..i], index0)
    ensures EndsWith(files[i], Webp) ==>
      plan + [Copy(dir, files[i], |plan| + 1, PadStart(Decimal(|plan| + 1), 4, '0') + Webp)]
        == plan0 + DirCopies(dir, files[..i + 1], index0)
    ensures !EndsWith(files[i], Webp) ==> plan == plan0 + DirCopies(dir, files[..i + 1], index0)
  {
    DirCopiesStep(dir, files, i, index0);
    var p := DirCopies(dir, files[..i], index0);
    assert |plan| + 1 == index0 + |p|;
    if IsWebp(files[i]) {
      var n := |plan| + 1;
      var c := Copy(dir, files[i], n, PadStart(Decimal(n), 4, '0') + Webp);
      TargetNameIs(n);
      assert DirCopies(dir, files[..i + 1], index0) == p + [c];
      AppendAssoc(plan0, p, [c]);
    }
  }

  /** The loop builds the target name inline. */
  lemma TargetNameIs(n: nat)
    ensures PadStart(Decimal(n), 4, '0') + Webp == TargetName(n)
  {
  }

  lemma DirCopiesStep(dir: nat, files: seq<string>, i: nat, next: nat)
    requires i < |files|
    ensures var p := DirCopies(dir, files[..i], next);
      DirCopies(dir, files[..i + 1], next) ==
        if IsWebp(files[i]) then p + [Copy(dir, files[i], next + |p|, TargetName(next + |p|))] else p
  {
    assert files[..i + 1][..i] == files[..i];
  }

  lemma PlanOfStep(sorted: seq<seq<string>>, d: nat)
    requires d < |sorted|
    ensures var p := PlanOf(sorted[..d]);
      PlanOf(sorted[..d + 1]) == p + DirCopies(d, sorted[d], |p| + 1)
  {
    assert sorted[..d + 1][..d] == sorted[..d];
  }

  /** Directory `dir` contributes one copy per `.webp` name of its listing. */
  lemma {:induction false} DirCopiesLength(dir: nat, files: seq<string>, next: nat)
    ensures |DirCopies(dir, files, next)| == |WebpOnly(files)|
    decreases |files|
  {
    if files != [] {
      DirCopiesLength(dir, files[..|files| - 1], next);
    }
  }

  /** The j-th copy of directory `dir` is its j-th `.webp` name, numbered
      `next + j`. */
  lemma {:induction false} DirCopiesEntry(dir: nat, files: seq<string>, next: nat, j: nat)
    requires j < |DirCopies(dir, files, next)|
    ensures j < |WebpOnly(files)|
    ensures DirCopies(dir, files, next)[j] == Copy(dir, WebpOnly(files)[j], next + j, TargetName(next + j))
    decreases |files|
  {
    var init := files[..|files| - 1];
    DirCopiesLength(dir, files, next);
    DirCopiesLength(dir, init, next);
    if j < |DirCopies(dir, init, next)| {
      DirCopiesEntry(dir, init, next, j);
    }
  }

  /** The j-th copy is frame j + 1, named `String(j + 1).padStart(4, '0') + '.webp'`,
      and is a `.webp` name of its own directory's listing. */
  lemma {:induction false} PlanOfEntry(sorted: seq<seq<string>>, j: nat)
    requires j < |PlanOf(sorted)|
    ensures var c := PlanOf(sorted)[j];
      && c.number == j + 1
      && c.target == TargetName(j + 1)
      && c.dir < |sorted|
      && IsWebp(c.file)
      && c.file in sorted[c.dir]
    decreases |sorted|
  {
    var init := sorted[..|sorted| - 1];
    var d := |sorted| - 1;
    var p := PlanOf(init);
    var c := DirCopies(d, sorted[d], |p| + 1);
    var r := PlanOf(sorted);
    if j < |p| {
      PlanOfEntry(init, j);
      assert r[j] == p[j];
      assert sorted[p[j].dir] == init[p[j].dir];
    } else {
      assert r[j] == c[j - |p|];
      DirCopiesEntry(d, sorted[d], |p| + 1, j - |p|);
      var f := r[j].file;
      assert f == WebpOnly(sorted[d])[j - |p|];
      assert f in multiset(WebpOnly(sorted[d]));
      WebpOnlyCounts(sorted[d], f);
      assert f in multiset(sorted[d]);
    }
  }

  /** The same for the script: every copy is frame (its position + 1) and
      a `.webp` file listed in its own source directory. */
  lemma PlanEntry(listings: seq<seq<string>>, j: nat)
    requires j < |PlanSpec(listings)|
    ensures var c := PlanSpec(listings)[j];
      && c.number == j + 1
      && c.target == TargetName(j + 1)
      && c.dir < |listings|
      && IsWebp(c.file)
      && c.file in listings[c.dir]
  {
    var sorted := SortEach(listings);
    PlanOfEntry(sorted, j);
    var c := PlanOf(sorted)[j];
    SortEachAt(listings, c.dir);
    assert c.file in multiset(sorted[c.dir]);
  }

  lemma TargetNameInjective(m: nat, n: nat)
    requires TargetName(m) == TargetName(n)
    ensures m == n
  {
    ConcatParts(Pad4(m), Webp, []);
    ConcatParts(Pad4(n), Webp, []);
    assert |Pad4(m)| == |Pad4(n)|;
    Pad4Injective(m, n);
  }

  /** No two copies share a target name, so no copy overwrites another. */
  lemma PlanTargetsDistinct(listings: seq<seq<string>>)
    ensures var p := PlanSpec(listings);
      forall i, j :: 0 <= i < |p| && 0 <= j < |p| && i != j ==> p[i].target != p[j].target
  {
    var p := PlanSpec(listings);
    forall i, j | 0 <= i < |p| && 0 <= j < |p| && p[i].target == p[j].target
      ensures i == j
    {
      SameTargetSameEntry(listings, i, j);
    }
  }

  lemma SameTargetSameEntry(listings: seq<seq<string>>, i: nat, j: nat)
    requires i < |PlanSpec(listings)| && j < |PlanSpec(listings)|
    requires PlanSpec(listings)[i].target == PlanSpec(listings)[j].target
    ensures i == j
  {
    PlanEntry(listings, i);
    PlanEntry(listings, j);
    TargetNameInjective(i + 1, j + 1);
  }

  /** Number of `.webp` names over all listings. */
  function WebpTotal(listings: seq<seq<string>>): nat
    decreases |listings|
  {
    if listings == [] then 0
    else WebpTotal(listings[..|listings| - 1]) + |WebpOnly(listings[|listings| - 1])|
  }

  lemma {:induction false} PlanOfLength(sorted: seq<seq<string>>)
    ensures |PlanOf(sorted)| == WebpTotal(sorted)
    decreases |sorted|
  {
    if sorted != [] {
      var p := PlanOf(sorted[..|sorted| - 1]);
      PlanOfLength(sorted[..|sorted| - 1]);
      DirCopiesLength(|sorted| - 1, sorted[|sorted| - 1], |p| + 1);
    }
  }

  lemma {:induction false} WebpTotalSameNames(a: seq<seq<string>>, b: seq<seq<string>>)
    requires |a| == |b|
    requires forall d :: 0 <= d < |a| ==> multiset(a[d]) == multiset(b[d])
    ensures WebpTotal(a) == WebpTotal(b)
    decreases |a|
  {
    if a != [] {
      WebpTotalSameNames(a[..|a| - 1], b[..|b| - 1]);
      WebpOnlySameNames(a[|a| - 1], b[|b| - 1]);
    }
  }

  /** The plan copies every `.webp` file of every directory once: its length,
      and so the reported total, is the number of `.webp` names listed. */
  lemma PlanTotal(listings: seq<seq<string>>)
    ensures |PlanSpec(listings)| == WebpTotal(listings)
  {
    PlanOfLength(SortEach(listings));
    forall d | 0 <= d < |listings| ensures multiset(SortEach(listings)[d]) == multiset(listings[d]) {
      SortEachAt(listings, d);
    }
    WebpTotalSameNames(SortEach(listings), listings);
  }

  /** Copies from earlier directories come before copies from later ones. */
  lemma {:induction false} PlanOfDirsOrdered(sorted: seq<seq<string>>, i: nat, j: nat)
    requires i <= j < |PlanOf(sorted)|
    ensures PlanOf(sorted)[i].dir <= PlanOf(sorted)[j].dir
    decreases |sorted|
  {
    var init := sorted[..|sorted| - 1];
    var last := |sorted| - 1;
    var p := PlanOf(init);
    var c := DirCopies(last, sorted[last], |p| + 1);
    var r := PlanOf(sorted);
    assert r == p + c;
    if j < |p| {
      PlanOfDirsOrdered(init, i, j);
      assert r[i] == p[i] && r[j] == p[j];
    } else if i < |p| {
      PlanOfDirBound(init, i);
      DirCopiesDir(last, sorted[last], |p| + 1, j - |p|);
      assert r[i] == p[i] && r[j] == c[j - |p|];
    } else {
      DirCopiesDir(last, sorted[last], |p| + 1, i - |p|);
      DirCopiesDir(last, sorted[last], |p| + 1, j - |p|);
      assert r[i] == c[i - |p|] && r[j] == c[j - |p|];
    }
  }

  lemma PlanOfDirBound(sorted: seq<seq<string>>, j: nat)
    requires j < |PlanOf(sorted)|
    ensures PlanOf(sorted)[j].dir < |sorted|
  {
    PlanOfEntry(sorted, j);
  }

  lemma DirCopiesDir(dir: nat, files: seq<string>, next: nat, j: nat)
    requires j < |DirCopies(dir, files, next)|
    ensures DirCopies(dir, files, next)[j].dir == dir
  {
    DirCopiesEntry(dir, files, next, j);
  }

  lemma PlanDirsOrdered(listings: seq<seq<string>>, i: nat, j: nat)
    requires i <= j < |PlanSpec(listings)|
    ensures PlanSpec(listings)[i].dir <= PlanSpec(listings)[j].dir
  {
    PlanOfDirsOrdered(SortEach(listings), i, j);
  }

  /** The names copied from directory `d`, in plan order. */
  function DirFiles(p: seq<Copy>, d: nat): seq<string>
    decreases |p|
  {
    if p == [] then []
    else if p[|p| - 1].dir == d then DirFiles(p[..|p| - 1], d) + [p[|p| - 1].file]
    else DirFiles(p[..|p| - 1], d)
  }

  lemma {:induction false} DirFilesAppend(a: seq<Copy>, b: seq<Copy>, d: nat)
    ensures DirFiles(a + b, d) == DirFiles(a, d) + DirFiles(b, d)
    decreases |b|
  {
    if b == [] {
      assert a + b == a;
    } else {
      var ab, b' := a + b, b[..|b| - 1];
      assert ab[..|ab| - 1] == a + b';
      assert ab[|ab| - 1] == b[|b| - 1];
      DirFilesAppend(a, b', d);
      if b[|b| - 1].dir == d {
        calc {
          DirFiles(ab, d);
          DirFiles(a + b', d) + [b[|b| - 1].file];
          DirFiles(a, d) + DirFiles(b', d) + [b[|b| - 1].file];
          DirFiles(a, d) + (DirFiles(b', d) + [b[|b| - 1].file]);
          DirFiles(a, d) + DirFiles(b, d);
        }
      } else {
        assert DirFiles(ab, d) == DirFiles(a + b', d);
        assert DirFiles(b, d) == DirFiles(b', d);
      }
    }
  }

  lemma {:induction false} DirFilesOfDir(dir: nat, files: seq<string>, next: nat, d: nat)
    ensures DirFiles(DirCopies(dir, files, next), d) == if d == dir then WebpOnly(files) else []
    decreases |files|
  {
    if files != [] {
      var init := files[..|files| - 1];
      var p := DirCopies(dir, init, next);
      DirFilesOfDir(dir, init, next, d);
      if IsWebp(files[|files| - 1]) {
        DirFilesAppend(p, [Copy(dir, files[|files| - 1], next + |p|, TargetName(next + |p|))], d);
      }
    }
  }

  lemma {:induction false} DirFilesBeyond(sorted: seq<seq<string>>, d: nat)
    requires d >= |sorted|
    ensures DirFiles(PlanOf(sorted), d) == []
    decreases |sorted|
  {
    if sorted != [] {
      var init := sorted[..|sorted| - 1];
      var p := PlanOf(init);
      var c := DirCopies(|sorted| - 1, sorted[|sorted| - 1], |p| + 1);
      DirFilesBeyond(init, d);
      DirFilesAppend(p, c, d);
      DirFilesOfDir(|sorted| - 1, sorted[|sorted| - 1], |p| + 1, d);
    }
  }

  /** What the plan copies from directory `d` is exactly the `.webp` part of
      its sorted listing. */
  lemma {:induction false} PlanOfDirFiles(sorted: seq<seq<string>>, d: nat)
    requires d < |sorted|
    ensures DirFiles(PlanOf(sorted), d) == WebpOnly(sorted[d])
    decreases |sorted|
  {
    var init := sorted[..|sorted| - 1];
    var p := PlanOf(init);
    var last := |sorted| - 1;
    var c := DirCopies(last, sorted[last], |p| + 1);
    DirFilesAppend(p, c, d);
    DirFilesOfDir(last, sorted[last], |p| + 1, d);
    if d < last {
      PlanOfDirFiles(init, d);
    } else {
      DirFilesBeyond(init, d);
    }
  }

  /** Within one directory the copies follow code-unit order, and they are
      the directory's `.webp` files, each as often as listed. */
  lemma PlanDirOrder(listings: seq<seq<string>>, d: nat)
    requires d < |listings|
    ensures Sorted(CodeUnit, DirFiles(PlanSpec(listings), d))
    ensures forall x :: multiset(DirFiles(PlanSpec(listings), d))[x] ==
                         if IsWebp(x) then multiset(listings[d])[x] else 0
  {
    var sorted := SortEach(listings);
    SortEachAt(listings, d);
    PlanOfDirFiles(sorted, d);
    WebpOnlySorted(KeyFn(CodeUnit), sorted[d]);
    forall x ensures multiset(DirFiles(PlanSpec(listings), d))[x] ==
                     if IsWebp(x) then multiset(listings[d])[x] else 0
    {
      WebpOnlyCounts(sorted[d], x);
    }
  }

  /** The plan depends only on which names each directory holds, not on the
      order in which the file system lists them. */
  lemma PlanIgnoresListingOrder(a: seq<seq<string>>, b: seq<seq<string>>)
    requires |a| == |b|
    requires forall d :: 0 <= d < |a| ==> multiset(a[d]) == multiset(b[d])
    ensures PlanSpec(a) == PlanSpec(b)
  {
    forall d | 0 <= d < |a| ensures SortEach(a)[d] == SortEach(b)[d] {
      SortEachAt(a, d);
      SortEachAt(b, d);
      CodeUnitSortUnique(a[d], b[d]);
    }
    assert SortEach(a) == SortEach(b);
  }
}
