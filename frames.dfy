/** The server-side frame listing: the `.webp` names of a public folder in
    natural order, as root-relative URLs. Whether the folder exists and
    what it lists are parameters. */
module Frames {
  import opened Wrappers
  import opened Naming
  import opened Ordering

  /** The folder's `.webp` names in natural order: sorted, and holding each
      `.webp` entry of the listing exactly as often as listed. */
  function FrameNames(files: seq<string>): (names: seq<string>)
    ensures Sorted(Natural, names)
    ensures forall x :: multiset(names)[x] == if IsWebp(x) then multiset(files)[x] else 0
  {
    var names := Sort(Natural, WebpOnly(files));
    forall x ensures multiset(names)[x] == if IsWebp(x) then multiset(files)[x] else 0 {
      WebpOnlyCounts(files, x);
    }
    names
  }

  /** `/${animationFolder}/${file}`. */
  function FrameUrlIn(folder: string, file: string): string {
    "/" + folder + "/" + file
  }

  /** `getFrames(folder)`: `listing` is `None` when the folder does not
      exist, in which case the result is empty. */
  function GetFrames(folder: string, listing: Option<seq<string>>): (urls: seq<string>)
    ensures listing.None? ==> urls == []
    ensures listing.Some? ==>
      && |urls| == |FrameNames(listing.value)|
      && forall i :: 0 <= i < |urls| ==> urls[i] == FrameUrlIn(folder, FrameNames(listing.value)[i])
  {
    match listing
    case None => []
    case Some(files) =>
      var names := FrameNames(files);
      seq(|names|, i requires 0 <= i < |names| => FrameUrlIn(folder, names[i]))
  }

  /** Every URL names a `.webp` file in the folder, there is one URL per
      `.webp` entry, and an empty or `.webp`-free folder gives no frames. */
  lemma GetFramesShape(folder: string, files: seq<string>)
    ensures var urls := GetFrames(folder, Some(files));
      && |urls| == |WebpOnly(files)|
      && (forall i :: 0 <= i < |urls| ==> IsWebp(urls[i]) && |folder| + 2 < |urls[i]|)
      && (urls == [] <==> forall j :: 0 <= j < |files| ==> !IsWebp(files[j]))
  {
    var names := FrameNames(files);
    var w := WebpOnly(files);
    assert |multiset(names)| == |multiset(w)| by {
      forall x ensures multiset(names)[x] == multiset(w)[x] {
        WebpOnlyCounts(files, x);
      }
      assert multiset(names) == multiset(w);
    }
    var urls := GetFrames(folder, Some(files));
    forall i | 0 <= i < |urls| ensures IsWebp(urls[i]) && |folder| + 2 < |urls[i]| {
      var n := names[i];
      assert n in multiset(names);
      UrlOfWebp(folder, n);
    }
    if urls == [] {
      forall j | 0 <= j < |files| ensures !IsWebp(files[j]) {
        WebpOnlyCounts(files, files[j]);
        assert files[j] in multiset(files);
      }
    } else {
      var n := names[0];
      assert n in multiset(names);
      assert n in multiset(files);
      var j :| 0 <= j < |files| && files[j] == n;
      assert IsWebp(files[j]);
    }
  }

  /** The URL of a `.webp` name is itself a `.webp` path under the folder. */
  lemma UrlOfWebp(folder: string, name: string)
    requires IsWebp(name)
    ensures IsWebp(FrameUrlIn(folder, name)) && |folder| + 2 < |FrameUrlIn(folder, name)|
  {
    var u := FrameUrlIn(folder, name);
    assert u[|u| - |name|..] == name;
    assert u[|u| - |Webp|..] == name[|name| - |Webp|..];
  }

  /** When no two `.webp` entries tie under the natural order (no names that
      differ only in letter case or in leading zeros), the frame list does
      not depend on the order in which the file system lists the folder. */
  lemma FrameNamesIgnoreListingOrder(a: seq<string>, b: seq<string>)
    requires multiset(a) == multiset(b)
    requires forall x, y ::
               x in a && y in a && IsWebp(x) && IsWebp(y) && KeyOf(Natural, x) == KeyOf(Natural, y)
               ==> x == y
    ensures FrameNames(a) == FrameNames(b)
  {
    var na, nb := FrameNames(a), FrameNames(b);
    forall x ensures multiset(na)[x] == multiset(nb)[x] {
      assert multiset(a)[x] == multiset(b)[x];
    }
    assert multiset(na) == multiset(nb);
    forall i, j | 0 <= i < |na| && 0 <= j < |na| && KeyFn(Natural)(na[i]) == KeyFn(Natural)(na[j])
      ensures na[i] == na[j]
    {
      FrameNameListed(a, i);
      FrameNameListed(a, j);
    }
    SortedByUnique(KeyFn(Natural), na, nb);
  }

  /** Every frame name is a `.webp` entry of the listing. */
  lemma FrameNameListed(files: seq<string>, k: nat)
    requires k < |FrameNames(files)|
    ensures FrameNames(files)[k] in files && IsWebp(FrameNames(files)[k])
  {
    var n := FrameNames(files)[k];
    assert n in multiset(FrameNames(files));
  }
}
