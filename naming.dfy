/** Asset names: decimal rendering of a frame number, `padStart(4, '0')`,
    `endsWith('.webp')`, and the `/frames/NNNN.webp` URL. */
module Naming {

  const Webp: string := ".webp"

  predicate IsDigit(c: char) {
    '0' <= c <= '9'
  }

  predicate AllDigits(s: string) {
    forall i :: 0 <= i < |s| ==> IsDigit(s[i])
  }

  function DigitChar(d: nat): (c: char)
    requires d < 10
    ensures IsDigit(c) && c as int - '0' as int == d
  {
    ('0' as int + d) as char
  }

  /** `String(n)` for a non-negative integer: its shortest decimal form. */
  function Decimal(n: nat): (s: string)
    ensures 1 <= |s| && AllDigits(s)
    ensures n < 10 <==> |s| == 1
  {
    if n < 10 then [DigitChar(n)] else Decimal(n / 10) + [DigitChar(n % 10)]
  }

  /** The number a string of decimal digits denotes (leading zeros allowed). */
  function DigitsValue(s: string): nat
    requires AllDigits(s)
  {
    if s == [] then 0
    else DigitsValue(s[..|s| - 1]) * 10 + (s[|s| - 1] as int - '0' as int)
  }

  function Repeat(c: char, k: nat): (r: string)
    ensures |r| == k && forall i :: 0 <= i < k ==> r[i] == c
  {
    if k == 0 then [] else [c] + Repeat(c, k - 1)
  }

  /** `s.padStart(width, fill)` for a one-character fill: unchanged when `s`
      is already `width` long, otherwise `fill` repeated on the left. */
  function PadStart(s: string, width: nat, fill: char): (r: string)
    ensures |s| >= width ==> r == s
    ensures |s| < width ==> |r| == width
    ensures r[|r| - |s|..] == s
    ensures forall i :: 0 <= i < |r| - |s| ==> r[i] == fill
  {
    if |s| >= width then s else Repeat(fill, width - |s|) + s
  }

  /** `String(n).padStart(4, '0')`. */
  function Pad4(n: nat): string {
    PadStart(Decimal(n), 4, '0')
  }

  /** `/frames/${String(i).padStart(4, '0')}.webp`. */
  function FrameUrl(i: nat): string {
    "/frames/" + Pad4(i) + Webp
  }

  predicate EndsWith(s: string, suffix: string) {
    |suffix| <= |s| && s[|s| - |suffix|..] == suffix
  }

  predicate IsWebp(name: string) {
    EndsWith(name, Webp)
  }

  lemma {:induction false} DecimalRoundTrip(n: nat)
    ensures DigitsValue(Decimal(n)) == n
  {
    if n >= 10 {
      var s := Decimal(n);
      assert s[..|s| - 1] == Decimal(n / 10);
      DecimalRoundTrip(n / 10);
    }
  }

  lemma {:induction false} LeadingZerosValue(k: nat, s: string)
    requires AllDigits(s)
    ensures AllDigits(Repeat('0', k) + s)
    ensures DigitsValue(Repeat('0', k) + s) == DigitsValue(s)
  {
    var z := Repeat('0', k);
    if s == [] {
      assert z + s == z;
      if k > 0 {
        assert z[..k - 1] == Repeat('0', k - 1);
        LeadingZerosValue(k - 1, []);
        assert Repeat('0', k - 1) + [] == Repeat('0', k - 1);
      }
    } else {
      var init := s[..|s| - 1];
      assert (z + s)[..|z + s| - 1] == z + init;
      LeadingZerosValue(k, init);
    }
  }

  /** Decimal form has at most four digits below 10000 and at least four from 1000. */
  lemma {:induction false} DecimalLength(n: nat)
    ensures n < 10000 ==> |Decimal(n)| <= 4
    ensures n >= 1000 ==> |Decimal(n)| >= 4
  {
    if n >= 10 { DecimalLength(n / 10); }
  }

  /** Every padded name reads back as the number it was made from, so
      distinct numbers never share a name. */
  lemma Pad4RoundTrip(n: nat)
    ensures AllDigits(Pad4(n)) && DigitsValue(Pad4(n)) == n
  {
    var d := Decimal(n);
    DecimalRoundTrip(n);
    if |d| < 4 {
      LeadingZerosValue(4 - |d|, d);
    }
  }

  /** For 0 <= n <= 9999 the padded form is exactly four decimal digits;
      from 1000 on it is the plain decimal form (no truncation). */
  lemma Pad4Shape(n: nat)
    ensures n <= 9999 ==> |Pad4(n)| == 4
    ensures n >= 1000 ==> Pad4(n) == Decimal(n)
    ensures AllDigits(Pad4(n)) && DigitsValue(Pad4(n)) == n
  {
    DecimalLength(n);
    Pad4RoundTrip(n);
  }

  lemma Pad4Injective(m: nat, n: nat)
    ensures Pad4(m) == Pad4(n) <==> m == n
  {
    Pad4RoundTrip(m);
    Pad4RoundTrip(n);
  }

  /** The frame URL is prefix, four digits reading back as `i`, suffix. */
  lemma FrameUrlShape(i: nat)
    requires 1 <= i <= 9999
    ensures |FrameUrl(i)| == 17
    ensures FrameUrl(i)[..8] == "/frames/" && FrameUrl(i)[12..] == Webp
    ensures AllDigits(FrameUrl(i)[8..12]) && DigitsValue(FrameUrl(i)[8..12]) == i
    ensures IsWebp(FrameUrl(i))
  {
    Pad4Shape(i);
    var a, b, c := "/frames/", Pad4(i), Webp;
    assert |a| == 8 && |c| == 5;
    ConcatParts(a, b, c);
  }

  /** Each part of a three-way concatenation is a slice of it. */
  lemma ConcatParts(a: string, b: string, c: string)
    ensures (a + b + c)[..|a|] == a
    ensures (a + b + c)[|a|..|a| + |b|] == b
    ensures (a + b + c)[|a| + |b|..] == c
  {
  }

  lemma FrameUrlInjective(i: nat, j: nat)
    ensures FrameUrl(i) == FrameUrl(j) <==> i == j
  {
    if FrameUrl(i) == FrameUrl(j) {
      var a := "/frames/";
      assert |a| == 8;
      ConcatParts(a, Pad4(i), Webp);
      ConcatParts(a, Pad4(j), Webp);
      Pad4Injective(i, j);
    }
  }

  lemma Pad4Examples()
    ensures Pad4(7) == "0007" && Pad4(384) == "0384" && Pad4(12345) == "12345"
  {
    assert Decimal(7) == "7";
    assert Decimal(38) == "38";
    assert Decimal(384) == "384";
    assert Decimal(1234) == "1234";
  }

  /** `files.filter(f => f.endsWith('.webp'))`: the `.webp` names, in order. */
  function WebpOnly(s: seq<string>): (r: seq<string>)
    ensures |r| <= |s|
    ensures forall i :: 0 <= i < |r| ==> IsWebp(r[i])
  {
    if s == [] then []
    else if IsWebp(s[|s| - 1]) then WebpOnly(s[..|s| - 1]) + [s[|s| - 1]]
    else WebpOnly(s[..|s| - 1])
  }

  /** The filter keeps every `.webp` name as often as it occurs and drops
      every other name. */
  lemma {:induction false} WebpOnlyCounts(s: seq<string>, x: string)
    ensures multiset(WebpOnly(s))[x] == if IsWebp(x) then multiset(s)[x] else 0
    decreases |s|
  {
    if s != [] {
      var init, last := s[..|s| - 1], s[|s| - 1];
      assert s == init + [last];
      WebpOnlyCounts(init, x);
    }
  }

  /** Filtering two listings that hold the same names gives the same names. */
  lemma WebpOnlySameNames(a: seq<string>, b: seq<string>)
    requires multiset(a) == multiset(b)
    ensures multiset(WebpOnly(a)) == multiset(WebpOnly(b))
    ensures |WebpOnly(a)| == |WebpOnly(b)|
  {
    forall x ensures multiset(WebpOnly(a))[x] == multiset(WebpOnly(b))[x] {
      WebpOnlyCounts(a, x);
      WebpOnlyCounts(b, x);
    }
    assert multiset(WebpOnly(a)) == multiset(WebpOnly(b));
    assert |multiset(WebpOnly(a))| == |multiset(WebpOnly(b))|;
  }
}
