/** The two string orders the source sorts by, each reduced to a key (a
    sequence of integer pairs compared lexicographically), and a stable
    insertion sort whose result is sorted and a permutation of its input.

    - CodeUnit: JavaScript's default `Array.prototype.sort()` comparison,
      character by character on code units.
    - Natural: a SIMPLIFIED stand-in for `localeCompare(b, undefined,
      {numeric: true, sensitivity: 'base'})`: a maximal run of ASCII digits
      is one token compared by its numeric value; any other character is one
      token compared by its code after folding ASCII upper case to lower
      case; a digit run sorts before any other character. Full collation
      (accents, punctuation weights, scripts) is not modelled. */
module Ordering {
  import opened Naming

  type Tok = (int, int)
  type Key = seq<Tok>

  datatype Order = CodeUnit | Natural

  predicate TokLt(a: Tok, b: Tok) {
    a.0 < b.0 || (a.0 == b.0 && a.1 < b.1)
  }

  /** Lexicographic order on keys; a proper prefix comes first. */
  predicate KeyLe(a: Key, b: Key)
    decreases |a|
  {
    if a == [] then true
    else if b == [] then false
    else if TokLt(a[0], b[0]) then true
    else if a[0] == b[0] then KeyLe(a[1..], b[1..])
    else false
  }

  lemma {:induction false} KeyLeTotal(a: Key, b: Key)
    ensures KeyLe(a, b) || KeyLe(b, a)
    decreases |a|
  {
    if a != [] && b != [] && a[0] == b[0] {
      KeyLeTotal(a[1..], b[1..]);
    }
  }

  lemma {:induction false} KeyLeReflexive(a: Key)
    ensures KeyLe(a, a)
    decreases |a|
  {
    if a != [] {
      KeyLeReflexive(a[1..]);
    }
  }

  /** A common prefix does not change how two keys compare. */
  lemma {:induction false} KeyLeCommonPrefix(p: Key, a: Key, b: Key)
    ensures KeyLe(p + a, p + b) == KeyLe(a, b)
    decreases |p|
  {
    if p != [] {
      assert (p + a)[0] == p[0] && (p + b)[0] == p[0];
      assert (p + a)[1..] == p[1..] + a;
      assert (p + b)[1..] == p[1..] + b;
      KeyLeCommonPrefix(p[1..], a, b);
    } else {
      assert p + a == a && p + b == b;
    }
  }

  lemma {:induction false} KeyLeAntisymmetric(a: Key, b: Key)
    requires KeyLe(a, b) && KeyLe(b, a)
    ensures a == b
    decreases |a|
  {
    if a != [] {
      KeyLeAntisymmetric(a[1..], b[1..]);
      assert a == [a[0]] + a[1..];
      assert b == [b[0]] + b[1..];
    }
  }

  lemma {:induction false} KeyLeTransitive(a: Key, b: Key, c: Key)
    requires KeyLe(a, b) && KeyLe(b, c)
    ensures KeyLe(a, c)
    decreases |a|
  {
    if a != [] && a[0] == b[0] && b[0] == c[0] {
      KeyLeTransitive(a[1..], b[1..], c[1..]);
    }
  }

  function LowerAscii(c: char): char {
    if 'A' <= c <= 'Z' then (c as int + 32) as char else c
  }

  /** Length of the run of digits at the front of `s`. */
  function DigitRun(s: string): (k: nat)
    ensures k <= |s| && AllDigits(s[..k])
    ensures k < |s| ==> !IsDigit(s[k])
  {
    if s == [] || !IsDigit(s[0]) then 0
    else
      var k := 1 + DigitRun(s[1..]);
      assert s[..k] == [s[0]] + s[1..][..k - 1];
      k
  }

  function NaturalKey(s: string): Key
    decreases |s|
  {
    if s == [] then []
    else if IsDigit(s[0]) then
      var k := DigitRun(s);
      [(0, DigitsValue(s[..k]))] + NaturalKey(s[k..])
    else [(1, LowerAscii(s[0]) as int)] + NaturalKey(s[1..])
  }

  function CodeUnitKey(s: string): (k: Key)
    ensures |k| == |s|
  {
    seq(|s|, i requires 0 <= i < |s| => (0, s[i] as int))
  }

  function KeyOf(o: Order, s: string): Key {
    match o
    case CodeUnit => CodeUnitKey(s)
    case Natural => NaturalKey(s)
  }

  /** `a` may precede `b` (the comparator returns <= 0). */
  predicate Le(o: Order, a: string, b: string) {
    KeyLe(KeyOf(o, a), KeyOf(o, b))
  }

  lemma LeTotal(o: Order, a: string, b: string)
    ensures Le(o, a, b) || Le(o, b, a)
  {
    KeyLeTotal(KeyOf(o, a), KeyOf(o, b));
  }

  lemma LeReflexive(o: Order, a: string)
    ensures Le(o, a, a)
  {
    KeyLeReflexive(KeyOf(o, a));
  }

  lemma LeTransitive(o: Order, a: string, b: string, c: string)
    requires Le(o, a, b) && Le(o, b, c)
    ensures Le(o, a, c)
  {
    KeyLeTransitive(KeyOf(o, a), KeyOf(o, b), KeyOf(o, c));
  }

  /** The key of each string under an order. */
  function KeyFn(o: Order): string -> Key {
    s => KeyOf(o, s)
  }

  /** Sorted by a key function: every earlier key is <= every later one. */
  predicate SortedBy(key: string -> Key, s: seq<string>) {
    forall i, j :: 0 <= i < j < |s| ==> KeyLe(key(s[i]), key(s[j]))
  }

  predicate Sorted(o: Order, s: seq<string>) {
    SortedBy(KeyFn(o), s)
  }

  /** Places `x` after every trailing element whose key is <= its own, so
      equal keys keep their input order. */
  function InsertBy(key: string -> Key, x: string, s: seq<string>): (r: seq<string>)
    ensures multiset(r) == multiset(s) + multiset{x}
    ensures |r| == |s| + 1
    decreases |s|
  {
    if s == [] then [x]
    else
      var last := s[|s| - 1];
      if KeyLe(key(last), key(x)) then
        assert s + [x] == s[..|s| - 1] + [last] + [x];
        s + [x]
      else
        assert s == s[..|s| - 1] + [last];
        InsertBy(key, x, s[..|s| - 1]) + [last]
  }

  lemma {:induction false} InsertSorted(key: string -> Key, x: string, s: seq<string>)
    requires SortedBy(key, s)
    ensures SortedBy(key, InsertBy(key, x, s))
    decreases |s|
  {
    if s != [] {
      var last := s[|s| - 1];
      if KeyLe(key(last), key(x)) {
        forall i | 0 <= i < |s| ensures KeyLe(key(s[i]), key(x)) {
          if i < |s| - 1 {
            KeyLeTransitive(key(s[i]), key(last), key(x));
          }
        }
        SortedAppend(key, s, x);
      } else {
        KeyLeTotal(key(last), key(x));
        var init := s[..|s| - 1];
        InsertSorted(key, x, init);
        var r' := InsertBy(key, x, init);
        forall i | 0 <= i < |r'| ensures KeyLe(key(r'[i]), key(last)) {
          var y := r'[i];
          assert y in multiset(r');
          if y != x {
            assert y in multiset(init);
            var k :| 0 <= k < |init| && init[k] == y;
            assert s[k] == y;
          }
        }
        SortedAppend(key, r', last);
      }
    }
  }

  /** A sorted list stays sorted when an element that no key exceeds is
      appended. */
  lemma SortedAppend(key: string -> Key, s: seq<string>, x: string)
    requires SortedBy(key, s)
    requires forall i :: 0 <= i < |s| ==> KeyLe(key(s[i]), key(x))
    ensures SortedBy(key, s + [x])
  {
  }

  /** Insertion sort by a key function: a permutation of the input. */
  function SortBy(key: string -> Key, s: seq<string>): (r: seq<string>)
    ensures multiset(r) == multiset(s)
    ensures |r| == |s|
    decreases |s|
  {
    if s == [] then []
    else
      assert s == s[..|s| - 1] + [s[|s| - 1]];
      InsertBy(key, s[|s| - 1], SortBy(key, s[..|s| - 1]))
  }

  lemma {:induction false} SortBySorted(key: string -> Key, s: seq<string>)
    ensures SortedBy(key, SortBy(key, s))
    decreases |s|
  {
    if s != [] {
      SortBySorted(key, s[..|s| - 1]);
      InsertSorted(key, s[|s| - 1], SortBy(key, s[..|s| - 1]));
    }
  }

  /** `Array.prototype.sort` under order `o`: sorted and a permutation of the input. */
  function Sort(o: Order, s: seq<string>): (r: seq<string>)
    ensures Sorted(o, r)
    ensures multiset(r) == multiset(s)
  {
    SortBySorted(KeyFn(o), s);
    SortBy(KeyFn(o), s)
  }

  /** Keeping only the `.webp` names of a sorted list leaves it sorted. */
  lemma {:induction false} WebpOnlySorted(key: string -> Key, s: seq<string>)
    requires SortedBy(key, s)
    ensures SortedBy(key, WebpOnly(s))
    decreases |s|
  {
    if s != [] {
      var init, last := s[..|s| - 1], s[|s| - 1];
      assert SortedBy(key, init);
      WebpOnlySorted(key, init);
      if IsWebp(last) {
        var w := WebpOnly(init);
        forall i | 0 <= i < |w| ensures KeyLe(key(w[i]), key(last)) {
          WebpOnlyCounts(init, w[i]);
          assert w[i] in multiset(w);
          assert w[i] in multiset(init);
          var k :| 0 <= k < |init| && init[k] == w[i];
          assert s[k] == w[i];
        }
      }
    }
  }

  /** The key tells the elements of `s` apart. */
  predicate KeyInjectiveOn(key: string -> Key, s: seq<string>) {
    forall i, j :: 0 <= i < |s| && 0 <= j < |s| && key(s[i]) == key(s[j]) ==> s[i] == s[j]
  }

  lemma SortedByHead(key: string -> Key, a: seq<string>, y: string)
    requires SortedBy(key, a) && a != [] && y in a
    ensures KeyLe(key(a[0]), key(y))
  {
    var j :| 0 <= j < |a| && a[j] == y;
    if j == 0 { KeyLeReflexive(key(y)); }
  }

  lemma MultisetTail(a: seq<string>, b: seq<string>)
    requires a != [] && b != [] && a[0] == b[0]
    requires multiset(a) == multiset(b)
    ensures multiset(a[1..]) == multiset(b[1..])
  {
    assert a == [a[0]] + a[1..];
    assert b == [b[0]] + b[1..];
    assert multiset(a) == multiset{a[0]} + multiset(a[1..]);
    assert multiset(b) == multiset{a[0]} + multiset(b[1..]);
    forall e ensures multiset(a[1..])[e] == multiset(b[1..])[e] {
      assert multiset(a)[e] == multiset(b)[e];
    }
  }

  /** Two sorted permutations of one list are equal when the key tells its
      elements apart. */
  lemma {:induction false} SortedByUnique(key: string -> Key, a: seq<string>, b: seq<string>)
    requires SortedBy(key, a) && SortedBy(key, b)
    requires multiset(a) == multiset(b)
    requires KeyInjectiveOn(key, a)
    ensures a == b
    decreases |a|
  {
    if a != [] {
      assert |a| == |b| by { assert |multiset(a)| == |multiset(b)|; }
      var x, y := a[0], b[0];
      assert x in multiset(b) && y in multiset(a);
      SortedByHead(key, a, y);
      SortedByHead(key, b, x);
      KeyLeAntisymmetric(key(x), key(y));
      var k :| 0 <= k < |a| && a[k] == y;
      assert key(a[0]) == key(a[k]);
      MultisetTail(a, b);
      SortedByUnique(key, a[1..], b[1..]);
      assert a == [x] + a[1..] && b == [y] + b[1..];
    }
  }

  lemma CodeUnitKeyInjective(x: string, y: string)
    requires CodeUnitKey(x) == CodeUnitKey(y)
    ensures x == y
  {
    assert |x| == |y|;
    forall i | 0 <= i < |x| ensures x[i] == y[i] {
      assert CodeUnitKey(x)[i] == CodeUnitKey(y)[i];
    }
  }

  /** Code-unit sorting depends only on the multiset of its input: any two
      listings holding the same names sort to the same list. */
  lemma CodeUnitSortUnique(a: seq<string>, b: seq<string>)
    requires multiset(a) == multiset(b)
    ensures Sort(CodeUnit, a) == Sort(CodeUnit, b)
  {
    var sa, sb := Sort(CodeUnit, a), Sort(CodeUnit, b);
    forall i, j | 0 <= i < |sa| && 0 <= j < |sa| && KeyFn(CodeUnit)(sa[i]) == KeyFn(CodeUnit)(sa[j])
      ensures sa[i] == sa[j]
    {
      CodeUnitKeyInjective(sa[i], sa[j]);
    }
    SortedByUnique(KeyFn(CodeUnit), sa, sb);
  }

  function LetterKey(p: string): Key {
    if p == [] then [] else [(1, LowerAscii(p[0]) as int)] + LetterKey(p[1..])
  }

  /** A prefix without digits contributes one token per character. */
  lemma {:induction false} NaturalKeyLetters(p: string, s: string)
    requires forall i :: 0 <= i < |p| ==> !IsDigit(p[i])
    ensures NaturalKey(p + s) == LetterKey(p) + NaturalKey(s)
    decreases |p|
  {
    if p != [] {
      assert (p + s)[0] == p[0];
      assert (p + s)[1..] == p[1..] + s;
      NaturalKeyLetters(p[1..], s);
    } else {
      assert p + s == s;
    }
  }

  lemma {:induction false} NaturalKeyNumber(digits: string, s: string)
    requires 1 <= |digits| && AllDigits(digits)
    requires s == [] || !IsDigit(s[0])
    ensures NaturalKey(digits + s) == [(0, DigitsValue(digits))] + NaturalKey(s)
  {
    var t := digits + s;
    var k := DigitRun(t);
    assert forall i :: 0 <= i < |digits| ==> t[i] == digits[i];
    assert s != [] ==> t[|digits|] == s[0];
    assert k == |digits|;
    assert t[..k] == digits;
    assert t[k..] == s;
  }

  lemma NaturalKeyNumbered(prefix: string, d: nat)
    requires forall i :: 0 <= i < |prefix| ==> !IsDigit(prefix[i])
    ensures NaturalKey(prefix + Decimal(d) + Webp) == LetterKey(prefix) + ([(0, d)] + NaturalKey(Webp))
  {
    assert prefix + Decimal(d) + Webp == prefix + (Decimal(d) + Webp);
    NaturalKeyLetters(prefix, Decimal(d) + Webp);
    NaturalKeyNumber(Decimal(d), Webp);
    DecimalRoundTrip(d);
  }

  /** Names `prefix + String(n) + ".webp"` with a digit-free prefix sort by
      their number under the natural order, whatever its digit count; so
      frame2.webp precedes frame10.webp and not the reverse. */
  lemma NaturalOrderNumbered(prefix: string, m: nat, n: nat)
    requires forall i :: 0 <= i < |prefix| ==> !IsDigit(prefix[i])
    ensures Le(Natural, prefix + Decimal(m) + Webp, prefix + Decimal(n) + Webp) <==> m <= n
  {
    var tail := NaturalKey(Webp);
    NaturalKeyNumbered(prefix, m);
    NaturalKeyNumbered(prefix, n);
    KeyLeReflexive(tail);
    KeyLeCommonPrefix(LetterKey(prefix), [(0, m)] + tail, [(0, n)] + tail);
  }

  /** Code-unit order alone would put frame10 first. */
  lemma CodeUnitOrderExample()
    ensures !Le(CodeUnit, "frame2.webp", "frame10.webp")
  {
    var ca, cb := CodeUnitKey("frame2.webp"), CodeUnitKey("frame10.webp");
    assert ca == ca[..5] + ca[5..] && cb == cb[..5] + cb[5..];
    assert ca[..5] == cb[..5];
    KeyLeCommonPrefix(ca[..5], ca[5..], cb[5..]);
    assert ca[5..][0] == (0, '2' as int) && cb[5..][0] == (0, '1' as int);
  }
}
