/** The .NET string operations the adapter relies on, written out over
    `seq<char>`: ordinal and ordinal-ignore-case comparison, searching,
    `Substring` with its range checks, `Trim`, `Split` dropping empty pieces,
    decimal formatting of integers and `int.Parse`. */
module Text {
  import opened Base

  /** `StringComparison.Ordinal` or `StringComparison.OrdinalIgnoreCase`. */
  datatype Comparison = Ordinal | OrdinalIgnoreCase

  // ---------------------------------------------------------------------
  // Characters

  /** Upper-case fold used by ordinal-ignore-case comparison (ASCII letters). */
  function Fold(c: char): char {
    if 'a' <= c <= 'z' then (c as int - 32) as char else c
  }

  /** Two characters as the comparison sees them. */
  predicate CharEquals(x: char, y: char, cmp: Comparison) {
    match cmp
    case Ordinal => x == y
    case OrdinalIgnoreCase => Fold(x) == Fold(y)
  }

  /** `string.Equals(a, b, cmp)`. */
  predicate EqualsCmp(a: string, b: string, cmp: Comparison) {
    |a| == |b| && forall i :: 0 <= i < |a| ==> CharEquals(a[i], b[i], cmp)
  }

  /** A string with each of its characters folded. */
  function Folded(s: string): (r: string)
    ensures |r| == |s| && forall i :: 0 <= i < |s| ==> r[i] == Fold(s[i])
  {
    seq(|s|, i requires 0 <= i < |s| => Fold(s[i]))
  }

  /** Ignoring case, two strings are equal exactly when their folds are. */
  lemma EqualsIgnoringCase(a: string, b: string)
    ensures EqualsCmp(a, b, OrdinalIgnoreCase) <==> Folded(a) == Folded(b)
  {
    if |a| == |b| && Folded(a) == Folded(b) {
      assert forall i :: 0 <= i < |a| ==> Folded(a)[i] == Folded(b)[i];
    }
  }

  /** `char.IsWhiteSpace`: the Unicode space, line and paragraph separators
      together with U+0009..U+000D, U+0085 and U+00A0. */
  predicate IsWhiteSpace(c: char) {
    var u := c as int;
    || (0x09 <= u <= 0x0D) || u == 0x20 || u == 0x85 || u == 0xA0
    || u == 0x1680 || (0x2000 <= u <= 0x200A) || u == 0x2028 || u == 0x2029
    || u == 0x202F || u == 0x205F || u == 0x3000
  }

  /** `string.IsNullOrWhiteSpace`. */
  predicate IsNullOrWhiteSpace(s: Option<string>) {
    s.None? || forall i :: 0 <= i < |s.value| ==> IsWhiteSpace(s.value[i])
  }

  /** `string.IsNullOrEmpty`. */
  predicate IsNullOrEmpty(s: Option<string>) {
    s.None? || s.value == []
  }

  // ---------------------------------------------------------------------
  // Searching

  predicate StartsWith(s: string, prefix: string, cmp: Comparison) {
    |prefix| <= |s| && EqualsCmp(s[..|prefix|], prefix, cmp)
  }

  predicate EndsWith(s: string, suffix: string, cmp: Comparison) {
    |suffix| <= |s| && EqualsCmp(s[|s| - |suffix|..], suffix, cmp)
  }

  /** `pattern` occurs in `s` at position `i`. */
  predicate MatchesAt(s: string, i: int, pattern: string, cmp: Comparison) {
    0 <= i && i + |pattern| <= |s| && MatchesFrom(s, i, pattern, 0, cmp)
  }

  /** The characters of `pattern` from `k` on agree with those of `s` from `i + k` on. */
  predicate MatchesFrom(s: string, i: nat, pattern: string, k: nat, cmp: Comparison)
    requires i + |pattern| <= |s| && k <= |pattern|
    decreases |pattern| - k
  {
    k == |pattern| || (CharEquals(s[i + k], pattern[k], cmp) && MatchesFrom(s, i, pattern, k + 1, cmp))
  }

  /** `s.IndexOf(pattern, from, cmp)`: the first match at or after `from`, or -1. */
  function IndexOf(s: string, pattern: string, from: nat, cmp: Comparison): (r: int)
    requires from <= |s|
    ensures r == NotFound || (from <= r && r + |pattern| <= |s|)
    decreases |s| - from
  {
    if MatchesAt(s, from, pattern, cmp) then from
    else if from == |s| then NotFound
    else IndexOf(s, pattern, from + 1, cmp)
  }

  /** `IndexOf` reports a match, and no match lies between `from` and it, nor
      anywhere after `from` when it reports none. */
  lemma {:induction false} IndexOfFirst(s: string, pattern: string, from: nat, cmp: Comparison)
    requires from <= |s|
    ensures IndexOf(s, pattern, from, cmp) != NotFound ==> MatchesAt(s, IndexOf(s, pattern, from, cmp), pattern, cmp)
    ensures forall i :: from <= i <= |s| && (IndexOf(s, pattern, from, cmp) == NotFound || i < IndexOf(s, pattern, from, cmp)) ==>
              !MatchesAt(s, i, pattern, cmp)
    decreases |s| - from
  {
    if !MatchesAt(s, from, pattern, cmp) && from < |s| {
      IndexOfFirst(s, pattern, from + 1, cmp);
    }
  }

  /** `s.Contains(pattern)` (ordinal). */
  predicate Contains(s: string, pattern: string) {
    IndexOf(s, pattern, 0, Ordinal) != NotFound
  }

  /** Ignoring case, `s` starts with `prefix` exactly when the fold of
      `prefix` is a prefix of the fold of `s`. */
  lemma StartsWithIgnoringCase(s: string, prefix: string)
    ensures StartsWith(s, prefix, OrdinalIgnoreCase) <==> Folded(prefix) <= Folded(s)
  {
    if |prefix| <= |s| {
      EqualsIgnoringCase(s[..|prefix|], prefix);
      assert Folded(s[..|prefix|]) == Folded(s)[..|prefix|];
    }
  }

  /** `pattern` is the slice of `s` that starts at `i`. */
  predicate OccursAt(s: string, i: int, pattern: string) {
    0 <= i <= |s| - |pattern| && s[i..i + |pattern|] == pattern
  }

  /** An ordinal match at `i` is an occurrence at `i`, and back. */
  lemma OccursAtMatches(s: string, i: int, pattern: string)
    ensures OccursAt(s, i, pattern) <==> MatchesAt(s, i, pattern, Ordinal)
  {
    if 0 <= i <= |s| - |pattern| {
      if MatchesAt(s, i, pattern, Ordinal) {
        MatchesFromChars(s, i, pattern, 0, Ordinal);
        assert s[i..i + |pattern|] == pattern;
      }
      if OccursAt(s, i, pattern) {
        forall j | 0 <= j < |pattern|
          ensures CharEquals(s[i + j], pattern[j], Ordinal)
        {
          assert s[i..i + |pattern|][j] == s[i + j];
        }
        MatchesFromAgree(s, i, pattern, 0, Ordinal);
      }
    }
  }

  /** `s` contains `pattern` exactly when `pattern` occurs somewhere in `s`. */
  lemma ContainsOccurs(s: string, pattern: string)
    ensures Contains(s, pattern) <==> exists i :: OccursAt(s, i, pattern)
  {
    IndexOfFirst(s, pattern, 0, Ordinal);
    forall i
      ensures OccursAt(s, i, pattern) <==> MatchesAt(s, i, pattern, Ordinal)
    {
      OccursAtMatches(s, i, pattern);
    }
  }

  /** A match from `k` on means the characters agree pairwise from `k` on. */
  lemma {:induction false} MatchesFromChars(s: string, i: nat, pattern: string, k: nat, cmp: Comparison)
    requires i + |pattern| <= |s| && k <= |pattern|
    requires MatchesFrom(s, i, pattern, k, cmp)
    ensures forall j :: k <= j < |pattern| ==> CharEquals(s[i + j], pattern[j], cmp)
    decreases |pattern| - k
  {
    if k < |pattern| {
      MatchesFromChars(s, i, pattern, k + 1, cmp);
    }
  }

  /** Characters that agree pairwise from `k` on make a match from `k` on. */
  lemma {:induction false} MatchesFromAgree(s: string, i: nat, pattern: string, k: nat, cmp: Comparison)
    requires i + |pattern| <= |s| && k <= |pattern|
    requires forall j :: k <= j < |pattern| ==> CharEquals(s[i + j], pattern[j], cmp)
    ensures MatchesFrom(s, i, pattern, k, cmp)
    decreases |pattern| - k
  {
    if k < |pattern| {
      MatchesFromAgree(s, i, pattern, k + 1, cmp);
    }
  }

  /** A text that ends with a pattern contains it. */
  lemma EndsWithContains(s: string, suffix: string)
    requires EndsWith(s, suffix, Ordinal)
    ensures Contains(s, suffix)
  {
    var at := |s| - |suffix|;
    forall j | 0 <= j < |suffix|
      ensures CharEquals(s[at + j], suffix[j], Ordinal)
    {
      assert s[at..][j] == s[at + j];
    }
    MatchesFromAgree(s, at, suffix, 0, Ordinal);
    assert MatchesAt(s, at, suffix, Ordinal);
    IndexOfFirst(s, suffix, 0, Ordinal);
  }

  /** `s.IndexOf(c)`: the first position of `c`, or -1. */
  function IndexOfChar(s: string, c: char): (r: int)
    ensures r == NotFound || (0 <= r < |s| && s[r] == c)
    ensures forall i :: 0 <= i < |s| && (r == NotFound || i < r) ==> s[i] != c
  {
    if |s| == 0 then NotFound
    else if s[0] == c then 0
    else var r := IndexOfChar(s[1..], c); if r == NotFound then NotFound else r + 1
  }

  /** `s.LastIndexOf(c)`: the last position of `c`, or -1. */
  function LastIndexOfChar(s: string, c: char): (r: int)
    ensures r == NotFound || (0 <= r < |s| && s[r] == c)
    ensures forall i :: 0 <= i < |s| && r < i ==> s[i] != c
  {
    if |s| == 0 then NotFound
    else if s[|s| - 1] == c then |s| - 1
    else LastIndexOfChar(s[..|s| - 1], c)
  }

  /** The first `c` sits at `i` when `s[i]` is `c` and none comes before it. */
  lemma IndexOfCharIs(s: string, c: char, i: nat)
    requires i < |s| && s[i] == c
    requires forall j :: 0 <= j < i ==> s[j] != c
    ensures IndexOfChar(s, c) == i
  {
  }

  /** The last `c` sits at `i` when `s[i]` is `c` and none comes after it. */
  lemma LastIndexOfCharIs(s: string, c: char, i: nat)
    requires i < |s| && s[i] == c
    requires forall j :: i < j < |s| ==> s[j] != c
    ensures LastIndexOfChar(s, c) == i
  {
  }

  /** In `a + [c] + b` where `b` holds no `c`, the last `c` is the one after `a`. */
  lemma {:induction false} LastIndexOfCharBefore(a: string, c: char, b: string)
    requires c !in b
    ensures LastIndexOfChar(a + [c] + b, c) == |a|
    decreases |b|
  {
    var s := a + [c] + b;
    if |b| > 0 {
      assert s[..|s| - 1] == a + [c] + b[..|b| - 1];
      LastIndexOfCharBefore(a, c, b[..|b| - 1]);
    }
  }

  /** `s.Substring(s.LastIndexOf(c) + 1)`: what follows the last `c`, or all
      of `s` when it holds none. */
  function AfterLast(s: string, c: char): (r: string)
    ensures c !in r && |r| <= |s| && r == s[|s| - |r|..]
    ensures c !in s ==> r == s
    ensures c in s ==> |r| < |s| && s[|s| - |r| - 1] == c
  {
    var i := LastIndexOfChar(s, c);
    var r := s[i + 1..];
    assert c !in r by {
      forall k | 0 <= k < |r|
        ensures r[k] != c
      {
        assert r[k] == s[i + 1 + k];
      }
    }
    assert c !in s ==> i == NotFound;
    r
  }

  // ---------------------------------------------------------------------
  // Substring, Trim, Split

  /** `s.Substring(start)`, which throws unless `0 <= start <= s.Length`. */
  function SubstringFrom(s: string, start: int): (r: Result<string>)
    ensures r.Ok? <==> 0 <= start <= |s|
    ensures r.Ok? ==> r.value == s[start..]
  {
    if 0 <= start <= |s| then Ok(s[start..]) else Err(ArgumentOutOfRange("startIndex"))
  }

  /** `s.Substring(start, length)`. */
  function Substring(s: string, start: int, length: int): (r: Result<string>)
    ensures r.Ok? <==> 0 <= start && 0 <= length && start + length <= |s|
    ensures r.Ok? ==> r.value == s[start..start + length]
  {
    if 0 <= start && 0 <= length && start + length <= |s| then Ok(s[start..start + length])
    else Err(ArgumentOutOfRange("length"))
  }

  /** The end of the white space that starts at `from`. */
  function LeadingSpaceEnd(s: string, from: nat): (k: nat)
    requires from <= |s|
    ensures from <= k <= |s|
    ensures k < |s| ==> !IsWhiteSpace(s[k])
    ensures forall i :: from <= i < k ==> IsWhiteSpace(s[i])
    decreases |s| - from
  {
    if from < |s| && IsWhiteSpace(s[from]) then LeadingSpaceEnd(s, from + 1) else from
  }

  /** The start of the white space that ends at `hi`, going no lower than `lo`. */
  function TrailingSpaceStart(s: string, lo: nat, hi: nat): (e: nat)
    requires lo <= hi <= |s|
    ensures lo <= e <= hi
    ensures e > lo ==> !IsWhiteSpace(s[e - 1])
    ensures forall i :: e <= i < hi ==> IsWhiteSpace(s[i])
    decreases hi
  {
    if hi > lo && IsWhiteSpace(s[hi - 1]) then TrailingSpaceStart(s, lo, hi - 1) else hi
  }

  /** `s.Trim()`: leading and trailing white space removed. */
  function Trim(s: string): (r: string)
    ensures |r| > 0 ==> !IsWhiteSpace(r[0]) && !IsWhiteSpace(r[|r| - 1])
    ensures var k := LeadingSpaceEnd(s, 0);
      && k + |r| <= |s| && r == s[k..k + |r|]
      && (forall i :: 0 <= i < k ==> IsWhiteSpace(s[i]))
      && (forall i :: k + |r| <= i < |s| ==> IsWhiteSpace(s[i]))
  {
    var k := LeadingSpaceEnd(s, 0);
    var e := TrailingSpaceStart(s, k, |s|);
    s[k..e]
  }

  /** White space around text that neither starts nor ends with white space
      is exactly what `Trim` removes. */
  lemma TrimPadded(before: string, s: string, after: string)
    requires forall i :: 0 <= i < |before| ==> IsWhiteSpace(before[i])
    requires forall i :: 0 <= i < |after| ==> IsWhiteSpace(after[i])
    requires |s| > 0 && !IsWhiteSpace(s[0]) && !IsWhiteSpace(s[|s| - 1])
    ensures Trim(before + s + after) == s
  {
    var x := before + s + after;
    var k := LeadingSpaceEnd(x, 0);
    assert x[|before|] == s[0];
    assert forall i :: 0 <= i < |before| ==> x[i] == before[i];
    assert k == |before|;
    var e := TrailingSpaceStart(x, k, |x|);
    assert x[|before| + |s| - 1] == s[|s| - 1];
    assert forall i :: |before| + |s| <= i < |x| ==> x[i] == after[i - |before| - |s|];
    assert e == |before| + |s|;
    assert x[k..e] == s;
  }

  /** Text that neither starts nor ends with white space is its own trim. */
  lemma TrimIdentity(s: string)
    requires |s| > 0 ==> !IsWhiteSpace(s[0]) && !IsWhiteSpace(s[|s| - 1])
    ensures Trim(s) == s
  {
    assert LeadingSpaceEnd(s, 0) == 0;
    assert TrailingSpaceStart(s, 0, |s|) == |s|;
  }

  /** Trimming removes characters and adds none. */
  lemma TrimExcludes(s: string, c: char)
    requires c !in s
    ensures c !in Trim(s)
  {
    var r := Trim(s);
    var k := LeadingSpaceEnd(s, 0);
    assert forall i :: 0 <= i < |r| ==> r[i] == s[k + i];
  }

  /** `s.Split(new[] { sep }, StringSplitOptions.RemoveEmptyEntries)`. */
  function SplitNonEmpty(s: string, sep: char): (pieces: seq<string>)
    ensures forall k :: 0 <= k < |pieces| ==> |pieces[k]| > 0 && sep !in pieces[k]
    decreases |s|
  {
    var i := IndexOfChar(s, sep);
    if i == NotFound then (if s == [] then [] else [s])
    else (if i == 0 then [] else [s[..i]]) + SplitNonEmpty(s[i + 1..], sep)
  }

  /** The pieces glued back together with `sep` between them. */
  function Join(pieces: seq<string>, sep: char): string {
    if |pieces| == 0 then []
    else if |pieces| == 1 then pieces[0]
    else pieces[0] + [sep] + Join(pieces[1..], sep)
  }

  /** Splitting undoes joining whenever no piece is empty or holds the separator. */
  lemma {:induction false} SplitJoin(pieces: seq<string>, sep: char)
    requires forall k :: 0 <= k < |pieces| ==> |pieces[k]| > 0 && sep !in pieces[k]
    ensures SplitNonEmpty(Join(pieces, sep), sep) == pieces
    decreases |pieces|
  {
    if |pieces| == 0 {
    } else if |pieces| == 1 {
      assert IndexOfChar(pieces[0], sep) == NotFound;
    } else {
      var s := Join(pieces, sep);
      var p := pieces[0];
      assert s == p + [sep] + Join(pieces[1..], sep);
      assert s[|p|] == sep;
      assert forall i :: 0 <= i < |p| ==> s[i] == p[i];
      assert IndexOfChar(s, sep) == |p|;
      assert s[..|p|] == p;
      assert s[|p| + 1..] == Join(pieces[1..], sep);
      SplitJoin(pieces[1..], sep);
      assert [p] + pieces[1..] == pieces;
    }
  }

  // ---------------------------------------------------------------------
  // Integers as decimal text

  predicate IsDigit(c: char) { '0' <= c <= '9' }

  function DigitChar(d: nat): (c: char)
    requires d < 10
    ensures IsDigit(c) && DigitValue(c) == d
  {
    ('0' as int + d) as char
  }

  function DigitValue(c: char): (d: nat)
    requires IsDigit(c)
    ensures d < 10
  {
    c as int - '0' as int
  }

  /** The decimal digits of `n`, as `ToString()` writes them. */
  function NatToString(n: nat): (s: string)
    ensures |s| > 0 && forall i :: 0 <= i < |s| ==> IsDigit(s[i])
  {
    if n < 10 then [DigitChar(n)] else NatToString(n / 10) + [DigitChar(n % 10)]
  }

  /** `ToString()` of an integer: a minus sign before the digits of a negative value. */
  function IntToString(n: int): (s: string)
    ensures |s| > 0
    ensures s[0] == '-' <==> n < 0
    ensures forall i :: 0 <= i < |s| ==> IsDigit(s[i]) || (i == 0 && s[i] == '-')
  {
    if n < 0 then "-" + NatToString(-n) else NatToString(n)
  }

  /** The value of a run of decimal digits. */
  function DigitsValue(s: string): nat
    requires forall i :: 0 <= i < |s| ==> IsDigit(s[i])
  {
    if |s| == 0 then 0 else DigitsValue(s[..|s| - 1]) * 10 + DigitValue(s[|s| - 1])
  }

  /** Reading the digits back gives the number that was formatted. */
  lemma {:induction false} NatToStringRoundTrip(n: nat)
    ensures DigitsValue(NatToString(n)) == n
  {
    if n >= 10 {
      var s := NatToString(n);
      assert s[..|s| - 1] == NatToString(n / 10);
      NatToStringRoundTrip(n / 10);
    }
  }

  /** Different numbers are written differently. */
  lemma NatToStringInjective(a: nat, b: nat)
    requires NatToString(a) == NatToString(b)
    ensures a == b
  {
    NatToStringRoundTrip(a);
    NatToStringRoundTrip(b);
  }

  /** `int.Parse(s)` with the default number style: optional surrounding white
      space, an optional sign, at least one digit, and a value that fits in 32 bits. */
  function ParseInt32(s: string): (r: Result<int>)
    ensures r.Ok? ==> Int32Min <= r.value <= Int32Max
  {
    ParseSignedDigits(Trim(s))
  }

  /** `int.Parse` once the surrounding white space is gone. */
  function ParseSignedDigits(t: string): (r: Result<int>)
    ensures r.Ok? ==> Int32Min <= r.value <= Int32Max
  {
    var negative := |t| > 0 && t[0] == '-';
    var body := if |t| > 0 && (t[0] == '-' || t[0] == '+') then t[1..] else t;
    if |body| == 0 || !(forall i :: 0 <= i < |body| ==> IsDigit(body[i])) then Err(Format)
    else
      var magnitude: int := DigitsValue(body);
      var v := if negative then 0 - magnitude else magnitude;
      if Int32Min <= v <= Int32Max then Ok(v) else Err(Overflow)
  }

  /** An optional minus sign followed by digits parses as their value,
      negated after the sign. */
  lemma ParseSigned(t: string, negative: bool, digits: string)
    requires |digits| > 0 && forall i :: 0 <= i < |digits| ==> IsDigit(digits[i])
    requires t == (if negative then "-" + digits else digits)
    requires Int32Min <= (if negative then 0 - DigitsValue(digits) else DigitsValue(digits)) <= Int32Max
    ensures ParseSignedDigits(t) == Ok(if negative then 0 - DigitsValue(digits) else DigitsValue(digits))
  {
    if negative {
      assert t[0] == '-' && t[1..] == digits;
    } else {
      assert IsDigit(t[0]) && t[0] != '-' && t[0] != '+';
    }
  }

  /** The text of an integer has no white space to trim. */
  lemma IntToStringTrimmed(n: int)
    ensures Trim(IntToString(n)) == IntToString(n)
  {
    var s := IntToString(n);
    assert !IsWhiteSpace(s[0]) && !IsWhiteSpace(s[|s| - 1]);
    assert LeadingSpaceEnd(s, 0) == 0;
    assert TrailingSpaceStart(s, 0, |s|) == |s|;
  }

  /** Every 32-bit integer survives formatting followed by `int.Parse`. */
  lemma ParseInt32RoundTrip(n: int)
    requires Int32Min <= n <= Int32Max
    ensures ParseInt32(IntToString(n)) == Ok(n)
  {
    var magnitude := if n < 0 then -n else n;
    NatToStringRoundTrip(magnitude);
    IntToStringTrimmed(n);
    ParseSigned(IntToString(n), n < 0, NatToString(magnitude));
  }
}
