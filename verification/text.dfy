/** String helpers shared by the models: JavaScript's `startsWith`, `split`
    with a non-empty separator, `join`, `trim`'s notion of white space and
    decimal digit strings. Strings are sequences of characters; no encoding
    or normalisation is involved. */
module Text {
  import opened Wrappers

  predicate StartsWith(s: string, prefix: string) {
    |prefix| <= |s| && s[..|prefix|] == prefix
  }

  /** `sep` occurs in `s` starting at index `j` */
  predicate OccursAt(s: string, sep: string, j: int) {
    0 <= j && j + |sep| <= |s| && s[j..j + |sep|] == sep
  }

  predicate Contains(s: string, sep: string) {
    exists j :: 0 <= j <= |s| && OccursAt(s, sep, j)
  }

  /** The first index at which `sep` occurs in `s` (JavaScript's `indexOf`, with None for -1) */
  function IndexOf(s: string, sep: string): (r: Option<nat>)
    requires |sep| > 0
    ensures r.Some? ==> r.value + |sep| <= |s|
    decreases |s|
  {
    if |s| < |sep| then None
    else if s[..|sep|] == sep then Some(0)
    else
      match IndexOf(s[1..], sep)
      case None => None
      case Some(i) => Some(i + 1)
  }

  /** IndexOf finds an occurrence, the least one, and finds none exactly when there is none */
  lemma {:induction false} IndexOfSpec(s: string, sep: string)
    requires |sep| > 0
    ensures var r := IndexOf(s, sep);
            && (r.Some? ==> OccursAt(s, sep, r.value))
            && (r.Some? ==> forall j :: 0 <= j < r.value ==> !OccursAt(s, sep, j))
            && (r.None? <==> !Contains(s, sep))
    decreases |s|
  {
    if |s| < |sep| {
    } else if s[..|sep|] == sep {
      assert OccursAt(s, sep, 0);
    } else {
      IndexOfSpec(s[1..], sep);
      ShiftOccurrence(s, sep);
      assert !OccursAt(s, sep, 0);
      match IndexOf(s[1..], sep)
      case None =>
      case Some(i) =>
        assert OccursAt(s, sep, i + 1);
    }
  }

  /** Occurrences in `s` after index 0 are the occurrences in `s[1..]` moved one place right */
  lemma ShiftOccurrence(s: string, sep: string)
    requires |s| > 0
    ensures forall j :: 1 <= j ==> (OccursAt(s, sep, j) <==> OccursAt(s[1..], sep, j - 1))
  {
    forall j | 1 <= j
      ensures OccursAt(s, sep, j) <==> OccursAt(s[1..], sep, j - 1)
    {
      if j + |sep| <= |s| {
        assert s[1..][j - 1..j - 1 + |sep|] == s[j..j + |sep|];
      }
    }
  }

  /** JavaScript's `s.split(sep)` for a non-empty separator: the pieces between
      the left-to-right, non-overlapping occurrences of `sep` */
  function Split(s: string, sep: string): (parts: seq<string>)
    requires |sep| > 0
    ensures |parts| >= 1
    decreases |s|
  {
    match IndexOf(s, sep)
    case None => [s]
    case Some(i) => [s[..i]] + Split(s[i + |sep|..], sep)
  }

  /** No piece contains the separator */
  lemma {:induction false} SplitPiecesClean(s: string, sep: string)
    requires |sep| > 0
    ensures forall i :: 0 <= i < |Split(s, sep)| ==> !Contains(Split(s, sep)[i], sep)
    decreases |s|
  {
    IndexOfSpec(s, sep);
    match IndexOf(s, sep)
    case None =>
    case Some(i) =>
      PrefixBeforeFirst(s, sep, i);
      SplitPiecesClean(s[i + |sep|..], sep);
      var tail := Split(s[i + |sep|..], sep);
      assert Split(s, sep) == [s[..i]] + tail;
  }

  /** Joining the pieces back with the separator restores the string */
  lemma {:induction false} SplitJoin(s: string, sep: string)
    requires |sep| > 0
    ensures Join(Split(s, sep), sep) == s
    decreases |s|
  {
    IndexOfSpec(s, sep);
    match IndexOf(s, sep)
    case None =>
    case Some(i) =>
      var rest := s[i + |sep|..];
      var parts := Split(s, sep);
      var tail := Split(rest, sep);
      SplitJoin(rest, sep);
      assert parts == [s[..i]] + tail;
      assert parts[1..] == tail;
      assert Join(parts, sep) == s[..i] + sep + Join(tail, sep);
      assert s == s[..i] + sep + rest;
  }

  lemma PrefixBeforeFirst(s: string, sep: string, i: nat)
    requires |sep| > 0 && OccursAt(s, sep, i)
    requires forall j :: 0 <= j < i ==> !OccursAt(s, sep, j)
    ensures !Contains(s[..i], sep)
  {
    forall j | 0 <= j <= i
      ensures !OccursAt(s[..i], sep, j)
    {
      if j + |sep| <= i {
        assert s[..i][j..j + |sep|] == s[j..j + |sep|];
        assert !OccursAt(s, sep, j);
      }
    }
  }

  /** JavaScript's `parts.join(sep)` */
  function Join(parts: seq<string>, sep: string): string {
    if |parts| == 0 then ""
    else if |parts| == 1 then parts[0]
    else parts[0] + sep + Join(parts[1..], sep)
  }

  function Last<T>(xs: seq<T>): T
    requires |xs| > 0
  {
    xs[|xs| - 1]
  }

  function Init<T>(xs: seq<T>): seq<T>
    requires |xs| > 0
  {
    xs[..|xs| - 1]
  }

  /** IndexOf finds the least occurrence */
  lemma IndexOfIsFirst(z: string, sep: string, i: nat)
    requires |sep| > 0 && OccursAt(z, sep, i)
    requires forall j :: 0 <= j < i ==> !OccursAt(z, sep, j)
    ensures IndexOf(z, sep) == Some(i)
  {
    IndexOfSpec(z, sep);
    assert 0 <= i <= |z| && OccursAt(z, sep, i);
  }

  /** The first occurrence of `sep` in `x` is also the first in `x + y` */
  lemma IndexOfExtend(x: string, y: string, sep: string)
    requires |sep| > 0 && IndexOf(x, sep).Some?
    ensures IndexOf(x + y, sep) == IndexOf(x, sep)
  {
    IndexOfSpec(x, sep);
    var i := IndexOf(x, sep).value;
    var z := x + y;
    assert z[i..i + |sep|] == x[i..i + |sep|];
    assert OccursAt(z, sep, i);
    forall j | 0 <= j < i
      ensures !OccursAt(z, sep, j)
    {
      assert z[j..j + |sep|] == x[j..j + |sep|];
      assert !OccursAt(x, sep, j);
    }
    IndexOfIsFirst(z, sep, i);
  }

  /** Splitting `x + y` emits the complete pieces of `x`, then splits what is
      left of `x` together with `y`: the basis of incremental splitting. */
  lemma {:induction false} SplitAppend(x: string, y: string, sep: string)
    requires |sep| > 0
    ensures Split(x + y, sep) == Init(Split(x, sep)) + Split(Last(Split(x, sep)) + y, sep)
    decreases |x|
  {
    match IndexOf(x, sep)
    case None =>
    case Some(i) =>
      var rest := x[i + |sep|..];
      IndexOfExtend(x, y, sep);
      SplitAtFirst(x + y, sep, i);
      SplitAtFirst(x, sep, i);
      SliceAppend(x, y, i + |sep|);
      SplitAppend(rest, y, sep);
      ConsInitLast(x[..i], Split(rest, sep));
  }

  lemma SplitAtFirst(s: string, sep: string, i: nat)
    requires |sep| > 0 && IndexOf(s, sep) == Some(i)
    ensures Split(s, sep) == [s[..i]] + Split(s[i + |sep|..], sep)
  {
  }

  lemma SliceAppend(x: string, y: string, j: nat)
    requires j <= |x|
    ensures (x + y)[..j] == x[..j] && (x + y)[j..] == x[j..] + y
    ensures forall i :: 0 <= i <= j ==> (x + y)[..i] == x[..i]
  {
  }

  /** A non-empty sequence is its head followed by its tail */
  lemma HeadTail<T>(s: seq<T>)
    requires |s| > 0
    ensures s == [s[0]] + s[1..]
  {
  }

  /** Cutting a sequence and putting the pieces back together */
  lemma TakeDrop<T>(s: seq<T>, k: nat)
    requires k <= |s|
    ensures s == s[..k] + s[k..]
  {
  }

  /** The tail of a concatenation whose first part is not empty */
  lemma TailOfAppend<T>(a: seq<T>, b: seq<T>)
    requires |a| > 0
    ensures (a + b)[0] == a[0] && (a + b)[1..] == a[1..] + b
  {
  }

  lemma EmptyFirst<T>(a: seq<T>, b: seq<T>)
    requires |a| == 0
    ensures a + b == b
  {
  }

  lemma EmptyAround<T>(s: seq<T>)
    ensures [] + s + [] == s
  {
  }

  lemma ConsParts<T>(c: T, s: seq<T>)
    ensures ([c] + s)[0] == c && ([c] + s)[1..] == s
  {
  }

  lemma AppendAssoc<T>(a: seq<T>, b: seq<T>, c: seq<T>)
    ensures a + (b + c) == a + b + c
  {
  }

  lemma ConsInitLast<T>(h: T, xs: seq<T>)
    requires |xs| > 0
    ensures Init([h] + xs) == [h] + Init(xs) && Last([h] + xs) == Last(xs)
  {
  }

  /** Splitting on a one-character separator undoes joining pieces that do
      not hold that character */
  lemma {:induction false} SplitOfJoin(parts: seq<string>, c: char)
    requires |parts| > 0 && forall i :: 0 <= i < |parts| ==> c !in parts[i]
    ensures Split(Join(parts, [c]), [c]) == parts
    decreases |parts|
  {
    var sep := [c];
    var p := parts[0];
    if |parts| == 1 {
      NoCharNoOccurrence(p, c);
      IndexOfSpec(p, sep);
    } else {
      var rest := Join(parts[1..], sep);
      var s := p + sep + rest;
      assert s[|p|..|p| + 1] == sep;
      forall j | 0 <= j < |p|
        ensures !OccursAt(s, sep, j)
      {
        assert s[j..j + 1][0] == p[j];
      }
      IndexOfIsFirst(s, sep, |p|);
      assert s[..|p|] == p;
      assert s[|p| + 1..] == rest;
      SplitOfJoin(parts[1..], c);
      SplitAtFirst(s, sep, |p|);
    }
  }

  lemma NoCharNoOccurrence(s: string, c: char)
    requires c !in s
    ensures !Contains(s, [c])
  {
    forall j | 0 <= j <= |s|
      ensures !OccursAt(s, [c], j)
    {
      if j + 1 <= |s| {
        assert s[j..j + 1][0] == s[j];
      }
    }
  }

  /** Joining a concatenation puts one separator between the two joins */
  lemma {:induction false} JoinAppend(a: seq<string>, b: seq<string>, sep: string)
    requires |a| > 0 && |b| > 0
    ensures Join(a + b, sep) == Join(a, sep) + sep + Join(b, sep)
    decreases |a|
  {
    if |a| > 1 {
      assert (a + b)[1..] == a[1..] + b;
      JoinAppend(a[1..], b, sep);
    }
  }

  /** White space as JavaScript's `trim` and `parseInt` understand it:
      the WhiteSpace and LineTerminator characters of ECMAScript */
  predicate IsJsWhitespace(c: char) {
    || c == '\t' || c == '\n' || c == '\U{000B}' || c == '\U{000C}' || c == '\r' || c == ' '
    || c == '\U{00A0}' || c == '\U{1680}' || ('\U{2000}' <= c <= '\U{200A}')
    || c == '\U{2028}' || c == '\U{2029}' || c == '\U{202F}' || c == '\U{205F}'
    || c == '\U{3000}' || c == '\U{FEFF}'
  }

  /** `s.trim()` is the empty string, i.e. falsy */
  predicate IsBlank(s: string) {
    forall i :: 0 <= i < |s| ==> IsJsWhitespace(s[i])
  }

  predicate IsDigit(c: char) {
    '0' <= c <= '9'
  }

  predicate AllDigits(s: string) {
    forall i :: 0 <= i < |s| ==> IsDigit(s[i])
  }

  function DigitValue(c: char): nat
    requires IsDigit(c)
  {
    (c as int) - ('0' as int)
  }

  function DigitChar(d: nat): (c: char)
    requires d < 10
    ensures IsDigit(c) && DigitValue(c) == d
  {
    ('0' as int + d) as char
  }

  /** The value of a decimal digit string, read most significant digit first */
  function DigitsValue(ds: string): nat
    requires AllDigits(ds)
  {
    if |ds| == 0 then 0
    else DigitsValue(ds[..|ds| - 1]) * 10 + DigitValue(ds[|ds| - 1])
  }

  /** The canonical decimal spelling of `n`: no leading zeros, "0" for zero */
  function Decimal(n: nat): (ds: string)
    ensures |ds| >= 1 && AllDigits(ds)
    ensures DigitsValue(ds) == n
    ensures ds[0] == '0' ==> n == 0 && ds == "0"
  {
    if n < 10 then [DigitChar(n)]
    else
      var ds := Decimal(n / 10) + [DigitChar(n % 10)];
      assert ds[..|ds| - 1] == Decimal(n / 10);
      ds
  }

  /** A digit string is canonical when it has no superfluous leading zero */
  predicate IsCanonicalDecimal(ds: string) {
    |ds| >= 1 && AllDigits(ds) && (ds[0] == '0' ==> |ds| == 1)
  }

  /** A canonical digit string is the decimal spelling of its value */
  lemma {:induction false} CanonicalIsDecimal(ds: string)
    requires IsCanonicalDecimal(ds)
    ensures Decimal(DigitsValue(ds)) == ds
    decreases |ds|
  {
    if |ds| == 1 {
    } else {
      var hd := ds[..|ds| - 1];
      assert IsCanonicalDecimal(hd);
      CanonicalIsDecimal(hd);
      PositiveLeadingDigit(hd);
      var n := DigitsValue(ds);
      assert n / 10 == DigitsValue(hd) && n % 10 == DigitValue(ds[|ds| - 1]);
      assert ds == hd + [ds[|ds| - 1]];
    }
  }

  lemma {:induction false} PositiveLeadingDigit(ds: string)
    requires IsCanonicalDecimal(ds) && ds[0] != '0'
    ensures DigitsValue(ds) >= 1
    decreases |ds|
  {
    if |ds| > 1 {
      PositiveLeadingDigit(ds[..|ds| - 1]);
    }
  }

  /** The longest prefix of `s` made of decimal digits */
  function DigitPrefix(s: string): (ds: string)
    ensures AllDigits(ds)
  {
    if |s| > 0 && IsDigit(s[0]) then [s[0]] + DigitPrefix(s[1..]) else ""
  }

  /** DigitPrefix is a prefix, and no digit follows it */
  lemma {:induction false} DigitPrefixIsLongest(s: string)
    ensures StartsWith(s, DigitPrefix(s))
    ensures |DigitPrefix(s)| == |s| || !IsDigit(s[|DigitPrefix(s)|])
  {
    if |s| > 0 && IsDigit(s[0]) {
      DigitPrefixIsLongest(s[1..]);
      assert s == [s[0]] + s[1..];
    }
  }

  /** DigitPrefix stops exactly where the digits end */
  lemma {:induction false} DigitPrefixOf(ds: string, rest: string)
    requires AllDigits(ds)
    requires |rest| == 0 || !IsDigit(rest[0])
    ensures DigitPrefix(ds + rest) == ds
    decreases |ds|
  {
    if |ds| == 0 {
      assert ds + rest == rest;
    } else {
      assert (ds + rest)[1..] == ds[1..] + rest;
      DigitPrefixOf(ds[1..], rest);
    }
  }
}
