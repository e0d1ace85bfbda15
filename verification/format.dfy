/** The two copies of `formatString`: packages/common/src/index.ts and the
    older common/utils/index.js. Both run `template.replace(/{(\d+)}/g, …)`:
    one left-to-right pass that replaces every `{digits}` whose argument is
    defined by that argument's text and keeps the others verbatim. They
    differ in how the digits address the argument list. An argument is
    `None` for `undefined` and `Some(String(arg))` otherwise. */
module Format {
  import opened Wrappers
  import opened Text

  /** The template as the regular expression sees it: single characters
      outside any match, and matches with their digit group */
  datatype Piece = Lit(c: char) | Hole(digits: string)

  /** The digits of the match of `/{(\d+)}/` that starts at the beginning of
      `s`, if there is one (`\d` is the ASCII digits) */
  function PlaceholderAt(s: string): (r: Option<string>)
    ensures r.Some? ==> |r.value| >= 1 && AllDigits(r.value) && StartsWith(s, "{" + r.value + "}")
  {
    if |s| > 0 && s[0] == '{' then
      var ds := DigitPrefix(s[1..]);
      DigitPrefixIsLongest(s[1..]);
      if |ds| > 0 && |ds| + 1 < |s| && s[|ds| + 1] == '}' then
        assert s[..|ds| + 2] == "{" + ds + "}" by {
          assert s[1..][..|ds|] == ds;
        }
        Some(ds)
      else None
    else None
  }

  /** The regular expression scanning the template from left to right: a
      match is taken where one starts, otherwise one character is skipped */
  function Scan(s: string): seq<Piece>
    decreases |s|
  {
    if |s| == 0 then []
    else
      match PlaceholderAt(s)
      case Some(ds) => [Hole(ds)] + Scan(s[|ds| + 2..])
      case None => [Lit(s[0])] + Scan(s[1..])
  }

  /** The text a piece stands for */
  function Render(ps: seq<Piece>): string {
    if |ps| == 0 then []
    else
      match ps[0]
      case Lit(c) => [c] + Render(ps[1..])
      case Hole(ds) => "{" + ds + "}" + Render(ps[1..])
  }

  /** Scanning loses nothing: the pieces spell the template */
  lemma {:induction false} ScanRender(s: string)
    ensures Render(Scan(s)) == s
    decreases |s|
  {
    if |s| > 0 {
      match PlaceholderAt(s)
      case Some(ds) =>
        var rest := s[|ds| + 2..];
        ScanRender(rest);
        ScanAtHole(s, ds);
        RenderCons(Hole(ds), Scan(rest));
      case None =>
        ScanRender(s[1..]);
        ScanAtLit(s);
        RenderCons(Lit(s[0]), Scan(s[1..]));
    }
  }

  lemma ScanAtHole(s: string, ds: string)
    requires PlaceholderAt(s) == Some(ds)
    ensures Scan(s) == [Hole(ds)] + Scan(s[|ds| + 2..])
    ensures s == "{" + ds + "}" + s[|ds| + 2..]
  {
    TakeDrop(s, |ds| + 2);
  }

  lemma ScanAtLit(s: string)
    requires |s| > 0 && PlaceholderAt(s).None?
    ensures Scan(s) == [Lit(s[0])] + Scan(s[1..])
    ensures s == [s[0]] + s[1..]
  {
    HeadTail(s);
  }

  function PieceText(p: Piece): string {
    match p
    case Lit(c) => [c]
    case Hole(ds) => "{" + ds + "}"
  }

  lemma RenderCons(p: Piece, ps: seq<Piece>)
    ensures Render([p] + ps) == PieceText(p) + Render(ps)
  {
    assert ([p] + ps)[1..] == ps;
  }

  /** The replacement pass: each match is replaced by what `lookup` finds for
      its digits, or kept verbatim when it finds nothing; the replacement
      text is never scanned again */
  function Substitute(ps: seq<Piece>, lookup: string -> Option<string>): string {
    if |ps| == 0 then []
    else
      match ps[0]
      case Lit(c) => [c] + Substitute(ps[1..], lookup)
      case Hole(ds) =>
        (match lookup(ds) case Some(v) => v case None => "{" + ds + "}") + Substitute(ps[1..], lookup)
  }

  /** packages/common/src/index.ts: `args[Number(index)]`, so the digits are
      read as a number and leading zeros do not matter */
  function TsLookup(args: seq<Option<string>>, ds: string): Option<string>
    requires AllDigits(ds)
  {
    var n := DigitsValue(ds);
    if n < |args| then args[n] else None
  }

  /** common/utils/index.js: `args[index]` with the digit string itself as
      the property name, which names an element only when it is the
      element's canonical decimal index */
  function JsLookup(args: seq<Option<string>>, ds: string): Option<string>
    requires AllDigits(ds)
  {
    if IsCanonicalDecimal(ds) then TsLookup(args, ds) else None
  }

  /** Every hole of a scanned template holds digits */
  lemma {:induction false} ScanHolesAreDigits(s: string)
    ensures forall i :: 0 <= i < |Scan(s)| && Scan(s)[i].Hole? ==> |Scan(s)[i].digits| >= 1 && AllDigits(Scan(s)[i].digits)
    decreases |s|
  {
    if |s| > 0 {
      match PlaceholderAt(s)
      case Some(ds) =>
        ScanHolesAreDigits(s[|ds| + 2..]);
      case None =>
        ScanHolesAreDigits(s[1..]);
    }
  }

  /** The replacer callback of each copy: a match's digit group to its
      argument's text, if it has one */
  function TsResolver(args: seq<Option<string>>): string -> Option<string> {
    ds => if AllDigits(ds) then TsLookup(args, ds) else None
  }

  function JsResolver(args: seq<Option<string>>): string -> Option<string> {
    ds => if AllDigits(ds) then JsLookup(args, ds) else None
  }

  function TsFormatString(template: string, args: seq<Option<string>>): string {
    Substitute(Scan(template), TsResolver(args))
  }

  function JsFormatString(template: string, args: seq<Option<string>>): string {
    Substitute(Scan(template), JsResolver(args))
  }

  /** When the lookup finds nothing for any hole, substitution gives back
      exactly the text of the pieces */
  lemma {:induction false} SubstituteNothing(ps: seq<Piece>, lookup: string -> Option<string>)
    requires forall i :: 0 <= i < |ps| && ps[i].Hole? ==> lookup(ps[i].digits).None?
    ensures Substitute(ps, lookup) == Render(ps)
  {
    if |ps| > 0 {
      SubstituteNothing(ps[1..], lookup);
    }
  }

  /** A template without placeholders, or with no defined argument for any
      of them, comes back unchanged (both copies) */
  lemma UnmatchedTemplateUnchanged(template: string, args: seq<Option<string>>)
    requires forall i :: 0 <= i < |args| ==> args[i].None?
    ensures TsFormatString(template, args) == template
    ensures JsFormatString(template, args) == template
  {
    ScanRender(template);
    SubstituteNothing(Scan(template), TsResolver(args));
    SubstituteNothing(Scan(template), JsResolver(args));
  }

  /** `{`, one or more digits and `}` stand at `t[i..j + 1]` */
  predicate PlaceholderSpan(t: string, i: nat, j: nat) {
    i + 1 < j < |t| && t[i] == '{' && t[j] == '}' && AllDigits(t[i + 1..j])
  }

  predicate HasPlaceholder(t: string) {
    exists i, j :: 0 <= i < j < |t| && PlaceholderSpan(t, i, j)
  }

  /** A template in which no placeholder occurs scans to single characters */
  lemma {:induction false} ScanWithoutPlaceholder(s: string)
    ensures HasPlaceholder(s) || forall i :: 0 <= i < |Scan(s)| ==> Scan(s)[i].Lit?
    decreases |s|
  {
    if |s| > 0 {
      match PlaceholderAt(s)
      case Some(ds) =>
        var w := "{" + ds + "}";
        assert s[..|ds| + 2] == w;
        assert s[1..|ds| + 1] == s[..|ds| + 2][1..|ds| + 1];
        assert w[1..|ds| + 1] == ds;
        assert PlaceholderSpan(s, 0, |ds| + 1);
      case None =>
        ScanWithoutPlaceholder(s[1..]);
        ScanAtLit(s);
        if HasPlaceholder(s[1..]) {
          var i, j :| 0 <= i < j < |s[1..]| && PlaceholderSpan(s[1..], i, j);
          assert s[i + 2..j + 1] == s[1..][i + 1..j];
          assert PlaceholderSpan(s, i + 1, j + 1);
        }
    }
  }

  /** A template in which no `{digits}` occurs comes back unchanged (both
      copies) */
  lemma NoPlaceholderUnchanged(template: string, args: seq<Option<string>>)
    requires !HasPlaceholder(template)
    ensures TsFormatString(template, args) == template
    ensures JsFormatString(template, args) == template
  {
    ScanWithoutPlaceholder(template);
    ScanRender(template);
    SubstituteNothing(Scan(template), TsResolver(args));
    SubstituteNothing(Scan(template), JsResolver(args));
  }

  /** The pieces of text containing no `{` are single characters */
  function Lits(text: string): seq<Piece> {
    if |text| == 0 then [] else [Lit(text[0])] + Lits(text[1..])
  }

  predicate NoBrace(text: string) {
    forall i :: 0 <= i < |text| ==> text[i] != '{'
  }

  lemma {:induction false} ScanLiteralPrefix(text: string, s: string)
    requires NoBrace(text)
    ensures Scan(text + s) == Lits(text) + Scan(s)
    decreases |text|
  {
    if |text| == 0 {
      assert text + s == s;
    } else {
      assert (text + s)[0] == text[0];
      assert (text + s)[1..] == text[1..] + s;
      ScanLiteralPrefix(text[1..], s);
    }
  }

  /** A placeholder at the front is one hole */
  lemma ScanPlaceholder(ds: string, rest: string)
    requires |ds| >= 1 && AllDigits(ds)
    ensures Scan("{" + ds + "}" + rest) == [Hole(ds)] + Scan(rest)
  {
    var s := "{" + ds + "}" + rest;
    assert s[1..] == ds + ("}" + rest);
    DigitPrefixOf(ds, "}" + rest);
    assert s[|ds| + 2..] == rest;
  }

  lemma {:induction false} SubstituteLits(text: string, lookup: string -> Option<string>)
    ensures Substitute(Lits(text), lookup) == text
  {
    if |text| > 0 {
      SubstituteLits(text[1..], lookup);
      assert text == [text[0]] + text[1..];
    }
  }

  lemma {:induction false} SubstituteAppend(a: seq<Piece>, b: seq<Piece>, lookup: string -> Option<string>)
    ensures Substitute(a + b, lookup) == Substitute(a, lookup) + Substitute(b, lookup)
  {
    if |a| == 0 {
      assert a + b == b;
    } else {
      assert (a + b)[0] == a[0];
      assert (a + b)[1..] == a[1..] + b;
      SubstituteAppend(a[1..], b, lookup);
    }
  }

  /** `text{ds}rest` with no `{` in `text`: the text, then the placeholder's
      replacement (or the placeholder itself), then the rest formatted on its
      own. Whatever the argument's text is, it is not scanned again. */
  lemma FormatAroundPlaceholder(text: string, ds: string, rest: string, lookup: string -> Option<string>)
    requires NoBrace(text) && |ds| >= 1 && AllDigits(ds)
    ensures Substitute(Scan(text + "{" + ds + "}" + rest), lookup)
            == text + (match lookup(ds) case Some(v) => v case None => "{" + ds + "}") + Substitute(Scan(rest), lookup)
  {
    AppendAssoc(text, "{" + ds + "}", rest);
    AppendAssoc(text, "{" + ds, "}");
    AppendAssoc(text, "{", ds);
    ScanLiteralPrefix(text, "{" + ds + "}" + rest);
    ScanPlaceholder(ds, rest);
    SubstituteAppend(Lits(text), [Hole(ds)] + Scan(rest), lookup);
    SubstituteLits(text, lookup);
  }

  /** Leading zeros do not change a digit string's value */
  lemma {:induction false} LeadingZeros(zeros: string, ds: string)
    requires forall i :: 0 <= i < |zeros| ==> zeros[i] == '0'
    requires AllDigits(ds)
    ensures AllDigits(zeros + ds) && DigitsValue(zeros + ds) == DigitsValue(ds)
    decreases |ds|
  {
    if |ds| == 0 {
      assert zeros + ds == zeros;
      ZerosValue(zeros);
    } else {
      var init := ds[..|ds| - 1];
      assert (zeros + ds)[..|zeros + ds| - 1] == zeros + init;
      LeadingZeros(zeros, init);
    }
  }

  lemma {:induction false} ZerosValue(zeros: string)
    requires forall i :: 0 <= i < |zeros| ==> zeros[i] == '0'
    ensures AllDigits(zeros) && DigitsValue(zeros) == 0
    decreases |zeros|
  {
    if |zeros| > 0 {
      ZerosValue(zeros[..|zeros| - 1]);
    }
  }

  /** A template that is one placeholder formats to that placeholder's
      replacement, or to itself when the lookup finds nothing */
  lemma LonePlaceholder(template: string, ds: string, lookup: string -> Option<string>)
    requires |ds| >= 1 && AllDigits(ds) && template == "{" + ds + "}"
    ensures Substitute(Scan(template), lookup) == (match lookup(ds) case Some(v) => v case None => template)
  {
    var r := match lookup(ds) case Some(v) => v case None => template;
    FormatAroundPlaceholder("", ds, "", lookup);
    NothingAround(ds);
    EmptyAround(r);
    assert Substitute(Scan(""), lookup) == "";
  }

  lemma NothingAround(ds: string)
    ensures "" + "{" + ds + "}" + "" == "{" + ds + "}"
  {
  }

  /** In the TypeScript copy `{007}` addresses argument 7, like `{7}` */
  lemma TsIgnoresLeadingZeros(zeros: string, n: nat, args: seq<Option<string>>)
    requires forall i :: 0 <= i < |zeros| ==> zeros[i] == '0'
    ensures var ds := zeros + Decimal(n);
            TsFormatString("{" + ds + "}", args) == (if n < |args| && args[n].Some? then args[n].value else "{" + ds + "}")
  {
    var ds := zeros + Decimal(n);
    LeadingZeros(zeros, Decimal(n));
    LonePlaceholder("{" + ds + "}", ds, TsResolver(args));
  }

  /** In the JavaScript copy a placeholder with a superfluous leading zero,
      such as `{007}` or `{00}`, is always kept verbatim */
  lemma JsKeepsNonCanonical(ds: string, args: seq<Option<string>>)
    requires |ds| >= 1 && AllDigits(ds) && !IsCanonicalDecimal(ds)
    ensures JsFormatString("{" + ds + "}", args) == "{" + ds + "}"
  {
    LonePlaceholder("{" + ds + "}", ds, JsResolver(args));
  }

  /** Both copies substitute a placeholder written canonically, `{n}`, by
      argument n when it is defined, and keep it verbatim otherwise */
  lemma CanonicalPlaceholder(n: nat, args: seq<Option<string>>)
    ensures var expected := if n < |args| && args[n].Some? then args[n].value else "{" + Decimal(n) + "}";
            && TsFormatString("{" + Decimal(n) + "}", args) == expected
            && JsFormatString("{" + Decimal(n) + "}", args) == expected
  {
    var ds := Decimal(n);
    CanonicalOfDecimal(n);
    LonePlaceholder("{" + ds + "}", ds, TsResolver(args));
    LonePlaceholder("{" + ds + "}", ds, JsResolver(args));
  }

  lemma CanonicalOfDecimal(n: nat)
    ensures IsCanonicalDecimal(Decimal(n))
  {
  }

  /** The copies agree on every template whose placeholders are all written
      canonically */
  lemma {:induction false} CopiesAgreeOnCanonical(ps: seq<Piece>, args: seq<Option<string>>)
    requires forall i :: 0 <= i < |ps| && ps[i].Hole? ==> IsCanonicalDecimal(ps[i].digits)
    ensures Substitute(ps, TsResolver(args))
         == Substitute(ps, JsResolver(args))
  {
    if |ps| > 0 {
      CopiesAgreeOnCanonical(ps[1..], args);
    }
  }

  /** ... and differ on `{01}` when argument 1 is defined */
  lemma CopiesDiffer(v: string)
    ensures TsFormatString("{01}", [None, Some(v)]) == v
    ensures JsFormatString("{01}", [None, Some(v)]) == "{01}"
  {
    var args := [None, Some(v)];
    ZeroOneShape();
    LonePlaceholder("{01}", "01", TsResolver(args));
    LonePlaceholder("{01}", "01", JsResolver(args));
  }

  lemma ZeroOneShape()
    ensures "{01}" == "{" + "01" + "}" && AllDigits("01") && !IsCanonicalDecimal("01")
    ensures DigitsValue("01") == 1
  {
    assert "01"[..1] == "0";
  }
}
