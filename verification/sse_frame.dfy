/** One event-stream frame turned into a message event: `parseSSEMessage` of
    packages/common/src/axios/sse.ts. The frame is split on "\n"; a line that
    starts with "data: ", "event: ", "id: " or "retry: " (the space is part of
    the prefix) sets that field to the rest of the line, a later line
    overwriting an earlier one; every other line is ignored. A frame without
    a data line yields no event. */
module SseFrame {
  import opened Wrappers
  import opened Text

  /** What `Number.parseInt(text, 10)` returns: an integer, or NaN */
  datatype Retry = Finite(n: int) | NaN

  /** An `SSEMessageEvent`; `kind` is the event's `type` */
  datatype MessageEvent = MessageEvent(kind: Option<string>, data: string, id: Option<string>, retry: Option<Retry>)

  /** The partially filled event object while the lines are scanned */
  datatype Fields = Fields(data: Option<string>, kind: Option<string>, id: Option<string>, retry: Option<Retry>)

  const DataPrefix: string := "data: "
  const EventPrefix: string := "event: "
  const IdPrefix: string := "id: "
  const RetryPrefix: string := "retry: "

  /** Drops the leading white space `parseInt` skips */
  function TrimStart(s: string): (t: string)
    ensures |t| == 0 || !IsJsWhitespace(t[0])
  {
    if |s| > 0 && IsJsWhitespace(s[0]) then TrimStart(s[1..]) else s
  }

  /** `Number.parseInt(s, 10)`: skip leading white space, read an optional
      sign, then the longest run of decimal digits; NaN when there is none.
      JavaScript's -0 is the integer 0 here. */
  function ParseInt(s: string): (r: Retry)
  {
    ReadSigned(TrimStart(s))
  }

  /** The sign-and-digits part of `parseInt` */
  function ReadSigned(t: string): Retry {
    var negative := |t| > 0 && t[0] == '-';
    var body := if |t| > 0 && (t[0] == '-' || t[0] == '+') then t[1..] else t;
    var ds := DigitPrefix(body);
    if |ds| == 0 then NaN
    else if negative then Finite(0 - DigitsValue(ds) as int)
    else Finite(DigitsValue(ds))
  }

  /** `parseInt` is NaN exactly when no digit follows the white space and sign */
  lemma ParseIntNaN(s: string)
    ensures var t := TrimStart(s);
            var body := if |t| > 0 && (t[0] == '-' || t[0] == '+') then t[1..] else t;
            ParseInt(s).NaN? <==> (|body| == 0 || !IsDigit(body[0]))
  {
  }

  /** Leading white space does not change what `parseInt` reads */
  lemma ParseIntSkipsWhitespace(ws: string, t: string)
    requires IsBlank(ws)
    requires |t| == 0 || !IsJsWhitespace(t[0])
    ensures ParseInt(ws + t) == ParseInt(t)
  {
    TrimStartBlank(ws, t);
    TrimStartBlank("", t);
    assert "" + t == t;
  }

  /** `parseInt` reads the value of a run of digits, whatever non-digit text follows it */
  lemma ParseIntDigits(ds: string, rest: string)
    requires |ds| >= 1 && AllDigits(ds)
    requires |rest| == 0 || !IsDigit(rest[0])
    ensures ParseInt(ds + rest) == Finite(DigitsValue(ds))
  {
    var t := ds + rest;
    assert t[0] == ds[0];
    NoLeadingSpace(t);
    ReadDigits(ds, rest);
  }

  lemma NoLeadingSpace(t: string)
    requires |t| > 0 && (IsDigit(t[0]) || t[0] == '-')
    ensures TrimStart(t) == t
  {
  }

  lemma ReadDigits(ds: string, rest: string)
    requires |ds| >= 1 && AllDigits(ds)
    requires |rest| == 0 || !IsDigit(rest[0])
    ensures ReadSigned(ds + rest) == Finite(DigitsValue(ds))
  {
    DigitPrefixOf(ds, rest);
    assert (ds + rest)[0] == ds[0];
  }

  /** ... and negates it after a minus sign */
  lemma ParseIntNegatedDigits(ds: string, rest: string)
    requires |ds| >= 1 && AllDigits(ds)
    requires |rest| == 0 || !IsDigit(rest[0])
    ensures ParseInt("-" + ds + rest) == Finite(-(DigitsValue(ds) as int))
  {
    var t := "-" + ds + rest;
    assert t[0] == '-';
    NoLeadingSpace(t);
    ReadNegated(ds, rest);
  }

  lemma ReadNegated(ds: string, rest: string)
    requires |ds| >= 1 && AllDigits(ds)
    requires |rest| == 0 || !IsDigit(rest[0])
    ensures ReadSigned("-" + ds + rest) == Finite(-(DigitsValue(ds) as int))
  {
    DigitsAfterSign(ds, rest);
    ReadMinus("-" + ds + rest, ds);
  }

  lemma DigitsAfterSign(ds: string, rest: string)
    requires AllDigits(ds)
    requires |rest| == 0 || !IsDigit(rest[0])
    ensures DigitPrefix(("-" + ds + rest)[1..]) == ds
  {
    assert ("-" + ds + rest)[1..] == ds + rest;
    DigitPrefixOf(ds, rest);
  }

  lemma ReadMinus(t: string, ds: string)
    requires |t| > 0 && t[0] == '-'
    requires DigitPrefix(t[1..]) == ds && |ds| > 0
    ensures ReadSigned(t) == Finite(-(DigitsValue(ds) as int))
  {
  }

  /** `parseInt` reads back the decimal spelling of any integer */
  lemma ParseIntDecimal(n: int, rest: string)
    requires |rest| == 0 || !IsDigit(rest[0])
    ensures n >= 0 ==> ParseInt(Decimal(n) + rest) == Finite(n)
    ensures n <= 0 ==> ParseInt("-" + Decimal(-n) + rest) == Finite(n)
  {
    if n >= 0 {
      ParseIntDigits(Decimal(n), rest);
    }
    if n <= 0 {
      ParseIntNegatedDigits(Decimal(-n), rest);
    }
  }

  lemma {:induction false} TrimStartBlank(ws: string, t: string)
    requires IsBlank(ws)
    requires |t| == 0 || !IsJsWhitespace(t[0])
    ensures TrimStart(ws + t) == t
    decreases |ws|
  {
    if |ws| == 0 {
      assert ws + t == t;
    } else {
      assert (ws + t)[1..] == ws[1..] + t;
      TrimStartBlank(ws[1..], t);
    }
  }

  /** One pass of the `for (const line of lines)` loop body */
  function ApplyLine(f: Fields, line: string): Fields {
    if StartsWith(line, DataPrefix) then f.(data := Some(line[|DataPrefix|..]))
    else if StartsWith(line, EventPrefix) then f.(kind := Some(line[|EventPrefix|..]))
    else if StartsWith(line, IdPrefix) then f.(id := Some(line[|IdPrefix|..]))
    else if StartsWith(line, RetryPrefix) then f.(retry := Some(ParseInt(line[|RetryPrefix|..])))
    else f
  }

  /** The whole loop over the lines, as a left fold */
  function ScanLines(lines: seq<string>): Fields {
    if |lines| == 0 then Fields(None, None, None, None)
    else ApplyLine(ScanLines(Init(lines)), Last(lines))
  }

  function Lines(frame: string): seq<string> {
    Split(frame, "\n")
  }

  /** No line of `lines` carries `prefix` */
  ghost predicate Absent(lines: seq<string>, prefix: string) {
    forall k :: 0 <= k < |lines| ==> !StartsWith(lines[k], prefix)
  }

  /** Line `k` is the last line of `lines` that carries `prefix` */
  ghost predicate IsLastWith(lines: seq<string>, prefix: string, k: int) {
    && 0 <= k < |lines|
    && StartsWith(lines[k], prefix)
    && forall j :: k < j < |lines| ==> !StartsWith(lines[j], prefix)
  }

  /** `v` is the text after `prefix` on the last line carrying it, or None when no line does */
  ghost predicate LastText(lines: seq<string>, prefix: string, v: Option<string>) {
    match v
    case None => Absent(lines, prefix)
    case Some(x) => exists k :: IsLastWith(lines, prefix, k) && x == lines[k][|prefix|..]
  }

  /** `v` is `parseInt` of the text on the last retry line, or None when there is none */
  ghost predicate LastRetry(lines: seq<string>, v: Option<Retry>) {
    match v
    case None => Absent(lines, RetryPrefix)
    case Some(x) => exists k :: IsLastWith(lines, RetryPrefix, k) && x == ParseInt(lines[k][|RetryPrefix|..])
  }

  /** The four prefixes start with different letters, so a line carries at most one */
  lemma PrefixesExclusive(line: string)
    ensures StartsWith(line, DataPrefix) ==> !StartsWith(line, EventPrefix) && !StartsWith(line, IdPrefix) && !StartsWith(line, RetryPrefix)
    ensures StartsWith(line, EventPrefix) ==> !StartsWith(line, IdPrefix) && !StartsWith(line, RetryPrefix)
    ensures StartsWith(line, IdPrefix) ==> !StartsWith(line, RetryPrefix)
  {
    if StartsWith(line, DataPrefix) { assert line[0] == 'd'; }
    if StartsWith(line, EventPrefix) { assert line[0] == 'e'; }
    if StartsWith(line, IdPrefix) { assert line[0] == 'i'; }
    if StartsWith(line, RetryPrefix) { assert line[0] == 'r'; }
  }

  /** A field seen on the last line wins; otherwise the earlier lines decide */
  lemma ExtendLast(lines: seq<string>, prefix: string, v: Option<string>, line: string)
    requires LastText(lines, prefix, v)
    ensures StartsWith(line, prefix) ==> LastText(lines + [line], prefix, Some(line[|prefix|..]))
    ensures !StartsWith(line, prefix) ==> LastText(lines + [line], prefix, v)
  {
    var all := lines + [line];
    if StartsWith(line, prefix) {
      assert IsLastWith(all, prefix, |lines|);
    } else {
      match v
      case None =>
      case Some(x) =>
        var k :| IsLastWith(lines, prefix, k) && x == lines[k][|prefix|..];
        assert IsLastWith(all, prefix, k);
    }
  }

  lemma ExtendLastRetry(lines: seq<string>, v: Option<Retry>, line: string)
    requires LastRetry(lines, v)
    ensures StartsWith(line, RetryPrefix) ==> LastRetry(lines + [line], Some(ParseInt(line[|RetryPrefix|..])))
    ensures !StartsWith(line, RetryPrefix) ==> LastRetry(lines + [line], v)
  {
    var all := lines + [line];
    if StartsWith(line, RetryPrefix) {
      assert IsLastWith(all, RetryPrefix, |lines|);
    } else {
      match v
      case None =>
      case Some(x) =>
        var k :| IsLastWith(lines, RetryPrefix, k) && x == ParseInt(lines[k][|RetryPrefix|..]);
        assert IsLastWith(all, RetryPrefix, k);
    }
  }

  /** Scanning the lines in order leaves in each field the value of the last
      line carrying that field's prefix: the last occurrence wins */
  lemma {:induction false} ScanLinesLastWins(lines: seq<string>)
    ensures var f := ScanLines(lines);
            && LastText(lines, DataPrefix, f.data)
            && LastText(lines, EventPrefix, f.kind)
            && LastText(lines, IdPrefix, f.id)
            && LastRetry(lines, f.retry)
  {
    if |lines| > 0 {
      var front := Init(lines);
      var line := Last(lines);
      assert lines == front + [line];
      ScanLinesLastWins(front);
      var f := ScanLines(front);
      PrefixesExclusive(line);
      ExtendLast(front, DataPrefix, f.data, line);
      ExtendLast(front, EventPrefix, f.kind, line);
      ExtendLast(front, IdPrefix, f.id, line);
      ExtendLastRetry(front, f.retry, line);
    }
  }

  /** `parseSSEMessage`: scan the lines of the frame, and return the event
      when a data line was seen */
  function ParseSSEMessage(frame: string): Option<MessageEvent> {
    var f := ScanLines(Lines(frame));
    match f.data
    case None => None
    case Some(d) => Some(MessageEvent(f.kind, d, f.id, f.retry))
  }

  /** A frame yields an event exactly when some line starts with "data: ";
      each field is the text after its prefix on the last line carrying it,
      and a field whose prefix occurs on no line stays unset */
  lemma ParseSSEMessageSpec(frame: string)
    ensures var r := ParseSSEMessage(frame);
            && (r.Some? <==> !Absent(Lines(frame), DataPrefix))
            && (r.Some? ==> LastText(Lines(frame), DataPrefix, Some(r.value.data)))
            && (r.Some? ==> LastText(Lines(frame), EventPrefix, r.value.kind))
            && (r.Some? ==> LastText(Lines(frame), IdPrefix, r.value.id))
            && (r.Some? ==> LastRetry(Lines(frame), r.value.retry))
  {
    ScanLinesLastWins(Lines(frame));
  }

  /** Every piece of a white-space-only string is white-space-only */
  lemma {:induction false} BlankPieces(parts: seq<string>, sep: string)
    requires IsBlank(Join(parts, sep))
    ensures forall i :: 0 <= i < |parts| ==> IsBlank(parts[i])
    decreases |parts|
  {
    if |parts| >= 2 {
      var rest := Join(parts[1..], sep);
      assert Join(parts, sep) == parts[0] + sep + rest;
      assert forall i :: 0 <= i < |parts[0]| ==> (parts[0] + sep + rest)[i] == parts[0][i];
      assert forall i :: 0 <= i < |rest| ==> (parts[0] + sep + rest)[|parts[0]| + |sep| + i] == rest[i];
      BlankPieces(parts[1..], sep);
      assert forall i :: 1 <= i < |parts| ==> parts[i] == parts[1..][i - 1];
    }
  }

  /** A white-space-only frame never yields an event, so the stream reader's
      `message.trim()` test changes nothing about what is forwarded */
  lemma BlankFrameHasNoEvent(frame: string)
    requires IsBlank(frame)
    ensures ParseSSEMessage(frame).None?
  {
    var lines := Lines(frame);
    ParseSSEMessageSpec(frame);
    SplitJoin(frame, "\n");
    BlankPieces(lines, "\n");
    forall k | 0 <= k < |lines|
      ensures !StartsWith(lines[k], DataPrefix)
    {
      if |lines[k]| > 0 {
        assert IsJsWhitespace(lines[k][0]);
        assert lines[k][0] != DataPrefix[0];
      }
    }
  }
}
