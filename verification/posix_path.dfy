/** The POSIX behaviour of Node's `path.normalize`, `path.join` and
    `path.relative`, which build.preset.ts uses to turn import specifiers into
    relative paths. A path is a string; its segments are the pieces between
    `/` separators. Node's path module is not part of this model: its
    behaviour is stated here as the module documents it. */
module PosixPath {
  import opened Text

  const Separator: string := "/"

  /** A segment of a normalised path other than `..`: not empty, free of the
      separator, and neither `.` nor `..` */
  predicate Plain(s: string) {
    |s| > 0 && '/' !in s && s != "." && s != ".."
  }

  predicate AllPlain(segs: seq<string>) {
    forall i :: 0 <= i < |segs| ==> Plain(segs[i])
  }

  /** `n` segments `..` */
  function Ups(n: nat): (r: seq<string>)
    ensures |r| == n && forall i :: 0 <= i < n ==> r[i] == ".."
  {
    if n == 0 then [] else [".."] + Ups(n - 1)
  }

  /** One step of `normalizeString`: an empty or `.` segment is dropped; `..`
      removes the last kept segment unless that is itself `..`, and with
      nothing to remove it is kept for a relative path and dropped for an
      absolute one; any other segment is kept */
  function Step(kept: seq<string>, s: string, allowAboveRoot: bool): seq<string> {
    if s == "" || s == "." then kept
    else if s == ".." then
      if |kept| > 0 && Last(kept) != ".." then Init(kept)
      else if allowAboveRoot then kept + [".."]
      else kept
    else kept + [s]
  }

  /** `normalizeString`'s left-to-right pass over `segs`, starting from `kept` */
  function NormalizeFrom(kept: seq<string>, segs: seq<string>, allowAboveRoot: bool): seq<string>
    decreases |segs|
  {
    if |segs| == 0 then kept
    else NormalizeFrom(Step(kept, segs[0], allowAboveRoot), segs[1..], allowAboveRoot)
  }

  function NormalizeSegments(segs: seq<string>, allowAboveRoot: bool): seq<string> {
    NormalizeFrom([], segs, allowAboveRoot)
  }

  /** The normal form: plain segments after a run of `..`, and no `..` at all
      in an absolute path */
  predicate Normal(segs: seq<string>, allowAboveRoot: bool) {
    forall i :: 0 <= i < |segs| ==>
      Plain(segs[i]) || (allowAboveRoot && segs[i] == ".." && forall j :: 0 <= j < i ==> segs[j] == "..")
  }

  /** Normalisation yields the normal form */
  lemma {:induction false} NormalizeIsNormal(kept: seq<string>, segs: seq<string>, allowAboveRoot: bool)
    requires Normal(kept, allowAboveRoot)
    requires forall i :: 0 <= i < |segs| ==> '/' !in segs[i]
    ensures Normal(NormalizeFrom(kept, segs, allowAboveRoot), allowAboveRoot)
    decreases |segs|
  {
    if |segs| > 0 {
      StepKeepsNormal(kept, segs[0], allowAboveRoot);
      NormalizeIsNormal(Step(kept, segs[0], allowAboveRoot), segs[1..], allowAboveRoot);
    }
  }

  lemma StepKeepsNormal(kept: seq<string>, s: string, allowAboveRoot: bool)
    requires Normal(kept, allowAboveRoot) && '/' !in s
    ensures Normal(Step(kept, s, allowAboveRoot), allowAboveRoot)
  {
    if s == ".." && !(|kept| > 0 && Last(kept) != "..") && allowAboveRoot {
      assert forall j :: 0 <= j < |kept| ==> kept[j] == ".." by {
        if |kept| > 0 {
          assert !Plain(kept[|kept| - 1]);
        }
      }
    }
  }

  /** A path already in normal form is left as it is */
  lemma {:induction false} NormalIsFixed(kept: seq<string>, segs: seq<string>, allowAboveRoot: bool)
    requires Normal(kept + segs, allowAboveRoot)
    ensures NormalizeFrom(kept, segs, allowAboveRoot) == kept + segs
    decreases |segs|
  {
    if |segs| > 0 {
      var s := segs[0];
      assert (kept + segs)[|kept|] == s;
      if s == ".." {
        assert forall j :: 0 <= j < |kept| ==> kept[j] == ".." by {
          forall j | 0 <= j < |kept|
            ensures kept[j] == ".."
          {
            assert (kept + segs)[j] == kept[j];
          }
        }
      }
      assert Step(kept, s, allowAboveRoot) == kept + [s];
      assert kept + [s] + segs[1..] == kept + segs;
      NormalIsFixed(kept + [s], segs[1..], allowAboveRoot);
    }
  }

  /** Normalising twice is normalising once */
  lemma NormalizeIdempotent(segs: seq<string>, allowAboveRoot: bool)
    requires forall i :: 0 <= i < |segs| ==> '/' !in segs[i]
    ensures NormalizeSegments(NormalizeSegments(segs, allowAboveRoot), allowAboveRoot)
            == NormalizeSegments(segs, allowAboveRoot)
  {
    NormalizeIsNormal([], segs, allowAboveRoot);
    var n := NormalizeSegments(segs, allowAboveRoot);
    assert [] + n == n;
    NormalIsFixed([], n, allowAboveRoot);
  }

  /** The pass over a concatenation is the pass over its second part,
      continued from the pass over its first */
  lemma {:induction false} NormalizeFromAppend(kept: seq<string>, a: seq<string>, b: seq<string>, allowAboveRoot: bool)
    ensures NormalizeFrom(kept, a + b, allowAboveRoot)
            == NormalizeFrom(NormalizeFrom(kept, a, allowAboveRoot), b, allowAboveRoot)
    decreases |a|
  {
    if |a| == 0 {
      assert a + b == b;
    } else {
      assert (a + b)[0] == a[0] && (a + b)[1..] == a[1..] + b;
      NormalizeFromAppend(Step(kept, a[0], allowAboveRoot), a[1..], b, allowAboveRoot);
    }
  }

  /** Each `..` of `Ups(|ys|)` removes one of the plain segments `ys` */
  lemma {:induction false} UpsCancelPlain(kept: seq<string>, ys: seq<string>, allowAboveRoot: bool)
    requires AllPlain(ys)
    ensures NormalizeFrom(kept + ys, Ups(|ys|), allowAboveRoot) == kept
    decreases |ys|
  {
    if |ys| > 0 {
      assert Last(kept + ys) == Last(ys) && Init(kept + ys) == kept + Init(ys);
      assert Step(kept + ys, "..", allowAboveRoot) == kept + Init(ys);
      UpsCancelPlain(kept, Init(ys), allowAboveRoot);
    }
  }

  // ----- Strings -----

  /** `path.normalize`: an empty path is `.`; a leading `/` (absolute) and a
      trailing `/` survive normalisation of the segments between them */
  function Normalize(p: string): (r: string)
    ensures |r| > 0
  {
    if |p| == 0 then "."
    else
      var absolute := p[0] == '/';
      var trailing := p[|p| - 1] == '/';
      var body := Join(NormalizeSegments(Split(p, Separator), !absolute), Separator);
      if |body| == 0 then (if absolute then "/" else if trailing then "./" else ".")
      else (if absolute then "/" else "") + body + (if trailing then "/" else "")
  }

  /** The non-empty arguments, in order */
  function NonEmpty(args: seq<string>): (r: seq<string>)
    ensures forall i :: 0 <= i < |r| ==> |r[i]| > 0
    ensures forall i :: 0 <= i < |args| && |args[i]| > 0 ==> args[i] in r
  {
    if |args| == 0 then []
    else (if |args[0]| > 0 then [args[0]] else []) + NonEmpty(args[1..])
  }

  /** `path.join`: the non-empty arguments joined with `/` and normalised;
      `.` when there are none */
  function JoinPaths(args: seq<string>): (r: string)
    ensures |r| > 0
  {
    var parts := NonEmpty(args);
    if |parts| == 0 then "." else Normalize(Join(parts, Separator))
  }

  /** A relative path with segments in normal form, joined, normalises to itself */
  lemma NormalizeJoined(segs: seq<string>)
    requires |segs| > 0 && Normal(segs, true)
    ensures Normalize(Join(segs, Separator)) == Join(segs, Separator)
  {
    NormalHasNoSeparator(segs);
    SplitOfJoin(segs, '/');
    JoinFirst(segs, Separator);
    JoinLast(segs, Separator);
    EmptyFirst([], segs);
    NormalIsFixed([], segs, true);
    NormalizeRelative(Join(segs, Separator), segs);
  }

  lemma NormalHasNoSeparator(segs: seq<string>)
    requires Normal(segs, true)
    ensures forall i :: 0 <= i < |segs| ==> '/' !in segs[i] && |segs[i]| > 0
  {
  }

  /** A relative path without a trailing `/` whose segments normalise to
      `body` normalises to `body` joined */
  lemma NormalizeRelative(p: string, body: seq<string>)
    requires |p| > 0 && p[0] != '/' && p[|p| - 1] != '/'
    requires NormalizeSegments(Split(p, Separator), true) == body
    requires |Join(body, Separator)| > 0
    ensures Normalize(p) == Join(body, Separator)
  {
    EmptyFirst("", Join(body, Separator));
    EmptyAround(Join(body, Separator));
  }

  /** A join starts with its first part's first character */
  lemma JoinFirst(parts: seq<string>, sep: string)
    requires |parts| > 0 && |parts[0]| > 0
    ensures var j := Join(parts, sep); |j| > 0 && j[0] == parts[0][0]
  {
  }

  /** A join ends with its last part's last character */
  lemma {:induction false} JoinLast(parts: seq<string>, sep: string)
    requires |parts| > 0 && |Last(parts)| > 0
    ensures var j := Join(parts, sep); |j| > 0 && j[|j| - 1] == Last(parts)[|Last(parts)| - 1]
    decreases |parts|
  {
    if |parts| > 1 {
      JoinLast(parts[1..], sep);
    }
  }

  // ----- Relative paths -----

  /** The number of leading segments `a` and `b` share */
  function CommonPrefix(a: seq<string>, b: seq<string>): (k: nat)
    ensures k <= |a| && k <= |b| && a[..k] == b[..k]
    ensures k < |a| && k < |b| ==> a[k] != b[k]
  {
    if |a| > 0 && |b| > 0 && a[0] == b[0] then 1 + CommonPrefix(a[1..], b[1..]) else 0
  }

  /** `path.relative(from, to)` on the segments of two resolved paths: one
      `..` per segment of `from` past the shared prefix, then the rest of `to` */
  function RelativeSegments(from: seq<string>, to: seq<string>): seq<string> {
    var k := CommonPrefix(from, to);
    Ups(|from| - k) + to[k..]
  }

  function Relative(from: seq<string>, to: seq<string>): string {
    Join(RelativeSegments(from, to), Separator)
  }

  /** Both paths are resolved against the same working directory, which
      cancels out */
  lemma RelativeIgnoresCwd(cwd: seq<string>, from: seq<string>, to: seq<string>)
    ensures RelativeSegments(cwd + from, cwd + to) == RelativeSegments(from, to)
    decreases |cwd|
  {
    CommonPrefixCwd(cwd, from, to);
    var k := CommonPrefix(from, to);
    assert (cwd + to)[|cwd| + k..] == to[k..];
  }

  lemma {:induction false} CommonPrefixCwd(cwd: seq<string>, from: seq<string>, to: seq<string>)
    ensures CommonPrefix(cwd + from, cwd + to) == |cwd| + CommonPrefix(from, to)
    decreases |cwd|
  {
    if |cwd| == 0 {
      assert cwd + from == from && cwd + to == to;
    } else {
      assert (cwd + from)[1..] == cwd[1..] + from;
      assert (cwd + to)[1..] == cwd[1..] + to;
      CommonPrefixCwd(cwd[1..], from, to);
    }
  }

  /** Walking the relative path from `from` arrives at `to` */
  lemma RelativeRoundTrip(from: seq<string>, to: seq<string>)
    requires AllPlain(from) && AllPlain(to)
    ensures NormalizeFrom(from, RelativeSegments(from, to), true) == to
  {
    var k := CommonPrefix(from, to);
    var up := Ups(|from| - k);
    TakeDrop(from, k);
    TakeDrop(to, k);
    assert AllPlain(from[k..]);
    NormalizeFromAppend(from, up, to[k..], true);
    UpsCancelPlain(from[..k], from[k..], true);
    PlainIsNormal(to);
    NormalIsFixed(to[..k], to[k..], true);
  }

  lemma PlainIsNormal(segs: seq<string>)
    requires AllPlain(segs)
    ensures Normal(segs, true)
  {
  }

  /** From a directory up to the working directory is one `..` per segment */
  lemma RelativeToAncestor(dir: seq<string>)
    ensures RelativeSegments(dir, []) == Ups(|dir|)
  {
    assert Ups(|dir|) + [] == Ups(|dir|);
  }
}
