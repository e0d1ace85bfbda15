/** The `renderChunk` hook of `relativePathsPlugin` in build.preset.ts, which
    rewrites import specifiers in a generated chunk into relative paths, and
    `getPackageBaseOutDir`. Rule 1 turns a quoted `@lowcode-yunti/<pkg>` into
    the path of that package's `index` next to the chunk's package; rule 2
    then turns a quoted `@/<path>` into the path from the chunk's directory to
    `<path>` under the package root. A chunk is named by the segments of its
    directory, relative to the package root, and its base name. */
module BuildPreset {
  import opened Wrappers
  import opened Text
  import opened PosixPath

  const PackageScope: string := "@lowcode-yunti/"
  const AliasPrefix: string := "@/"

  predicate IsQuote(c: char) {
    c == '\'' || c == '"'
  }

  predicate NoQuote(s: string) {
    forall i :: 0 <= i < |s| ==> !IsQuote(s[i])
  }

  datatype Rule = PackageRule | AliasRule

  function Prefix(rule: Rule): string {
    match rule
    case PackageRule => PackageScope
    case AliasRule => AliasPrefix
  }

  /** The characters a captured name may hold: `[^/'"]` for a package name,
      `[^'"]` for an aliased path */
  predicate NameChar(rule: Rule, c: char) {
    !IsQuote(c) && (rule.PackageRule? ==> c != '/')
  }

  /** The length of the longest run of name characters at the start of `s` */
  function NameRun(rule: Rule, s: string): (n: nat)
    ensures n <= |s|
    ensures forall i :: 0 <= i < n ==> NameChar(rule, s[i])
    ensures n < |s| ==> !NameChar(rule, s[n])
  {
    if |s| > 0 && NameChar(rule, s[0]) then 1 + NameRun(rule, s[1..]) else 0
  }

  /** A match of a rule's expression: the opening quote, the captured name
      and the closing quote; the two quotes need not be the same character */
  datatype Match = Match(open: char, name: string, close: char)

  function Matched(rule: Rule, m: Match): string {
    [m.open] + Prefix(rule) + m.name + [m.close]
  }

  predicate WellFormed(rule: Rule, m: Match) {
    IsQuote(m.open) && IsQuote(m.close) && |m.name| > 0
    && forall i :: 0 <= i < |m.name| ==> NameChar(rule, m.name[i])
  }

  /** Whether the rule's expression matches at the start of `s`. The name is
      greedy and cannot hold a quote, so it runs to the first character that
      is not a name character, and the match needs that to be a quote. */
  function MatchAt(rule: Rule, s: string): (r: Option<Match>)
    ensures r.Some? ==> WellFormed(rule, r.value) && StartsWith(s, Matched(rule, r.value))
  {
    var p := Prefix(rule);
    if |s| > 0 && IsQuote(s[0]) && StartsWith(s[1..], p) then
      var rest := s[1 + |p|..];
      var n := NameRun(rule, rest);
      if 0 < n < |rest| && IsQuote(rest[n]) then
        assert s[..1 + |p| + n + 1] == [s[0]] + p + rest[..n] + [rest[n]];
        Some(Match(s[0], rest[..n], rest[n]))
      else None
    else None
  }

  /** The run of name characters ends where the name characters end */
  lemma {:induction false} NameRunOf(rule: Rule, name: string, rest: string)
    requires forall i :: 0 <= i < |name| ==> NameChar(rule, name[i])
    requires |rest| > 0 && !NameChar(rule, rest[0])
    ensures NameRun(rule, name + rest) == |name|
    decreases |name|
  {
    if |name| == 0 {
      assert name + rest == rest;
    } else {
      assert (name + rest)[1..] == name[1..] + rest;
      NameRunOf(rule, name[1..], rest);
    }
  }

  /** Every well-formed match is found, and it is the only one at that place */
  lemma MatchAtComplete(rule: Rule, m: Match, post: string)
    requires WellFormed(rule, m)
    ensures MatchAt(rule, Matched(rule, m) + post) == Some(m)
  {
    var p := Prefix(rule);
    var s := Matched(rule, m) + post;
    assert s[1..][..|p|] == p;
    var rest := s[1 + |p|..];
    assert rest == m.name + ([m.close] + post);
    NameRunOf(rule, m.name, [m.close] + post);
    assert rest[..|m.name|] == m.name;
  }

  // ----- The rewrite -----

  /** `path.relative(path.dirname(chunk.fileName), ".")`: both paths resolve
      against the same working directory, which cancels out
      (PosixPath.RelativeIgnoresCwd), so the relative path is the one from
      the chunk's directory up to the package root */
  function RelativeToRoot(dir: seq<string>): string {
    Relative(dir, [])
  }

  /** `.split(path.sep).join("/")`, which changes nothing where the separator
      is already `/` */
  function ForwardSlashes(p: string): (r: string)
    ensures r == p
  {
    SplitJoin(p, Separator);
    Join(Split(p, Separator), "/")
  }

  /** `./` in front of a path that does not start with `.` */
  function Relativize(p: string): (r: string)
    ensures |r| > 0 && r[0] == '.'
    ensures r == p || r == "./" + p
  {
    if |p| > 0 && p[0] == '.' then p else "./" + p
  }

  /** The path a replacer returns: `.split(path.sep).join("/")`, then `./`
      in front unless it starts with `.` */
  function Finish(p: string): (r: string)
    ensures |r| > 0 && r[0] == '.'
    ensures r == p || r == "./" + p
  {
    Relativize(ForwardSlashes(p))
  }

  /** Rule 1's replacement for package `pkg`: root, up one, package, `index` */
  function PackageTarget(dir: seq<string>, pkg: string): string {
    Finish(JoinPaths([RelativeToRoot(dir), "..", pkg, "index"]))
  }

  /** Rule 2's replacement for the aliased path `p`: root, then `p` */
  function AliasTarget(dir: seq<string>, p: string): string {
    Finish(JoinPaths([RelativeToRoot(dir), p]))
  }

  /** What a rule puts between the quotes; it always starts with `.` */
  function Target(rule: Rule, dir: seq<string>, name: string): (r: string)
    ensures |r| > 0 && r[0] == '.'
  {
    match rule
    case PackageRule => PackageTarget(dir, name)
    case AliasRule => AliasTarget(dir, name)
  }

  /** The replacer a rule passes to `code.replace` for a chunk in `dir` */
  function Replacer(rule: Rule, dir: seq<string>): string -> string {
    name => Target(rule, dir, name)
  }

  /** `code.replace(expression, replace)` with a global expression: the scan
      goes left to right, each match is replaced by its quotes around what
      `replace` makes of the captured name and the scan resumes after it, and
      a character where no match starts is copied */
  function ReplaceAll(rule: Rule, replace: string -> string, s: string): (r: string)
    decreases |s|
  {
    if |s| == 0 then ""
    else
      match MatchAt(rule, s)
      case Some(m) => [m.open] + replace(m.name) + [m.close] + ReplaceAll(rule, replace, s[|Matched(rule, m)|..])
      case None => [s[0]] + ReplaceAll(rule, replace, s[1..])
  }

  datatype Chunk = Chunk(dir: seq<string>, base: string)

  function FileName(chunk: Chunk): string {
    Join(chunk.dir + [chunk.base], Separator)
  }

  /** `renderChunk`: rule 1, then rule 2 over rule 1's output. The clean-up
      for chunks whose name starts with `index` is commented out, so such
      chunks get nothing more. */
  function RenderChunk(code: string, chunk: Chunk): string {
    Rules(Replacer(PackageRule, chunk.dir), Replacer(AliasRule, chunk.dir), code)
  }

  /** Rule 1 with replacer `f1`, then rule 2 with replacer `f2` */
  function Rules(f1: string -> string, f2: string -> string, code: string): string {
    ReplaceAll(AliasRule, f2, ReplaceAll(PackageRule, f1, code))
  }

  // ----- Scanning lemmas -----

  /** Text without quotes is copied */
  lemma {:induction false} QuoteFreeCopied(rule: Rule, f: string -> string, pre: string, s: string)
    requires NoQuote(pre)
    ensures ReplaceAll(rule, f, pre + s) == pre + ReplaceAll(rule, f, s)
    decreases |pre|
  {
    if |pre| == 0 {
      EmptyFirst(pre, s);
    } else {
      TailOfAppend(pre, s);
      QuoteFreeCopied(rule, f, pre[1..], s);
      NoMatchAtQuoteFree(rule, pre + s);
      HeadTail(pre);
      AppendAssoc([pre[0]], pre[1..], ReplaceAll(rule, f, s));
    }
  }

  /** Every match starts at a quote */
  lemma NoMatchAtQuoteFree(rule: Rule, s: string)
    requires |s| > 0 && !IsQuote(s[0])
    ensures MatchAt(rule, s).None?
  {
  }

  /** A match is replaced by its quotes around the replacement, and the scan
      goes on right after it */
  lemma ReplacedAtMatch(rule: Rule, f: string -> string, m: Match, post: string)
    requires WellFormed(rule, m)
    ensures ReplaceAll(rule, f, Matched(rule, m) + post)
            == [m.open] + f(m.name) + [m.close] + ReplaceAll(rule, f, post)
  {
    MatchAtComplete(rule, m, post);
    assert (Matched(rule, m) + post)[|Matched(rule, m)|..] == post;
  }

  /** No match starts at a quote unless `@` follows it */
  lemma NoMatchWithoutAt(rule: Rule, f: string -> string, c: char, s: string)
    requires !StartsWith(s, "@")
    ensures MatchAt(rule, [c] + s).None?
    ensures ReplaceAll(rule, f, [c] + s) == [c] + ReplaceAll(rule, f, s)
  {
    var p := Prefix(rule);
    assert ([c] + s)[1..] == s;
    if |s| >= 1 {
      assert s[..1] == [s[0]];
    }
    if |p| <= |s| {
      assert s[..|p|][0] == s[0];
    }
    assert !StartsWith(s, p);
  }

  /** The rewrite keeps the first character */
  lemma FirstKept(rule: Rule, f: string -> string, s: string)
    requires |s| > 0
    ensures |ReplaceAll(rule, f, s)| > 0 && ReplaceAll(rule, f, s)[0] == s[0]
  {
  }

  lemma NoAtKept(rule: Rule, f: string -> string, s: string)
    requires !StartsWith(s, "@")
    ensures !StartsWith(ReplaceAll(rule, f, s), "@")
  {
    if |s| > 0 {
      FirstKept(rule, f, s);
      assert s[..1] != "@";
      assert ReplaceAll(rule, f, s)[..1] == [s[0]];
    }
  }

  /** A quoted path that starts with `.` and holds no quote is copied */
  lemma DottedKept(rule: Rule, f: string -> string, q1: char, t: string, q2: char, post: string)
    requires |t| > 0 && t[0] == '.' && NoQuote(t) && !StartsWith(post, "@")
    ensures ReplaceAll(rule, f, [q1] + t + [q2] + post) == [q1] + t + [q2] + ReplaceAll(rule, f, post)
  {
    assert !StartsWith(t + ([q2] + post), "@") by {
      assert (t + ([q2] + post))[0] == t[0];
    }
    var r := ReplaceAll(rule, f, post);
    assert ReplaceAll(rule, f, [q1] + (t + ([q2] + post))) == [q1] + (t + ([q2] + r)) by {
      NoMatchWithoutAt(rule, f, q1, t + ([q2] + post));
      QuoteFreeCopied(rule, f, t, [q2] + post);
      NoMatchWithoutAt(rule, f, q2, post);
    }
    Regroup4([q1], t, [q2], post);
    Regroup4([q1], t, [q2], r);
  }

  lemma Regroup4(a: string, b: string, c: string, d: string)
    ensures a + (b + (c + d)) == a + b + c + d
  {
  }

  // ----- Targets of plain names -----

  /** `"../"` repeated `n` times */
  function UpString(n: nat): string {
    if n == 0 then "" else "../" + UpString(n - 1)
  }

  lemma {:induction false} JoinUps(n: nat, rest: seq<string>)
    requires |rest| > 0
    ensures Join(Ups(n) + rest, Separator) == UpString(n) + Join(rest, Separator)
    decreases n
  {
    if n == 0 {
      assert Ups(n) + rest == rest;
    } else {
      assert Ups(n) + rest == [".."] + (Ups(n - 1) + rest);
      JoinUps(n - 1, rest);
    }
  }

  lemma UpStringNoQuote(n: nat)
    ensures NoQuote(UpString(n))
  {
    if n > 0 {
      UpStringNoQuote(n - 1);
    }
  }

  lemma UpsExtend(n: nat)
    ensures Ups(n) + [".."] == Ups(n + 1)
  {
  }

  lemma {:induction false} NonEmptyAll(args: seq<string>)
    requires forall i :: 0 <= i < |args| ==> |args[i]| > 0
    ensures NonEmpty(args) == args
    decreases |args|
  {
    if |args| > 0 {
      NonEmptyAll(args[1..]);
      assert args == [args[0]] + args[1..];
    }
  }

  /** The path from a chunk's directory up to the package root is one `..`
      per directory level */
  lemma RootIsUps(dir: seq<string>)
    ensures RelativeToRoot(dir) == Join(Ups(|dir|), Separator)
  {
    RelativeToAncestor(dir);
  }

  /** Joining `n` segments `..` with further non-empty arguments joins the
      segments with them */
  lemma RootJoined(n: nat, root: string, rest: seq<string>)
    requires root == Join(Ups(n), Separator)
    requires |rest| > 0 && forall i :: 0 <= i < |rest| ==> |rest[i]| > 0
    ensures JoinPaths([root] + rest) == Normalize(Join(Ups(n) + rest, Separator))
  {
    NonEmptyAll(rest);
    var args := [root] + rest;
    assert args[1..] == rest;
    if n == 0 {
      assert NonEmpty(args) == NonEmpty(rest);
      assert Ups(n) + rest == rest;
    } else {
      JoinFirst(Ups(n), Separator);
      assert NonEmpty(args) == args;
      JoinAppend(Ups(n), rest, Separator);
    }
  }

  /** A run of `..` then plain segments: the joined path normalises to
      itself, which is `"../"` repeated, then the plain segments */
  lemma UpsThenPlain(n: nat, rest: seq<string>)
    requires |rest| > 0 && AllPlain(rest)
    ensures Normalize(Join(Ups(n) + rest, Separator)) == UpString(n) + Join(rest, Separator)
  {
    var segs := Ups(n) + rest;
    assert Normal(segs, true) by {
      forall i | 0 <= i < |segs|
        ensures Plain(segs[i]) || (segs[i] == ".." && forall j :: 0 <= j < i ==> segs[j] == "..")
      {
        if i >= n {
          assert segs[i] == rest[i - n];
        }
      }
    }
    NormalizeJoined(segs);
    JoinUps(n, rest);
  }

  lemma UpStringDot(n: nat, t: string)
    requires n > 0
    ensures |UpString(n) + t| > 0 && (UpString(n) + t)[0] == '.'
  {
  }

  /** Rule 1's joined path, from `n` levels down, for a plain package name */
  lemma PackageJoined(n: nat, root: string, pkg: string, x: string)
    requires root == Join(Ups(n), Separator)
    requires Plain(pkg) && x == UpString(n + 1) + pkg + "/index"
    ensures JoinPaths([root, "..", pkg, "index"]) == x
  {
    PackageArgs(root, pkg);
    RootJoined(n, root, ["..", pkg, "index"]);
    PackageNormalized(n, pkg, x);
  }

  lemma PackageArgs(root: string, pkg: string)
    ensures [root, "..", pkg, "index"] == [root] + ["..", pkg, "index"]
  {
  }

  lemma PackageNormalized(n: nat, pkg: string, x: string)
    requires Plain(pkg) && x == UpString(n + 1) + pkg + "/index"
    ensures Normalize(Join(Ups(n) + ["..", pkg, "index"], Separator)) == x
  {
    PackageSegments(n, pkg);
    UpsThenPlain(n + 1, [pkg, "index"]);
    PackageJoin(pkg);
  }

  lemma PackageSegments(n: nat, pkg: string)
    ensures Ups(n) + ["..", pkg, "index"] == Ups(n + 1) + [pkg, "index"]
  {
    UpsExtend(n);
  }

  lemma PackageJoin(pkg: string)
    requires Plain(pkg)
    ensures AllPlain([pkg, "index"]) && Join([pkg, "index"], Separator) == pkg + "/index"
  {
  }

  /** Up to the root, up once more, then the package and `index` */
  lemma PackageTargetPlain(dir: seq<string>, pkg: string)
    requires Plain(pkg)
    ensures PackageTarget(dir, pkg) == UpString(|dir| + 1) + pkg + "/index"
  {
    var x := UpString(|dir| + 1) + pkg + "/index";
    RootIsUps(dir);
    PackageJoined(|dir|, RelativeToRoot(dir), pkg, x);
    UpStringDot(|dir| + 1, pkg + "/index");
  }

  /** Rule 2's joined path, from `n` levels down, for a path of plain segments */
  lemma AliasJoined(n: nat, root: string, segs: seq<string>, x: string)
    requires root == Join(Ups(n), Separator)
    requires |segs| > 0 && AllPlain(segs) && x == UpString(n) + Join(segs, Separator)
    ensures JoinPaths([root, Join(segs, Separator)]) == x
  {
    var p := Join(segs, Separator);
    JoinFirst(segs, Separator);
    RootJoined(n, root, [p]);
    assert [root, p] == [root] + [p];
    UpsThenPlain(n, segs);
    JoinAppendOne(Ups(n), segs);
  }

  /** An aliased path of plain segments: up to the root, then the path; in
      a chunk at the root it gets `./` in front unless it starts with `.` */
  lemma AliasTargetPlain(dir: seq<string>, segs: seq<string>)
    requires |segs| > 0 && AllPlain(segs)
    ensures var p := Join(segs, Separator);
            AliasTarget(dir, p)
            == if |dir| > 0 then UpString(|dir|) + p
               else if p[0] == '.' then p
               else "./" + p
  {
    var d := |dir|;
    var p := Join(segs, Separator);
    JoinFirst(segs, Separator);
    var x := UpString(d) + p;
    RootIsUps(dir);
    AliasJoined(d, RelativeToRoot(dir), segs, x);
    if d > 0 {
      UpStringDot(d, p);
    } else {
      assert x == p;
    }
  }

  /** Joining with the joined segments is joining with the segments */
  lemma JoinAppendOne(ups: seq<string>, segs: seq<string>)
    requires |segs| > 0
    ensures Join(ups + [Join(segs, Separator)], Separator) == Join(ups + segs, Separator)
  {
    if |ups| == 0 {
      assert ups + [Join(segs, Separator)] == [Join(segs, Separator)];
      assert ups + segs == segs;
    } else {
      JoinAppend(ups, [Join(segs, Separator)], Separator);
      JoinAppend(ups, segs, Separator);
    }
  }

  // ----- renderChunk -----

  /** Under any replacers, a quoted `@lowcode-yunti/<pkg>` whose replacement
      `t` starts with `.` becomes `t` between the same quotes, which rule 2
      leaves alone; the rest of the code is rewritten on its own */
  lemma PackageRewritten(f1: string -> string, f2: string -> string, pre: string, q1: char, pkg: string, q2: char, post: string, t: string)
    requires NoQuote(pre) && IsQuote(q1) && IsQuote(q2)
    requires |pkg| > 0 && '/' !in pkg && NoQuote(pkg) && !StartsWith(post, "@")
    requires f1(pkg) == t && |t| > 0 && t[0] == '.' && NoQuote(t)
    ensures Rules(f1, f2, pre + [q1] + PackageScope + pkg + [q2] + post)
            == pre + [q1] + t + [q2] + Rules(f1, f2, post)
  {
    var m := Match(q1, pkg, q2);
    assert WellFormed(PackageRule, m);
    var code := pre + [q1] + PackageScope + pkg + [q2] + post;
    assert code == pre + (Matched(PackageRule, m) + post);
    QuoteFreeCopied(PackageRule, f1, pre, Matched(PackageRule, m) + post);
    ReplacedAtMatch(PackageRule, f1, m, post);
    var p1 := ReplaceAll(PackageRule, f1, post);
    NoAtKept(PackageRule, f1, post);
    assert ReplaceAll(PackageRule, f1, code) == pre + ([q1] + t + [q2] + p1);
    QuoteFreeCopied(AliasRule, f2, pre, [q1] + t + [q2] + p1);
    DottedKept(AliasRule, f2, q1, t, q2, p1);
    var r2 := ReplaceAll(AliasRule, f2, p1);
    assert Rules(f1, f2, code) == pre + ([q1] + t + [q2] + r2);
    Regroup(pre, [q1], t, [q2], r2);
  }

  lemma Regroup(a: string, b: string, c: string, d: string, e: string)
    ensures a + (b + c + d + e) == a + b + c + d + e
  {
  }

  /** A quoted `@lowcode-yunti/<pkg>` becomes `"../"` once per directory
      level of the chunk and once more, then `<pkg>/index`, between the same
      quotes; the rest of the code is rewritten on its own */
  lemma PackageImportRewritten(chunk: Chunk, pre: string, q1: char, pkg: string, q2: char, post: string)
    requires NoQuote(pre) && IsQuote(q1) && IsQuote(q2)
    requires Plain(pkg) && NoQuote(pkg) && !StartsWith(post, "@")
    ensures RenderChunk(pre + [q1] + PackageScope + pkg + [q2] + post, chunk)
            == pre + [q1] + (UpString(|chunk.dir| + 1) + pkg + "/index") + [q2] + RenderChunk(post, chunk)
  {
    var t := UpString(|chunk.dir| + 1) + pkg + "/index";
    PackageReplacer(chunk.dir, pkg, t);
    PackagePathShape(|chunk.dir| + 1, pkg, t);
    PackageRewritten(Replacer(PackageRule, chunk.dir), Replacer(AliasRule, chunk.dir), pre, q1, pkg, q2, post, t);
  }

  lemma PackageReplacer(dir: seq<string>, pkg: string, t: string)
    requires Plain(pkg) && t == UpString(|dir| + 1) + pkg + "/index"
    ensures Replacer(PackageRule, dir)(pkg) == t
  {
    PackageTargetPlain(dir, pkg);
  }

  lemma PackagePathShape(n: nat, pkg: string, t: string)
    requires n > 0 && NoQuote(pkg) && t == UpString(n) + pkg + "/index"
    ensures |t| > 0 && t[0] == '.' && NoQuote(t)
  {
    UpStringNoQuote(n);
  }

  /** Under any replacers, a quoted `@/<p>` becomes rule 2's replacement of
      `<p>` between the same quotes; rule 1 does not touch it */
  lemma AliasRewritten(f1: string -> string, f2: string -> string, pre: string, q1: char, p: string, q2: char, post: string)
    requires NoQuote(pre) && IsQuote(q1) && IsQuote(q2)
    requires |p| > 0 && NoQuote(p) && !StartsWith(post, "@")
    ensures Rules(f1, f2, pre + [q1] + AliasPrefix + p + [q2] + post)
            == pre + [q1] + f2(p) + [q2] + Rules(f1, f2, post)
  {
    var m := Match(q1, p, q2);
    var p1 := ReplaceAll(PackageRule, f1, post);
    AliasMatchShape(pre, q1, p, q2, post);
    AliasSkippedByRule1(f1, q1, p, q2, post);
    QuoteFreeCopied(PackageRule, f1, pre, Matched(AliasRule, m) + post);
    QuoteFreeCopied(AliasRule, f2, pre, Matched(AliasRule, m) + p1);
    ReplacedAtMatch(AliasRule, f2, m, p1);
    Regroup(pre, [q1], f2(p), [q2], ReplaceAll(AliasRule, f2, p1));
  }

  lemma AliasMatchShape(pre: string, q1: char, p: string, q2: char, post: string)
    ensures pre + [q1] + AliasPrefix + p + [q2] + post == pre + (Matched(AliasRule, Match(q1, p, q2)) + post)
  {
  }

  /** Rule 1 copies a quoted `@/<p>` */
  lemma AliasSkippedByRule1(f: string -> string, q1: char, p: string, q2: char, post: string)
    requires NoQuote(p) && IsQuote(q2) && !StartsWith(post, "@")
    ensures ReplaceAll(PackageRule, f, Matched(AliasRule, Match(q1, p, q2)) + post)
            == Matched(AliasRule, Match(q1, p, q2)) + ReplaceAll(PackageRule, f, post)
  {
    var body := AliasPrefix + p;
    var r := ReplaceAll(PackageRule, f, post);
    AliasBody(q1, p, q2, body);
    Regroup4([q1], body, [q2], post);
    Regroup4([q1], body, [q2], r);
    AliasNotPackage(q1, body + ([q2] + post));
    NoMatchCopies(PackageRule, f, q1, body + ([q2] + post));
    QuoteFreeCopied(PackageRule, f, body, [q2] + post);
    NoMatchWithoutAt(PackageRule, f, q2, post);
  }

  lemma AliasBody(q1: char, p: string, q2: char, body: string)
    requires NoQuote(p) && body == AliasPrefix + p
    ensures Matched(AliasRule, Match(q1, p, q2)) == [q1] + body + [q2]
    ensures NoQuote(body) && |body| > 1 && body[0] == '@' && body[1] == '/'
  {
    AppendAssoc([q1], AliasPrefix, p);
  }

  /** The package expression does not match at a quoted `@/` */
  lemma AliasNotPackage(q1: char, t: string)
    requires |t| > 1 && t[0] == '@' && t[1] == '/'
    ensures MatchAt(PackageRule, [q1] + t).None?
  {
    ConsParts(q1, t);
    assert !StartsWith(t, PackageScope) by {
      assert PackageScope[1] != '/';
    }
  }

  /** Where no match starts, the first character is copied */
  lemma NoMatchCopies(rule: Rule, f: string -> string, c: char, s: string)
    requires MatchAt(rule, [c] + s).None?
    ensures ReplaceAll(rule, f, [c] + s) == [c] + ReplaceAll(rule, f, s)
  {
    ConsParts(c, s);
  }

  /** A quoted `@/<p>` becomes the alias target of `<p>` between the same
      quotes; rule 1 does not touch it */
  lemma AliasImportRewritten(chunk: Chunk, pre: string, q1: char, p: string, q2: char, post: string)
    requires NoQuote(pre) && IsQuote(q1) && IsQuote(q2)
    requires |p| > 0 && NoQuote(p) && !StartsWith(post, "@")
    ensures RenderChunk(pre + [q1] + AliasPrefix + p + [q2] + post, chunk)
            == pre + [q1] + AliasTarget(chunk.dir, p) + [q2] + RenderChunk(post, chunk)
  {
    AliasRewritten(Replacer(PackageRule, chunk.dir), Replacer(AliasRule, chunk.dir), pre, q1, p, q2, post);
  }

  /** The names a rule rewrites: its prefix followed by at least one name
      character and nothing else */
  predicate Rewrites(rule: Rule, name: string) {
    var p := Prefix(rule);
    |name| > |p| && name[..|p|] == p
    && forall i :: |p| <= i < |name| ==> NameChar(rule, name[i])
  }

  /** Where the quoted name is not one a rule rewrites, no match starts at
      its opening quote */
  lemma NoMatchAtForeign(rule: Rule, q1: char, name: string, q2: char, post: string)
    requires NoQuote(name) && IsQuote(q2) && !Rewrites(rule, name)
    ensures MatchAt(rule, [q1] + name + [q2] + post).None?
  {
    var p := Prefix(rule);
    var after := name + ([q2] + post);
    Regroup4([q1], name, [q2], post);
    PrefixShape(rule);
    if |name| < |p| {
      PrefixNeedsRoom(p, name, q2, post);
    } else if StartsWith(after, p) {
      ForeignRunFails(rule, name, q2, post);
    }
    NoMatchAfter(rule, q1, after);
  }

  /** After the prefix, a nonempty run of name characters ends at a quote */
  predicate NameThenQuote(rule: Rule, rest: string) {
    var n := NameRun(rule, rest);
    0 < n < |rest| && IsQuote(rest[n])
  }

  lemma NoMatchAfter(rule: Rule, c: char, t: string)
    requires StartsWith(t, Prefix(rule)) ==> !NameThenQuote(rule, t[|Prefix(rule)|..])
    ensures MatchAt(rule, [c] + t).None?
  {
    ConsParts(c, t);
    var p := Prefix(rule);
    if StartsWith(t, p) {
      assert ([c] + t)[1 + |p|..] == t[|p|..];
    }
  }

  /** A name that starts with the prefix but is not rewritten holds a
      character the name run stops at before its closing quote */
  lemma ForeignRunFails(rule: Rule, name: string, q2: char, post: string)
    requires NoQuote(name) && IsQuote(q2) && !Rewrites(rule, name)
    requires |Prefix(rule)| <= |name| && StartsWith(name + ([q2] + post), Prefix(rule))
    ensures !NameThenQuote(rule, (name + ([q2] + post))[|Prefix(rule)|..])
  {
    var p := Prefix(rule);
    var after := name + ([q2] + post);
    var rest := after[|p|..];
    var k := |name| - |p|;
    assert rest[k] == q2;
    NameRunBound(rule, rest, k);
    var n := NameRun(rule, rest);
    if n < k {
      assert rest[n] == name[|p| + n];
    } else {
      forall i | |p| <= i < |name|
        ensures NameChar(rule, name[i])
      {
        assert rest[i - |p|] == name[i];
      }
      assert name[..|p|] == after[..|p|];
    }
  }

  lemma PrefixShape(rule: Rule)
    ensures NoQuote(Prefix(rule)) && |Prefix(rule)| > 0 && Prefix(rule)[0] == '@'
  {
  }

  /** A prefix free of quotes does not fit before a quote that comes earlier */
  lemma PrefixNeedsRoom(p: string, name: string, q2: char, post: string)
    requires NoQuote(p) && IsQuote(q2) && |name| < |p|
    ensures !StartsWith(name + ([q2] + post), p)
  {
    var t := name + ([q2] + post);
    assert t[|name|] == q2;
    if |p| <= |t| {
      assert t[..|p|][|name|] == q2;
    }
  }

  /** The run of name characters stops at the first other character */
  lemma {:induction false} NameRunBound(rule: Rule, s: string, j: nat)
    requires j < |s| && !NameChar(rule, s[j])
    ensures NameRun(rule, s) <= j
    decreases j
  {
    if |s| > 0 && NameChar(rule, s[0]) {
      NameRunBound(rule, s[1..], j - 1);
    }
  }

  /** Under any replacers, any other quoted specifier is kept as it is */
  lemma ForeignKept(f1: string -> string, f2: string -> string, pre: string, q1: char, name: string, q2: char, post: string)
    requires NoQuote(pre) && IsQuote(q2) && NoQuote(name) && !StartsWith(post, "@")
    requires !Rewrites(PackageRule, name) && !Rewrites(AliasRule, name)
    ensures Rules(f1, f2, pre + [q1] + name + [q2] + post)
            == pre + [q1] + name + [q2] + Rules(f1, f2, post)
  {
    var quoted := [q1] + name + [q2];
    var p1 := ReplaceAll(PackageRule, f1, post);
    Regroup(pre, [q1], name, [q2], post);
    ForeignSkipped(PackageRule, f1, q1, name, q2, post);
    QuoteFreeCopied(PackageRule, f1, pre, quoted + post);
    NoAtKept(PackageRule, f1, post);
    ForeignSkipped(AliasRule, f2, q1, name, q2, p1);
    QuoteFreeCopied(AliasRule, f2, pre, quoted + p1);
    Regroup(pre, [q1], name, [q2], ReplaceAll(AliasRule, f2, p1));
  }

  /** One rule copies a quoted name it does not rewrite */
  lemma ForeignSkipped(rule: Rule, f: string -> string, q1: char, name: string, q2: char, post: string)
    requires IsQuote(q2) && NoQuote(name) && !Rewrites(rule, name) && !StartsWith(post, "@")
    ensures ReplaceAll(rule, f, [q1] + name + [q2] + post) == [q1] + name + [q2] + ReplaceAll(rule, f, post)
  {
    var tail := name + ([q2] + post);
    assert [q1] + name + [q2] + post == [q1] + tail;
    NoMatchAtForeign(rule, q1, name, q2, post);
    assert ([q1] + tail)[1..] == tail;
    QuoteFreeCopied(rule, f, name, [q2] + post);
    NoMatchWithoutAt(rule, f, q2, post);
    Regroup4([q1], name, [q2], ReplaceAll(rule, f, post));
  }

  /** Any other quoted specifier is kept as it is */
  lemma ForeignImportKept(chunk: Chunk, pre: string, q1: char, name: string, q2: char, post: string)
    requires NoQuote(pre) && IsQuote(q2) && NoQuote(name) && !StartsWith(post, "@")
    requires !Rewrites(PackageRule, name) && !Rewrites(AliasRule, name)
    ensures RenderChunk(pre + [q1] + name + [q2] + post, chunk)
            == pre + [q1] + name + [q2] + RenderChunk(post, chunk)
  {
    ForeignKept(Replacer(PackageRule, chunk.dir), Replacer(AliasRule, chunk.dir), pre, q1, name, q2, post);
  }

  /** A subpath of a package, such as `@lowcode-yunti/common/axios`, is a
      name neither rule rewrites */
  lemma SubpathIsForeign(pkg: string, sub: string)
    requires |pkg| > 0
    ensures !Rewrites(PackageRule, PackageScope + pkg + "/" + sub)
    ensures !Rewrites(AliasRule, PackageScope + pkg + "/" + sub)
  {
    var name := PackageScope + pkg + "/" + sub;
    assert name[|PackageScope| + |pkg|] == '/';
    assert name[1] == 'l';
  }

  /** Index chunks are rewritten like any other chunk of their directory */
  lemma IndexChunksLikeOthers(code: string, dir: seq<string>, base: string)
    ensures StartsWith(FileName(Chunk([], "index.js")), "index")
    ensures RenderChunk(code, Chunk(dir, "index.js")) == RenderChunk(code, Chunk(dir, base))
  {
  }

  /** A root chunk's `@/.env` becomes `.env`: a path whose first segment
      starts with `.` gets no `./` in front */
  lemma DotNamedAliasUnprefixed()
    ensures AliasTarget([], ".env") == ".env"
  {
    AliasTargetPlain([], [".env"]);
  }

  // ----- Output directories -----

  const PackageBaseOutDir: string := "../../dist"

  /** `getPackageBaseOutDir(name, other)`; `other` counts only when present
      and non-empty */
  function GetPackageBaseOutDir(name: string, other: Option<string>): string {
    "../../dist/" + name + (if other.Some? && |other.value| > 0 then "/" + other.value else "")
  }

  /** The directory is `<name>` under the shared base, with `<other>` below
      it exactly when `other` is non-empty */
  lemma OutDirShape(name: string, other: Option<string>)
    ensures var r := GetPackageBaseOutDir(name, other);
            StartsWith(r, PackageBaseOutDir + "/" + name)
            && (r == PackageBaseOutDir + "/" + name <==> other.None? || other.value == "")
  {
  }

  /** For plain names the directory's segments are `..`, `..`, `dist`, the
      name and, when given, `other` */
  lemma OutDirSegments(name: string, other: Option<string>)
    requires Plain(name) && (other.Some? && other.value != "" ==> Plain(other.value))
    ensures Split(GetPackageBaseOutDir(name, other), Separator)
            == ["..", "..", "dist", name] + (if other.Some? && other.value != "" then [other.value] else [])
  {
    var segs := ["..", "..", "dist", name] + (if other.Some? && other.value != "" then [other.value] else []);
    OutDirJoined(name, other);
    forall i | 0 <= i < |segs|
      ensures '/' !in segs[i]
    {
    }
    SplitOfJoin(segs, '/');
  }

  lemma OutDirJoined(name: string, other: Option<string>)
    ensures Join(["..", "..", "dist", name] + (if other.Some? && other.value != "" then [other.value] else []), Separator)
            == GetPackageBaseOutDir(name, other)
  {
    var base := ["..", "..", "dist"];
    var tail := [name] + (if other.Some? && other.value != "" then [other.value] else []);
    assert base + tail == ["..", "..", "dist", name] + (if other.Some? && other.value != "" then [other.value] else []);
    JoinAppend(base, tail, Separator);
    OutDirBase();
    OutDirTail(name, other);
  }

  lemma OutDirBase()
    ensures Join(["..", "..", "dist"], Separator) == "../../dist"
  {
    assert ["..", "..", "dist"][1..] == ["..", "dist"];
    assert ["..", "dist"][1..] == ["dist"];
  }

  lemma OutDirTail(name: string, other: Option<string>)
    ensures Join([name] + (if other.Some? && other.value != "" then [other.value] else []), Separator)
            == name + (if other.Some? && |other.value| > 0 then "/" + other.value else "")
  {
    if other.Some? && other.value != "" {
      assert ([name] + [other.value])[1..] == [other.value];
    } else {
      assert [name] + [] == [name];
    }
  }
}
