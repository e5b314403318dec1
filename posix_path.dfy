/** Node's `path.posix`, as far as the plugin uses it: `join`, `normalize`,
    `resolve`, `relative` and `dirname`. A path string is split on '/' into
    segments; normalisation drops empty and "." segments and lets ".." remove
    the segment before it. `resolve` and `relative` work on canonical absolute
    segment lists; a relative argument is read against the process's working
    directory, which is a parameter here. */
module PosixPath {
  import opened Common

  predicate NoSlash(s: string)
  {
    Lacks(s, '/')
  }

  predicate AllNoSlash(segs: seq<string>)
  {
    forall i :: 0 <= i < |segs| ==> NoSlash(segs[i])
  }

  /** A segment that normalisation keeps as it is. */
  predicate Normal(s: string)
  {
    s != "" && s != "." && s != ".." && NoSlash(s)
  }

  predicate AllNormal(segs: seq<string>)
  {
    forall i :: 0 <= i < |segs| ==> Normal(segs[i])
  }

  /** The shape of a normalised relative path: some ".." segments, then
      ordinary ones. */
  predicate UpsThenNormal(segs: seq<string>)
  {
    && (forall i :: 0 <= i < |segs| ==> segs[i] == ".." || Normal(segs[i]))
    && (forall i :: 0 < i < |segs| && segs[i] == ".." ==> segs[i - 1] == "..")
  }

  predicate IsAbsolute(p: string)
  {
    |p| > 0 && p[0] == '/'
  }

  /** `s.split('/')`: one more piece than there are slashes. */
  function Split(s: string): (r: seq<string>)
    ensures |r| >= 1 && AllNoSlash(r)
    decreases |s|
  {
    if s == [] then [[]]
    else if s[0] == '/' then [[]] + Split(s[1..])
    else
      var t := Split(s[1..]);
      [[s[0]] + t[0]] + t[1..]
  }

  /** `segs.join('/')` */
  function JoinSegs(segs: seq<string>): string
  {
    if |segs| == 0 then ""
    else if |segs| == 1 then segs[0]
    else segs[0] + "/" + JoinSegs(segs[1..])
  }

  /** `n` ".." segments. */
  function Ups(n: nat): (r: seq<string>)
    ensures |r| == n && forall i :: 0 <= i < n ==> r[i] == ".."
  {
    if n == 0 then [] else Ups(n - 1) + [".."]
  }

  /** One segment of Node's `normalizeString`: with `aboveRoot` (a relative
      path) a ".." that has nothing left to remove is kept, otherwise (an
      absolute path) it is dropped at the root. */
  function Step(acc: seq<string>, seg: string, aboveRoot: bool): seq<string>
  {
    if seg == "" || seg == "." then acc
    else if seg == ".." then
      if |acc| > 0 && acc[|acc| - 1] != ".." then acc[..|acc| - 1]
      else if aboveRoot then acc + [".."]
      else acc
    else acc + [seg]
  }

  /** Node's `normalizeString`, folded over the segments from left to right. */
  function Canon(acc: seq<string>, segs: seq<string>, aboveRoot: bool): seq<string>
    decreases |segs|
  {
    if segs == [] then acc else Canon(Step(acc, segs[0], aboveRoot), segs[1..], aboveRoot)
  }

  /** `path.posix.normalize(p)` */
  function Normalize(p: string): string
  {
    if p == "" then "."
    else
      var isAbs := p[0] == '/';
      var trailing := p[|p| - 1] == '/';
      var segs := Canon([], Split(p), !isAbs);
      if segs == [] then (if isAbs then "/" else if trailing then "./" else ".")
      else (if isAbs then "/" else "") + JoinSegs(segs) + (if trailing then "/" else "")
  }

  /** The non-empty arguments, in order. */
  function NonEmpty(parts: seq<string>): seq<string>
  {
    if parts == [] then []
    else (if parts[0] == "" then [] else [parts[0]]) + NonEmpty(parts[1..])
  }

  /** `path.posix.join(...parts)`: the non-empty arguments glued with '/' and
      normalised ("." when nothing is left). */
  function Join(parts: seq<string>): string
  {
    Normalize(JoinSegs(NonEmpty(parts)))
  }

  /** The segments of the working directory (always absolute). */
  function CwdSegments(cwd: string): seq<string>
  {
    Canon([], Split(cwd), false)
  }

  /** Resolves `p` against the directory whose segments are `base`; the
      result lists the segments of an absolute path. */
  function ResolveFrom(base: seq<string>, p: string): seq<string>
  {
    Canon(if IsAbsolute(p) then [] else base, Split(p), false)
  }

  /** `path.posix.resolve(p)`, as its segment list: the string Node returns is
      `"/" + JoinSegs(Resolve(cwd, p))`. */
  function Resolve(cwd: string, p: string): (r: seq<string>)
    ensures AllNormal(r)
  {
    CanonAllNormal([], Split(cwd));
    CanonAllNormal(if IsAbsolute(p) then [] else CwdSegments(cwd), Split(p));
    ResolveFrom(CwdSegments(cwd), p)
  }

  /** Length of the longest common prefix. */
  function CommonPrefixLen(a: seq<string>, b: seq<string>): (k: nat)
    ensures k <= |a| && k <= |b| && a[..k] == b[..k]
    ensures k < |a| && k < |b| ==> a[k] != b[k]
  {
    if a == [] || b == [] || a[0] != b[0] then 0
    else
      var k := CommonPrefixLen(a[1..], b[1..]);
      assert a[..k + 1] == [a[0]] + a[1..][..k];
      assert b[..k + 1] == [b[0]] + b[1..][..k];
      k + 1
  }

  /** `path.posix.relative(from, to)`: after the common prefix of the two
      resolved paths, one ".." for each remaining segment of `from`, then the
      remaining segments of `to`. */
  function Relative(cwd: string, from: string, to: string): string
  {
    var f := Resolve(cwd, from);
    var t := Resolve(cwd, to);
    var k := CommonPrefixLen(f, t);
    JoinSegs(Ups(|f| - k) + t[k..])
  }

  /** Length of `p[..n]` once trailing slashes are removed, never below one. */
  function TrimmedLen(p: string, n: nat): (m: nat)
    requires 1 <= n <= |p|
    ensures 1 <= m <= n
    ensures m == 1 || p[m - 1] != '/'
    ensures forall i :: m <= i < n ==> p[i] == '/'
  {
    if n > 1 && p[n - 1] == '/' then TrimmedLen(p, n - 1) else n
  }

  /** The greatest index `e` with `1 <= e < n` and `p[e] == '/'`, or -1. */
  function LastSlashBelow(p: string, n: nat): (e: int)
    requires n <= |p|
    ensures e == -1 || (1 <= e < n && p[e] == '/')
    ensures forall i :: (if e == -1 then 1 else e + 1) <= i < n ==> p[i] != '/'
  {
    if n <= 1 then -1
    else if p[n - 1] == '/' then n - 1
    else LastSlashBelow(p, n - 1)
  }

  /** `path.posix.dirname(p)`: the text before the last segment, trailing
      slashes ignored; "/" or "." when there is none. */
  function Dirname(p: string): string
  {
    if p == "" then "."
    else
      var m := TrimmedLen(p, |p|);
      var e := LastSlashBelow(p, m - 1);
      if e == -1 then (if p[0] == '/' then "/" else ".")
      else if p[0] == '/' && e == 1 then "//"
      else p[..e]
  }

  // ---------------------------------------------------------------------
  // Splitting and joining

  lemma SplitSlash(s: string)
    ensures Split("/" + s) == [""] + Split(s)
  {
    assert ("/" + s)[1..] == s;
  }

  lemma {:induction false} SplitNoSlashPrefix(a: string, s: string)
    requires NoSlash(a)
    ensures Split(a + s) == [a + Split(s)[0]] + Split(s)[1..]
    decreases |a|
  {
    if a == [] {
      assert a + s == s;
      var t := Split(s);
      assert a + t[0] == t[0];
      assert [t[0]] + t[1..] == t;
    } else {
      assert (a + s)[0] == a[0];
      assert (a + s)[1..] == a[1..] + s;
      SplitNoSlashPrefix(a[1..], s);
      assert [a[0]] + (a[1..] + Split(s)[0]) == a + Split(s)[0];
    }
  }

  lemma SplitSmall()
    ensures Split("") == [""]
    ensures Split("/") == ["", ""]
    ensures Split(".") == ["."]
    ensures Split("./") == [".", ""]
  {
    SplitSlash("");
    assert "/" + "" == "/";
    SplitNoSlashPrefix(".", "");
    assert "." + "" == ".";
    SplitNoSlashPrefix(".", "/");
    assert "." + "/" == "./";
  }

  /** Joining the pieces of a split gives back the string. */
  lemma {:induction false} JoinSplit(s: string)
    ensures JoinSegs(Split(s)) == s
    decreases |s|
  {
    if s == [] {
    } else if s[0] == '/' {
      JoinSplit(s[1..]);
      var t := Split(s[1..]);
      assert ([""] + t)[1..] == t;
      assert s == "/" + s[1..];
    } else {
      JoinSplit(s[1..]);
      var t := Split(s[1..]);
      var u := [[s[0]] + t[0]] + t[1..];
      assert s == [s[0]] + s[1..];
      if |t| > 1 {
        assert u[1..] == t[1..];
      }
    }
  }

  /** Splitting a join of slash-free segments gives back the segments. */
  lemma {:induction false} SplitJoin(segs: seq<string>)
    requires |segs| >= 1 && AllNoSlash(segs)
    ensures Split(JoinSegs(segs)) == segs
    decreases |segs|
  {
    if |segs| == 1 {
      SplitNoSlashPrefix(segs[0], "");
      SplitSmall();
      assert segs[0] + "" == segs[0];
      assert segs == [segs[0]];
    } else {
      var rest := JoinSegs(segs[1..]);
      SplitJoin(segs[1..]);
      SplitNoSlashPrefix(segs[0], "/" + rest);
      SplitSlash(rest);
      assert JoinSegs(segs) == segs[0] + ("/" + rest);
      var t := Split("/" + rest);
      assert t[0] == "" && t[1..] == segs[1..];
      assert segs[0] + "" == segs[0];
      assert segs == [segs[0]] + segs[1..];
    }
  }

  lemma {:induction false} JoinSegsAppend(x: seq<string>, y: seq<string>)
    requires |x| >= 1 && |y| >= 1
    ensures JoinSegs(x + y) == JoinSegs(x) + "/" + JoinSegs(y)
    decreases |x|
  {
    if |x| == 1 {
      assert (x + y)[1..] == y;
    } else {
      JoinSegsAppend(x[1..], y);
      assert (x + y)[1..] == x[1..] + y;
    }
  }

  /** `split` of a concatenation around a slash. */
  lemma SplitConcat(a: string, b: string)
    ensures Split(a + "/" + b) == Split(a) + Split(b)
  {
    JoinSplit(a);
    JoinSplit(b);
    JoinSegsAppend(Split(a), Split(b));
    SplitJoin(Split(a) + Split(b));
  }

  lemma {:induction false} JoinSegsFirst(segs: seq<string>)
    requires |segs| >= 1 && |segs[0]| >= 1
    ensures |JoinSegs(segs)| >= 1 && JoinSegs(segs)[0] == segs[0][0]
  {
  }

  lemma {:induction false} JoinSegsLast(segs: seq<string>)
    requires |segs| >= 1 && |segs[|segs| - 1]| >= 1
    ensures |JoinSegs(segs)| >= 1
    ensures JoinSegs(segs)[|JoinSegs(segs)| - 1] == segs[|segs| - 1][|segs[|segs| - 1]| - 1]
    decreases |segs|
  {
    if |segs| > 1 {
      JoinSegsLast(segs[1..]);
    }
  }

  // ---------------------------------------------------------------------
  // Normalisation

  lemma {:induction false} CanonAppend(acc: seq<string>, a: seq<string>, b: seq<string>, above: bool)
    ensures Canon(acc, a + b, above) == Canon(Canon(acc, a, above), b, above)
    decreases |a|
  {
    if a == [] {
      assert a + b == b;
    } else {
      assert (a + b)[0] == a[0];
      assert (a + b)[1..] == a[1..] + b;
      CanonAppend(Step(acc, a[0], above), a[1..], b, above);
    }
  }

  lemma CanonEmptyPiece(acc: seq<string>, above: bool)
    ensures Canon(acc, [""], above) == acc && Canon(acc, ["."], above) == acc
  {
    var e: seq<string> := [""];
    assert e[1..] == [];
    var d: seq<string> := ["."];
    assert d[1..] == [];
  }

  /** Ordinary segments are appended as they are. */
  lemma {:induction false} CanonNormal(acc: seq<string>, s: seq<string>, above: bool)
    requires AllNormal(s)
    ensures Canon(acc, s, above) == acc + s
    decreases |s|
  {
    if s == [] {
    } else {
      CanonNormal(acc + [s[0]], s[1..], above);
      assert (acc + [s[0]]) + s[1..] == acc + s;
    }
  }

  /** ".." segments remove ordinary segments and stop at the root. */
  lemma {:induction false} CanonUps(acc: seq<string>, n: nat)
    requires AllNormal(acc)
    ensures Canon(acc, Ups(n), false) == acc[..|acc| - Min(n, |acc|)]
    decreases n
  {
    if n == 0 {
      assert acc[..|acc|] == acc;
    } else {
      UpsSplitFirst(n);
      var acc' := Step(acc, "..", false);
      CanonUps(acc', n - 1);
      assert Canon(acc, Ups(n), false) == Canon(acc', Ups(n - 1), false);
      if |acc| > 0 {
        assert acc' == acc[..|acc| - 1];
        assert acc'[..|acc'| - Min(n - 1, |acc'|)] == acc[..|acc| - Min(n, |acc|)];
      }
    }
  }

  lemma UpsSplitFirst(n: nat)
    requires n >= 1
    ensures Ups(n) == [".."] + Ups(n - 1)
  {
    assert Ups(n)[1..] == Ups(n - 1);
  }

  /** With `aboveRoot`, ".." segments pile up on an accumulator of ".."s. */
  lemma {:induction false} CanonUpsAbove(j: nat, n: nat)
    ensures Canon(Ups(j), Ups(n), true) == Ups(j + n)
    decreases n
  {
    if n > 0 {
      UpsSplitFirst(n);
      assert Step(Ups(j), "..", true) == Ups(j + 1);
      CanonUpsAbove(j + 1, n - 1);
    }
  }

  /** Normalising an absolute path yields ordinary segments only. */
  lemma {:induction false} CanonAllNormal(acc: seq<string>, s: seq<string>)
    requires AllNormal(acc) && AllNoSlash(s)
    ensures AllNormal(Canon(acc, s, false))
    decreases |s|
  {
    if s != [] {
      CanonAllNormal(Step(acc, s[0], false), s[1..]);
    }
  }

  /** Normalising a relative path yields "..", then ordinary segments. */
  lemma {:induction false} CanonUpsThenNormal(acc: seq<string>, s: seq<string>)
    requires UpsThenNormal(acc) && AllNoSlash(s)
    ensures UpsThenNormal(Canon(acc, s, true))
    decreases |s|
  {
    if s != [] {
      var acc' := Step(acc, s[0], true);
      assert UpsThenNormal(acc');
      CanonUpsThenNormal(acc', s[1..]);
    }
  }

  function LeadingUps(s: seq<string>): (n: nat)
    ensures n <= |s|
    ensures forall i :: 0 <= i < n ==> s[i] == ".."
    ensures n < |s| ==> s[n] != ".."
  {
    if s == [] || s[0] != ".." then 0 else 1 + LeadingUps(s[1..])
  }

  /** A normalised segment list is a fixed point of normalisation. */
  lemma CanonFixed(s: seq<string>, above: bool)
    requires UpsThenNormal(s)
    requires above || AllNormal(s)
    ensures Canon([], s, above) == s
  {
    if AllNormal(s) {
      CanonNormal([], s, above);
    } else {
      var n := LeadingUps(s);
      var rest := s[n..];
      assert s[..n] == Ups(n);
      assert s == Ups(n) + rest;
      NormalAfterUps(s, n);
      CanonAppend([], Ups(n), rest, above);
      assert Ups(0) == [];
      CanonUpsAbove(0, n);
      CanonNormal(Ups(n), rest, above);
    }
  }

  /** After its leading "..", a normalised list holds only ordinary segments. */
  lemma NormalAfterUps(s: seq<string>, n: nat)
    requires UpsThenNormal(s) && n == LeadingUps(s)
    ensures AllNormal(s[n..])
  {
    var rest := s[n..];
    forall i | 0 <= i < |rest| ensures Normal(rest[i]) {
      if rest[i] == ".." {
        DotsFollowDots(s, n + i, n);
      }
    }
  }

  lemma {:induction false} DotsFollowDots(s: seq<string>, i: nat, j: nat)
    requires UpsThenNormal(s) && j <= i < |s| && s[i] == ".."
    ensures s[j] == ".."
    decreases i - j
  {
    if i > j {
      DotsFollowDots(s, i - 1, j);
    }
  }

  lemma NormalizeSmall()
    ensures Normalize("/") == "/" && Normalize("./") == "./" && Normalize(".") == "."
  {
    SplitSmall();
    assert Canon([], ["", ""], false) == [];
    assert Canon([], [".", ""], true) == [];
    assert Canon([], ["."], true) == [];
  }

  /** The segments `normalize` keeps have the normalised shape. */
  lemma NormalizedShape(p: string)
    requires p != ""
    ensures UpsThenNormal(Canon([], Split(p), p[0] != '/'))
    ensures p[0] == '/' ==> AllNormal(Canon([], Split(p), false))
  {
    if p[0] == '/' {
      CanonAllNormal([], Split(p));
    } else {
      CanonUpsThenNormal([], Split(p));
    }
  }

  /** The pieces of a normalised path: its segments, with an empty piece where
      a leading or trailing slash stands. */
  lemma SplitFramed(pre: string, segs: seq<string>, post: string)
    requires pre == "" || pre == "/"
    requires post == "" || post == "/"
    requires |segs| >= 1 && AllNoSlash(segs)
    ensures Split(pre + JoinSegs(segs) + post)
         == (if pre == "/" then [""] else []) + segs + (if post == "/" then [""] else [])
  {
    var rest := JoinSegs(segs) + post;
    SplitTrailing(segs, post);
    if pre == "/" {
      SplitSlash(rest);
      assert pre + JoinSegs(segs) + post == "/" + rest;
    } else {
      assert pre + JoinSegs(segs) + post == rest;
    }
  }

  /** A trailing slash adds an empty last piece. */
  lemma SplitTrailing(segs: seq<string>, post: string)
    requires post == "" || post == "/"
    requires |segs| >= 1 && AllNoSlash(segs)
    ensures Split(JoinSegs(segs) + post) == segs + (if post == "/" then [""] else [])
  {
    var body := JoinSegs(segs);
    SplitJoin(segs);
    if post == "/" {
      SplitConcat(body, "");
      SplitSmall();
      assert body + "/" + "" == body + post;
    } else {
      assert body + post == body;
    }
  }

  /** Normalising the pieces of a normalised path gives its segments back. */
  lemma CanonFramed(pre: seq<string>, segs: seq<string>, post: seq<string>, above: bool)
    requires pre == [] || pre == [""]
    requires post == [] || post == [""]
    requires UpsThenNormal(segs) && (above || AllNormal(segs))
    ensures Canon([], pre + segs + post, above) == segs
  {
    CanonAppend([], pre, segs + post, above);
    assert pre + segs + post == pre + (segs + post);
    assert Canon([], pre, above) == [];
    CanonAppend([], segs, post, above);
    CanonFixed(segs, above);
  }

  lemma FramedEnds(pre: string, segs: seq<string>, post: string)
    requires pre == "" || pre == "/"
    requires post == "" || post == "/"
    requires |segs| >= 1 && AllNoSlash(segs) && segs[0] != "" && segs[|segs| - 1] != ""
    ensures var r := pre + JoinSegs(segs) + post;
            r != "" && (r[0] == '/' <==> pre == "/") && (r[|r| - 1] == '/' <==> post == "/")
  {
    JoinSegsFirst(segs);
    JoinSegsLast(segs);
  }

  /** Normalising twice is normalising once. */
  lemma NormalizeIdempotent(p: string)
    ensures Normalize(Normalize(p)) == Normalize(p)
  {
    if p != "" {
      var isAbs := p[0] == '/';
      var trailing := p[|p| - 1] == '/';
      var segs := Canon([], Split(p), !isAbs);
      if segs == [] {
        NormalizeSmall();
      } else {
        NormalizedShape(p);
        var pre := if isAbs then "/" else "";
        var post := if trailing then "/" else "";
        assert pre + JoinSegs(segs) + post == Normalize(p);
        NormalizeOfFramed(pre, segs, post);
      }
    }
  }

  /** A path already in normal form, framed by an optional leading and an
      optional trailing slash, is its own normal form. */
  lemma NormalizeOfFramed(pre: string, segs: seq<string>, post: string)
    requires pre == "" || pre == "/"
    requires post == "" || post == "/"
    requires |segs| >= 1 && UpsThenNormal(segs) && (pre == "" || AllNormal(segs))
    ensures Normalize(pre + JoinSegs(segs) + post) == pre + JoinSegs(segs) + post
  {
    var r := pre + JoinSegs(segs) + post;
    FramedCanon(pre, segs, post);
    NormalizeFromSegments(r, segs);
  }

  /** The segments normalisation finds in such a path are `segs`. */
  lemma FramedCanon(pre: string, segs: seq<string>, post: string)
    requires pre == "" || pre == "/"
    requires post == "" || post == "/"
    requires |segs| >= 1 && UpsThenNormal(segs) && (pre == "" || AllNormal(segs))
    ensures var r := pre + JoinSegs(segs) + post;
            && r != "" && (r[0] == '/' <==> pre == "/") && (r[|r| - 1] == '/' <==> post == "/")
            && Canon([], Split(r), r[0] != '/') == segs
  {
    assert AllNoSlash(segs);
    assert segs[0] != "" && segs[|segs| - 1] != "";
    FramedEnds(pre, segs, post);
    SplitFramed(pre, segs, post);
    CanonFramed(if pre == "/" then [""] else [], segs, if post == "/" then [""] else [], pre == "");
  }

  // ---------------------------------------------------------------------
  // Joining under a directory

  lemma NonEmptyOfNonEmpty(parts: seq<string>)
    requires forall i :: 0 <= i < |parts| ==> parts[i] != ""
    ensures NonEmpty(parts) == parts
  {
    if parts != [] {
      NonEmptyOfNonEmpty(parts[1..]);
      assert [parts[0]] + parts[1..] == parts;
    }
  }

  /** What `normalize` returns, read off its segments and end characters. */
  lemma NormalizeFromSegments(p: string, segs: seq<string>)
    requires p != "" && segs != []
    requires Canon([], Split(p), p[0] != '/') == segs
    ensures Normalize(p) == (if p[0] == '/' then "/" else "") + JoinSegs(segs)
                            + (if p[|p| - 1] == '/' then "/" else "")
  {
  }

  lemma SplitDoubleSlash(body: string)
    ensures Split("/" + ("/" + body)) == ["", ""] + Split(body)
  {
    SplitSlash("/" + body);
    SplitSlash(body);
  }

  lemma CanonDoubleRooted(segs: seq<string>)
    requires AllNormal(segs)
    ensures Canon([], ["", ""] + segs, false) == segs
  {
    CanonAppend([], ["", ""], segs, false);
    assert Canon([], ["", ""], false) == [];
    CanonNormal([], segs, false);
  }

  /** Normalising "//" followed by ordinary segments keeps one leading slash. */
  lemma NormalizeDoubleRooted(segs: seq<string>)
    requires |segs| >= 1 && AllNormal(segs)
    ensures Normalize("/" + ("/" + JoinSegs(segs))) == "/" + JoinSegs(segs)
  {
    var body := JoinSegs(segs);
    var p := "/" + ("/" + body);
    JoinSegsLast(segs);
    assert p[|p| - 1] == body[|body| - 1];
    SplitDoubleSlash(body);
    SplitJoin(segs);
    CanonDoubleRooted(segs);
    NormalizeFromSegments(p, segs);
  }

  /** `join("/", dir, target)` of ordinary segments is plain concatenation. */
  lemma JoinUnderDir(dirSegs: seq<string>, targetSegs: seq<string>)
    requires |dirSegs| >= 1 && AllNormal(dirSegs)
    requires |targetSegs| >= 1 && AllNormal(targetSegs)
    ensures Join(["/", JoinSegs(dirSegs), JoinSegs(targetSegs)])
         == "/" + JoinSegs(dirSegs) + "/" + JoinSegs(targetSegs)
  {
    var dir := JoinSegs(dirSegs);
    var target := JoinSegs(targetSegs);
    JoinSegsFirst(dirSegs);
    JoinSegsFirst(targetSegs);
    var parts := ["/", dir, target];
    NonEmptyThree("/", dir, target);
    var both := dirSegs + targetSegs;
    JoinSegsAppend(dirSegs, targetSegs);
    JoinSegsThree("/", dir, target);
    assert JoinSegs(parts) == "/" + ("/" + JoinSegs(both));
    NormalizeDoubleRooted(both);
    assert Join(parts) == Normalize(JoinSegs(parts));
    SlashJoinAssoc(dir, target);
  }

  lemma PrefixJoinAssoc(pre: string, a: string, b: string)
    ensures pre + (a + "/" + b) == (pre + a) + "/" + b
  {
  }

  lemma SlashJoinAssoc(a: string, b: string)
    ensures "/" + (a + "/" + b) == "/" + a + "/" + b
  {
  }

  lemma NonEmptyThree(a: string, b: string, c: string)
    requires a != "" && b != "" && c != ""
    ensures NonEmpty([a, b, c]) == [a, b, c]
  {
    NonEmptyOfNonEmpty([a, b, c]);
  }

  lemma JoinSegsThree(a: string, b: string, c: string)
    ensures JoinSegs([a, b, c]) == a + ("/" + (b + "/" + c))
  {
    var parts := [a, b, c];
    assert parts[1..] == [b, c];
    assert parts[1..][1..] == [c];
    assert JoinSegs([c]) == c;
    assert JoinSegs([b, c]) == b + "/" + c;
    assert JoinSegs(parts) == a + "/" + (b + "/" + c);
  }

  /** `join` with a leading "/" argument gives an absolute path. */
  lemma JoinRootedIsAbsolute(parts: seq<string>)
    requires |parts| >= 1 && parts[0] == "/"
    ensures IsAbsolute(Join(parts))
  {
    var ne := NonEmpty(parts);
    assert ne == ["/"] + NonEmpty(parts[1..]);
    JoinSegsFirst(ne);
  }

  // ---------------------------------------------------------------------
  // Resolution and relative paths

  /** An absolute path of ordinary segments resolves to those segments. */
  lemma ResolveRooted(cwd: string, segs: seq<string>)
    requires AllNormal(segs)
    ensures Resolve(cwd, "/" + JoinSegs(segs)) == segs
  {
    var p := "/" + JoinSegs(segs);
    SplitSlash(JoinSegs(segs));
    if segs == [] {
      SplitSmall();
      assert p == "/";
      assert Canon([], ["", ""], false) == [];
    } else {
      SplitJoin(segs);
      CanonAppend([], [""], segs, false);
      CanonNormal([], segs, false);
    }
  }

  /** `relative(from, to)` never yields an absolute path. */
  lemma {:induction false} RelativeNotAbsolute(cwd: string, from: string, to: string)
    ensures !IsAbsolute(Relative(cwd, from, to))
  {
    var f := Resolve(cwd, from);
    var t := Resolve(cwd, to);
    var k := CommonPrefixLen(f, t);
    var l := Ups(|f| - k) + t[k..];
    if |l| > 0 {
      assert l[0] == ".." || l[0] == t[k];
      JoinSegsFirst(l);
    }
  }

  /** The segment form of the round trip below. */
  lemma RelativeSegsRoundTrip(f: seq<string>, t: seq<string>)
    requires AllNormal(f) && AllNormal(t)
    ensures Canon(f, Ups(|f| - CommonPrefixLen(f, t)) + t[CommonPrefixLen(f, t)..], false) == t
  {
    var k := CommonPrefixLen(f, t);
    var n := |f| - k;
    CanonAppend(f, Ups(n), t[k..], false);
    CanonUps(f, n);
    assert f[..|f| - Min(n, |f|)] == f[..k];
    TailNormal(t, k);
    CanonNormal(f[..k], t[k..], false);
    PrefixThenTail(f, t, k);
  }

  lemma TailNormal(t: seq<string>, k: nat)
    requires AllNormal(t) && k <= |t|
    ensures AllNormal(t[k..])
  {
    forall i | 0 <= i < |t| - k
      ensures Normal(t[k..][i])
    {
      assert t[k..][i] == t[k + i];
    }
  }

  lemma PrefixThenTail(f: seq<string>, t: seq<string>, k: nat)
    requires k <= |f| && k <= |t| && f[..k] == t[..k]
    ensures f[..k] + t[k..] == t
  {
    assert t[..k] + t[k..] == t;
  }

  /** Resolving the result of `relative(from, to)` against `from` gives
      `to`: the relative path leads where it should. */
  lemma RelativeRoundTrip(cwd: string, from: string, to: string)
    ensures ResolveFrom(Resolve(cwd, from), Relative(cwd, from, to)) == Resolve(cwd, to)
  {
    var f := Resolve(cwd, from);
    var t := Resolve(cwd, to);
    var k := CommonPrefixLen(f, t);
    var l := Ups(|f| - k) + t[k..];
    var rel := Relative(cwd, from, to);
    assert rel == JoinSegs(l);
    RelativeNotAbsolute(cwd, from, to);
    assert ResolveFrom(f, rel) == Canon(f, Split(rel), false);
    RelativeSegsRoundTrip(f, t);
    UpsThenTailNoSlash(|f| - k, t, k);
    CanonSplitJoin(f, l);
  }

  lemma UpsThenTailNoSlash(n: nat, t: seq<string>, k: nat)
    requires AllNormal(t) && k <= |t|
    ensures AllNoSlash(Ups(n) + t[k..])
  {
    var l := Ups(n) + t[k..];
    forall i | 0 <= i < |l|
      ensures NoSlash(l[i])
    {
      if i >= n {
        assert l[i] == t[k + i - n];
      }
    }
  }

  /** Splitting the joined segments gives them back to normalisation; the
      empty list joins to "", which is a no-op piece. */
  lemma CanonSplitJoin(f: seq<string>, l: seq<string>)
    requires AllNoSlash(l)
    ensures Canon(f, Split(JoinSegs(l)), false) == Canon(f, l, false)
  {
    if l == [] {
      SplitSmall();
      CanonEmptyPiece(f, false);
    } else {
      SplitJoin(l);
    }
  }

  lemma CommonPrefixOfPrefix(a: seq<string>, j: nat)
    requires j <= |a|
    ensures CommonPrefixLen(a, a[..j]) == j && CommonPrefixLen(a[..j], a) == j
  {
  }

  /** From a file `below` segments under `root`, `relative(file, root)` is
      one ".." per segment. */
  lemma RelativeToAncestor(cwd: string, rootSegs: seq<string>, below: seq<string>)
    requires AllNormal(rootSegs) && AllNormal(below)
    ensures Relative(cwd, "/" + JoinSegs(rootSegs + below), "/" + JoinSegs(rootSegs))
         == JoinSegs(Ups(|below|))
  {
    ResolveRooted(cwd, rootSegs + below);
    ResolveRooted(cwd, rootSegs);
    var f := rootSegs + below;
    assert f[..|rootSegs|] == rootSegs;
    CommonPrefixOfPrefix(f, |rootSegs|);
    assert rootSegs[|rootSegs|..] == [];
    assert Ups(|below|) + [] == Ups(|below|);
  }

  /** ".." segments climb from the working directory and stop at the root. */
  lemma RelativeFromCwdToUps(cwd: string, n: nat)
    requires n >= 1
    ensures Relative(cwd, ".", JoinSegs(Ups(n))) == JoinSegs(Ups(Min(n, |CwdSegments(cwd)|)))
  {
    var c := CwdSegments(cwd);
    CanonAllNormal([], Split(cwd));
    SplitSmall();
    assert Canon(c, ["."], false) == c;
    assert Resolve(cwd, ".") == c;
    var ups := JoinSegs(Ups(n));
    assert AllNoSlash(Ups(n));
    SplitJoin(Ups(n));
    JoinSegsFirst(Ups(n));
    CanonUps(c, n);
    var j := |c| - Min(n, |c|);
    assert Resolve(cwd, ups) == c[..j];
    CommonPrefixOfPrefix(c, j);
    assert c[..j][j..] == [];
    assert Ups(|c| - j) + [] == Ups(Min(n, |c|));
  }

  /** `relative` from the working directory to itself is empty. */
  lemma RelativeFromCwdToSelf(cwd: string)
    ensures Relative(cwd, ".", "") == ""
  {
    var c := CwdSegments(cwd);
    ResolveSmall(cwd);
    assert c[..|c|] == c;
    CommonPrefixOfPrefix(c, |c|);
    assert c[|c|..] == [];
    assert Ups(0) + [] == [];
  }

  // ---------------------------------------------------------------------
  // dirname

  lemma {:induction false} LastSlashIs(p: string, n: nat, e: nat)
    requires n <= |p| && 1 <= e < n && p[e] == '/'
    requires forall i :: e < i < n ==> p[i] != '/'
    ensures LastSlashBelow(p, n) == e
    decreases n
  {
    if p[n - 1] != '/' {
      LastSlashIs(p, n - 1, e);
    }
  }

  lemma {:induction false} NoSlashBelow(p: string, n: nat)
    requires n <= |p|
    requires forall i :: 1 <= i < n ==> p[i] != '/'
    ensures LastSlashBelow(p, n) == -1
    decreases n
  {
    if n > 1 {
      NoSlashBelow(p, n - 1);
    }
  }

  /** The dirname of a single segment is ".". */
  lemma DirnameOfSegment(s: string)
    requires s != "" && NoSlash(s)
    ensures Dirname(s) == "."
  {
    NoSlashBelow(s, |s| - 1);
  }

  lemma DirnameOfJoin(a: string, last: string)
    requires |a| >= 1 && last != "" && NoSlash(last)
    requires a[0] == '/' ==> |a| >= 2
    ensures Dirname(a + "/" + last) == a
  {
    var p := a + "/" + last;
    assert p[|p| - 1] == last[|last| - 1];
    assert TrimmedLen(p, |p|) == |p|;
    assert p[|a|] == '/';
    forall i | |a| < i < |p| - 1 ensures p[i] != '/' {
      assert p[i] == last[i - |a| - 1];
    }
    LastSlashIs(p, |p| - 1, |a|);
    assert p[..|a|] == a;
  }

  lemma DirnameOfLast(pre: string, last: string)
    requires pre == "" || pre == "/"
    requires last != "" && NoSlash(last)
    ensures Dirname(pre + last) == if pre == "/" then "/" else "."
  {
    var p := pre + last;
    assert p[|p| - 1] == last[|last| - 1];
    assert TrimmedLen(p, |p|) == |p|;
    forall i | 1 <= i < |p| - 1 ensures p[i] != '/' {
      assert p[i] == last[i - |pre|];
    }
    NoSlashBelow(p, |p| - 1);
    assert p[0] == '/' <==> pre == "/";
  }

  /** `dirname` drops exactly the last segment of a path of ordinary
      segments, absolute (`pre` is "/") or relative (`pre` is ""). */
  lemma DirnameDropsLast(pre: string, segs: seq<string>)
    requires pre == "" || pre == "/"
    requires |segs| >= 1 && AllNormal(segs)
    ensures Dirname(pre + JoinSegs(segs))
         == if |segs| == 1 then (if pre == "/" then "/" else ".")
            else pre + JoinSegs(segs[..|segs| - 1])
  {
    if |segs| == 1 {
      DirnameOfOne(pre, segs);
    } else {
      DirnameOfMany(pre, segs);
    }
  }

  lemma DirnameOfOne(pre: string, segs: seq<string>)
    requires pre == "" || pre == "/"
    requires |segs| == 1 && Normal(segs[0])
    ensures Dirname(pre + JoinSegs(segs)) == if pre == "/" then "/" else "."
  {
    assert JoinSegs(segs) == segs[0];
    DirnameOfLast(pre, segs[0]);
  }

  lemma DirnameOfMany(pre: string, segs: seq<string>)
    requires pre == "" || pre == "/"
    requires |segs| >= 2 && AllNormal(segs)
    ensures Dirname(pre + JoinSegs(segs)) == pre + JoinSegs(segs[..|segs| - 1])
  {
    SplitOffLast(pre, segs);
    DirnameOfJoin(pre + JoinSegs(segs[..|segs| - 1]), segs[|segs| - 1]);
  }

  /** The path of two or more ordinary segments is the path of all but the
      last, a slash, and the last. */
  lemma SplitOffLast(pre: string, segs: seq<string>)
    requires pre == "" || pre == "/"
    requires |segs| >= 2 && AllNormal(segs)
    ensures var a := pre + JoinSegs(segs[..|segs| - 1]);
            var last := segs[|segs| - 1];
            && pre + JoinSegs(segs) == a + "/" + last
            && |a| >= 1 && (a[0] == '/' ==> |a| >= 2) && last != "" && NoSlash(last)
  {
    var last := segs[|segs| - 1];
    var init := segs[..|segs| - 1];
    assert Normal(last);
    assert segs == init + [last];
    JoinSegsSnoc(init, last);
    assert init[0] == segs[0];
    PrefixedJoinNonEmpty(pre, init);
    PrefixJoinAssoc(pre, JoinSegs(init), last);
  }

  lemma JoinSegsSnoc(init: seq<string>, last: string)
    requires |init| >= 1
    ensures JoinSegs(init + [last]) == JoinSegs(init) + "/" + last
  {
    var single := [last];
    assert JoinSegs(single) == last;
    JoinSegsAppend(init, single);
  }

  lemma PrefixedJoinNonEmpty(pre: string, init: seq<string>)
    requires pre == "" || pre == "/"
    requires |init| >= 1 && Normal(init[0])
    ensures var a := pre + JoinSegs(init);
            |a| >= 1 && (a[0] == '/' ==> |a| >= 2)
  {
    JoinSegsFirst(init);
    assert init[0][0] != '/';
    if pre == "" {
      assert pre + JoinSegs(init) == JoinSegs(init);
    }
  }

  /** The dirname of an absolute path of ordinary segments is the path of
      all but the last segment ("/" when there is only one). */
  lemma DirnameOfRooted(segs: seq<string>)
    requires |segs| >= 1 && AllNormal(segs)
    ensures Dirname("/" + JoinSegs(segs)) == "/" + JoinSegs(segs[..|segs| - 1])
  {
    DirnameDropsLast("/", segs);
    if |segs| == 1 {
      assert segs[..0] == [];
      assert "/" + "" == "/";
    }
  }

  /** Node resolves a relative `p` by normalising `cwd + "/" + p`; the
      segment form above agrees with that. */
  lemma ResolveMatchesNodeConcatenation(cwd: string, p: string)
    requires !IsAbsolute(p)
    ensures Resolve(cwd, p) == Canon([], Split(cwd + "/" + p), false)
  {
    SplitConcat(cwd, p);
    CanonAppend([], Split(cwd), Split(p), false);
  }

  // ---------------------------------------------------------------------
  // Resolution sees through normalisation

  lemma CanonSingle(acc: seq<string>, seg: string, above: bool)
    ensures Canon(acc, [seg], above) == Step(acc, seg, above)
  {
    var single: seq<string> := [seg];
    assert single[1..] == [];
  }

  /** One segment normalised relatively, then resolved, lands where the
      segment resolved directly would. */
  lemma StepThroughAbove(c: seq<string>, acc: seq<string>, seg: string)
    requires UpsThenNormal(acc) && NoSlash(seg)
    ensures Canon(c, Step(acc, seg, true), false) == Step(Canon(c, acc, false), seg, false)
  {
    if seg == "" || seg == "." {
    } else if seg == ".." {
      if |acc| > 0 && acc[|acc| - 1] != ".." {
        var init := acc[..|acc| - 1];
        var x := acc[|acc| - 1];
        assert acc == init + [x];
        assert Normal(x);
        CanonAppend(c, init, [x], false);
        CanonSingle(Canon(c, init, false), x, false);
      } else {
        CanonAppend(c, acc, [".."], false);
        CanonSingle(Canon(c, acc, false), "..", false);
      }
    } else {
      CanonAppend(c, acc, [seg], false);
      CanonSingle(Canon(c, acc, false), seg, false);
    }
  }

  /** Normalising a relative segment list keeps the ".." it cannot remove;
      resolving the outcome against any directory is resolving the original. */
  lemma {:induction false} CanonThroughAbove(c: seq<string>, acc: seq<string>, s: seq<string>)
    requires UpsThenNormal(acc) && AllNoSlash(s)
    ensures Canon(c, Canon(acc, s, true), false) == Canon(Canon(c, acc, false), s, false)
    decreases |s|
  {
    if s != [] {
      var acc' := Step(acc, s[0], true);
      assert UpsThenNormal(acc');
      CanonThroughAbove(c, acc', s[1..]);
      StepThroughAbove(c, acc, s[0]);
    }
  }

  lemma ResolveSmall(cwd: string)
    ensures Resolve(cwd, "") == CwdSegments(cwd) && Resolve(cwd, ".") == CwdSegments(cwd)
    ensures Resolve(cwd, "./") == CwdSegments(cwd) && Resolve(cwd, "/") == []
  {
    var c := CwdSegments(cwd);
    SplitSmall();
    CanonEmptyPiece(c, false);
    assert Canon(c, [".", ""], false) == c;
    assert Canon([], ["", ""], false) == [];
  }

  /** Resolving the normalised form of an absolute path. */
  lemma ResolveNormalizeAbsolute(cwd: string, p: string)
    requires p != "" && p[0] == '/'
    ensures Resolve(cwd, Normalize(p)) == Resolve(cwd, p)
  {
    var segs := Canon([], Split(p), false);
    assert Resolve(cwd, p) == segs;
    ResolveSmall(cwd);
    if segs != [] {
      NormalizedShape(p);
      var post := if p[|p| - 1] == '/' then "/" else "";
      var r := "/" + JoinSegs(segs) + post;
      assert Normalize(p) == r;
      FramedEnds("/", segs, post);
      SplitFramed("/", segs, post);
      CanonFramed([""], segs, if post == "/" then [""] else [], false);
    }
  }

  /** A relative path written out from normalised segments, with or
      without a trailing slash, resolves as those segments do. */
  lemma ResolveFramedRelative(cwd: string, segs: seq<string>, post: string)
    requires post == "" || post == "/"
    requires segs != [] && UpsThenNormal(segs)
    ensures Resolve(cwd, "" + JoinSegs(segs) + post) == Canon(CwdSegments(cwd), segs, false)
  {
    var c := CwdSegments(cwd);
    assert AllNoSlash(segs) && segs[0] != "" && segs[|segs| - 1] != "";
    FramedEnds("", segs, post);
    SplitFramed("", segs, post);
    var tail: seq<string> := if post == "/" then [""] else [];
    var r := "" + JoinSegs(segs) + post;
    assert Split(r) == segs + tail;
    assert !IsAbsolute(r);
    CanonAppend(c, segs, tail, false);
    CanonEmptyPiece(Canon(c, segs, false), false);
  }

  /** Resolving the normalised form of a relative path. */
  lemma ResolveNormalizeRelative(cwd: string, p: string)
    requires p != "" && p[0] != '/'
    ensures Resolve(cwd, Normalize(p)) == Resolve(cwd, p)
  {
    var c := CwdSegments(cwd);
    var segs := Canon([], Split(p), true);
    CanonThroughAbove(c, [], Split(p));
    assert Canon(c, segs, false) == Resolve(cwd, p);
    ResolveSmall(cwd);
    if segs != [] {
      NormalizedShape(p);
      var post := if p[|p| - 1] == '/' then "/" else "";
      assert Normalize(p) == "" + JoinSegs(segs) + post;
      ResolveFramedRelative(cwd, segs, post);
    }
  }

  /** `normalize` never changes which file a path names. */
  lemma ResolveNormalize(cwd: string, p: string)
    ensures Resolve(cwd, Normalize(p)) == Resolve(cwd, p)
  {
    if p == "" {
      ResolveSmall(cwd);
    } else if p[0] == '/' {
      ResolveNormalizeAbsolute(cwd, p);
    } else {
      ResolveNormalizeRelative(cwd, p);
    }
  }

  /** `join` names the file that gluing its non-empty arguments with '/'
      names. */
  lemma ResolveJoin(cwd: string, parts: seq<string>)
    ensures Resolve(cwd, Join(parts)) == Resolve(cwd, JoinSegs(NonEmpty(parts)))
  {
    ResolveNormalize(cwd, JoinSegs(NonEmpty(parts)));
  }

  /** `join(cwd, dir, name)` for an absolute working directory names the
      file reached by walking `dir`, then `name`, from the working directory,
      even when `dir` itself starts with '/'. */
  lemma ResolveJoinUnderCwd(cwd: string, dir: string, name: string)
    requires IsAbsolute(cwd) && name != ""
    ensures Resolve(cwd, Join([cwd, dir, name]))
         == Canon(Canon(CwdSegments(cwd), Split(dir), false), Split(name), false)
  {
    ResolveJoin(cwd, [cwd, dir, name]);
    if dir == "" {
      ResolveJoinNoDir(cwd, dir, name);
    } else {
      ResolveJoinWithDir(cwd, dir, name);
    }
  }

  lemma NonEmptySkipsMiddle(cwd: string, dir: string, name: string)
    requires cwd != "" && dir == "" && name != ""
    ensures NonEmpty([cwd, dir, name]) == [cwd, name]
  {
    var p1: seq<string> := [name];
    assert p1[1..] == [];
    assert NonEmpty(p1) == [name];
    var p2: seq<string> := [dir, name];
    assert p2[1..] == p1;
    assert NonEmpty(p2) == [name];
    var p3: seq<string> := [cwd, dir, name];
    assert p3[1..] == p2;
    assert NonEmpty(p3) == [cwd] + [name];
  }

  lemma ResolveJoinNoDir(cwd: string, dir: string, name: string)
    requires IsAbsolute(cwd) && dir == "" && name != ""
    ensures Resolve(cwd, JoinSegs(NonEmpty([cwd, dir, name])))
         == Canon(Canon(CwdSegments(cwd), Split(dir), false), Split(name), false)
  {
    NonEmptySkipsMiddle(cwd, dir, name);
    var two := [cwd, name];
    assert two[1..] == [name];
    var q := cwd + "/" + name;
    assert JoinSegs(two) == q;
    assert IsAbsolute(q);
    SplitConcat(cwd, name);
    CanonAppend([], Split(cwd), Split(name), false);
    SplitSmall();
    CanonEmptyPiece(CwdSegments(cwd), false);
  }

  lemma ResolveJoinWithDir(cwd: string, dir: string, name: string)
    requires IsAbsolute(cwd) && dir != "" && name != ""
    ensures Resolve(cwd, JoinSegs(NonEmpty([cwd, dir, name])))
         == Canon(Canon(CwdSegments(cwd), Split(dir), false), Split(name), false)
  {
    NonEmptyThree(cwd, dir, name);
    JoinSegsThree(cwd, dir, name);
    var q := cwd + ("/" + (dir + "/" + name));
    assert q == cwd + "/" + (dir + "/" + name);
    assert IsAbsolute(q);
    SplitConcat(cwd, dir + "/" + name);
    SplitConcat(dir, name);
    CanonAppend([], Split(cwd), Split(dir) + Split(name), false);
    CanonAppend(CwdSegments(cwd), Split(dir), Split(name), false);
  }

  /** A name without a slash is one segment. */
  lemma SplitNoSlash(a: string)
    requires NoSlash(a)
    ensures Split(a) == [a]
  {
    SplitNoSlashPrefix(a, "");
    SplitSmall();
    assert a + "" == a;
  }
}
