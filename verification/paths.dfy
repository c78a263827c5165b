/**
 * POSIX path handling with the semantics of Node's `path.basename`,
 * `path.join` and `path.normalize`, restricted to the '/' separator.
 */
module Paths {
  import opened Strings

  /** `s.split('/')`: the segments between separators, empty ones included. */
  function Split(s: string): (r: seq<string>)
    ensures |r| >= 1
    ensures forall i :: 0 <= i < |r| ==> '/' !in r[i]
  {
    if |s| == 0 then [""]
    else
      var rest := Split(s[1..]);
      if s[0] == '/' then [""] + rest
      else [[s[0]] + rest[0]] + rest[1..]
  }

  /** `segs.join('/')` for a non-empty list of segments. */
  function JoinSegs(segs: seq<string>): string
    requires |segs| >= 1
  {
    if |segs| == 1 then segs[0] else segs[0] + "/" + JoinSegs(segs[1..])
  }

  /** Splitting and re-joining gives back the original string. */
  lemma {:induction false} JoinSplit(s: string)
    ensures JoinSegs(Split(s)) == s
  {
    if |s| > 0 {
      JoinSplit(s[1..]);
      var rest := Split(s[1..]);
      if s[0] == '/' {
        assert Split(s)[1..] == rest;
      } else {
        if |rest| == 1 {
          assert Split(s) == [[s[0]] + rest[0]];
        } else {
          assert Split(s)[1..] == rest[1..];
          assert JoinSegs(rest) == rest[0] + "/" + JoinSegs(rest[1..]);
        }
      }
    }
  }

  /** Joining separator-free segments and splitting again gives back the segments. */
  lemma {:induction false} SplitJoin(segs: seq<string>)
    requires |segs| >= 1
    requires forall i :: 0 <= i < |segs| ==> '/' !in segs[i]
    ensures Split(JoinSegs(segs)) == segs
  {
    if |segs| == 1 {
      SplitNoSeparator(segs[0]);
    } else {
      SplitJoin(segs[1..]);
      SplitAppend(segs[0], JoinSegs(segs[1..]));
      SplitNoSeparator(segs[0]);
    }
  }

  /** A string without separators is a single segment. */
  lemma {:induction false} SplitNoSeparator(s: string)
    requires '/' !in s
    ensures Split(s) == [s]
  {
    if |s| > 0 {
      assert '/' !in s[1..];
      SplitNoSeparator(s[1..]);
      assert [s[0]] + s[1..] == s;
    }
  }

  /** The segments `Split` makes of a character followed by the segments `rest`. */
  function ConsSegment(c: char, rest: seq<string>): seq<string>
    requires |rest| >= 1
  {
    if c == '/' then [""] + rest else [[c] + rest[0]] + rest[1..]
  }

  /** One step of `Split`, stated for a string built from its first character. */
  lemma SplitCons(c: char, s: string)
    ensures Split([c] + s) == ConsSegment(c, Split(s))
  {
    assert ([c] + s)[1..] == s;
  }

  /** Adding a character in front only touches the first segment. */
  lemma ConsSegmentAppend(c: char, rest: seq<string>, more: seq<string>)
    requires |rest| >= 1
    ensures ConsSegment(c, rest + more) == ConsSegment(c, rest) + more
  {
    if c != '/' {
      assert (rest + more)[1..] == rest[1..] + more;
    }
  }

  /** Splitting distributes over a separator: `(a + "/" + b).split('/')`. */
  lemma {:induction false} SplitAppend(a: string, b: string)
    ensures Split(a + "/" + b) == Split(a) + Split(b)
  {
    if |a| == 0 {
      assert a + "/" + b == ['/'] + b;
      SplitCons('/', b);
    } else {
      var c, t := a[0], a[1..];
      assert a == [c] + t;
      assert a + "/" + b == [c] + (t + "/" + b);
      SplitAppend(t, b);
      SplitCons(c, t);
      SplitCons(c, t + "/" + b);
      ConsSegmentAppend(c, Split(t), Split(b));
    }
  }

  /** Joining one more segment at the end. */
  lemma {:induction false} JoinSegsSnoc(segs: seq<string>, x: string)
    requires |segs| >= 1
    ensures JoinSegs(segs + [x]) == JoinSegs(segs) + "/" + x
  {
    if |segs| == 1 {
      assert segs + [x] == [segs[0], x];
    } else {
      assert (segs + [x])[1..] == segs[1..] + [x];
      JoinSegsSnoc(segs[1..], x);
    }
  }

  /** An ordinary file or directory name: what `normalize` keeps unchanged. */
  predicate Plain(seg: string) {
    seg != "" && seg != "." && seg != ".." && '/' !in seg
  }

  /** The segments that `normalize` may leave behind. */
  predicate Resolved(segs: seq<string>, absolute: bool) {
    forall i :: 0 <= i < |segs| ==> segs[i] != "" && segs[i] != "." && '/' !in segs[i]
                                    && (absolute ==> segs[i] != "..")
  }

  /**
   * Node's `normalizeString`: empty and "." segments vanish, ".." removes the
   * previous real segment, and a ".." that cannot be removed is kept for a
   * relative path and dropped at the root of an absolute one.
   */
  function ResolveFrom(acc: seq<string>, segs: seq<string>, absolute: bool): (r: seq<string>)
    requires Resolved(acc, absolute)
    requires forall i :: 0 <= i < |segs| ==> '/' !in segs[i]
    ensures Resolved(r, absolute)
    decreases |segs|
  {
    if |segs| == 0 then acc
    else
      var s := segs[0];
      var next :=
        if s == "" || s == "." then acc
        else if s == ".." then
          (if |acc| > 0 && acc[|acc| - 1] != ".." then acc[..|acc| - 1]
           else if absolute then acc
           else acc + [".."])
        else acc + [s];
      ResolveFrom(next, segs[1..], absolute)
  }

  /** Plain segments are appended unchanged. */
  lemma {:induction false} ResolvePlain(acc: seq<string>, segs: seq<string>, absolute: bool)
    requires Resolved(acc, absolute)
    requires forall i :: 0 <= i < |segs| ==> Plain(segs[i]) && '/' !in segs[i]
    ensures ResolveFrom(acc, segs, absolute) == acc + segs
    decreases |segs|
  {
    if |segs| > 0 {
      ResolvePlain(acc + [segs[0]], segs[1..], absolute);
      assert acc + [segs[0]] + segs[1..] == acc + segs;
    }
  }

  /** A string joined from resolved segments neither starts nor ends with a separator. */
  lemma JoinSegsEnds(segs: seq<string>, absolute: bool)
    requires |segs| >= 1 && Resolved(segs, absolute)
    ensures var j := JoinSegs(segs); |j| > 0 && j[0] != '/' && j[|j| - 1] != '/'
  {
    var j := JoinSegs(segs);
    var last := segs[|segs| - 1];
    assert last[|last| - 1] in last;
    LastSegmentIsSuffix(segs);
    assert j[|j| - 1] == j[|j| - |last|..][|last| - 1];
    assert segs[0][0] in segs[0];
  }

  /**
   * `path.normalize(p)`: the result is never empty, is absolute exactly
   * when `p` is, and ends in a separator exactly when `p` does (or is the
   * root).
   */
  function Normalize(p: string): (r: string)
    ensures |r| > 0
    ensures p != "" ==> (r[0] == '/' <==> p[0] == '/')
    ensures p != "" ==> (r[|r| - 1] == '/' <==> p[|p| - 1] == '/' || r == "/")
  {
    if p == "" then "."
    else
      var absolute := p[0] == '/';
      var trailing := p[|p| - 1] == '/';
      var segs := ResolveFrom([], Split(p), absolute);
      if |segs| == 0 then
        (if absolute then "/" else if trailing then "./" else ".")
      else
        JoinSegsEnds(segs, absolute);
        var body := JoinSegs(segs) + (if trailing then "/" else "");
        if absolute then "/" + body else body
  }

  /**
   * `path.join(dir, name)`: zero-length arguments are skipped, the rest
   * normalised; the result is never empty and is absolute exactly when the
   * first non-empty argument is.
   */
  function Join(dir: string, name: string): (r: string)
    ensures |r| > 0
    ensures dir != "" ==> (r[0] == '/' <==> dir[0] == '/')
    ensures dir == "" && name != "" ==> (r[0] == '/' <==> name[0] == '/')
  {
    if dir == "" && name == "" then "."
    else if dir == "" then Normalize(name)
    else if name == "" then Normalize(dir)
    else Normalize(dir + "/" + name)
  }

  /** `p` without its trailing separators. */
  function StripTrailingSeparators(p: string): (r: string)
    ensures StartsWith(p, r)
    ensures |r| == 0 || r[|r| - 1] != '/'
    ensures forall i :: |r| <= i < |p| ==> p[i] == '/'
  {
    if |p| == 0 || p[|p| - 1] != '/' then p
    else StripTrailingSeparators(p[..|p| - 1])
  }

  /**
   * `path.basename(p)`: the last segment once trailing separators are
   * removed, that is the longest separator-free suffix of what remains.
   */
  function Basename(p: string): (r: string)
    ensures '/' !in r
    ensures EndsWith(StripTrailingSeparators(p), r)
    ensures var q := StripTrailingSeparators(p); |r| == |q| || q[|q| - |r| - 1] == '/'
  {
    var q := StripTrailingSeparators(p);
    var segs := Split(q);
    JoinSplit(q);
    LastSegmentIsSuffix(segs);
    LastSegmentFollowsSeparator(segs);
    segs[|segs| - 1]
  }

  /** With more than one segment, the last one follows a separator in the joined string. */
  lemma LastSegmentFollowsSeparator(segs: seq<string>)
    requires |segs| >= 1
    ensures var j, last := JoinSegs(segs), segs[|segs| - 1];
            |last| <= |j| && (|segs| == 1 || (|last| < |j| && j[|j| - |last| - 1] == '/'))
  {
    if |segs| > 1 {
      var init := segs[..|segs| - 1];
      assert segs == init + [segs[|segs| - 1]];
      JoinSegsSnoc(init, segs[|segs| - 1]);
      var j := JoinSegs(init) + "/" + segs[|segs| - 1];
      assert j[|JoinSegs(init)|] == '/';
    }
  }

  /** The last segment of a split is a suffix of the joined string. */
  lemma {:induction false} LastSegmentIsSuffix(segs: seq<string>)
    requires |segs| >= 1
    ensures EndsWith(JoinSegs(segs), segs[|segs| - 1])
  {
    if |segs| == 1 {
      assert JoinSegs(segs)[|JoinSegs(segs)| - |segs[0]|..] == segs[0];
    } else {
      LastSegmentIsSuffix(segs[1..]);
      EndsWithAppend(segs[0] + "/", JoinSegs(segs[1..]), segs[|segs| - 1]);
      assert segs[0] + "/" + JoinSegs(segs[1..]) == (segs[0] + "/") + JoinSegs(segs[1..]);
    }
  }

  /** An absolute path made only of plain segments, with no trailing separator. */
  predicate CanonicalAbsolute(dir: string) {
    |dir| > 1 && dir[0] == '/' &&
    var segs := Split(dir[1..]);
    forall i :: 0 <= i < |segs| ==> Plain(segs[i])
  }

  /**
   * `segsOf(dir)` is a proper prefix of `segsOf(p)`: the path names something
   * strictly below the directory, segment by segment.
   */
  predicate Below(p: string, dir: string) {
    var d := Split(dir);
    var q := Split(p);
    |d| < |q| && q[..|d|] == d
  }

  /** Joining a canonical directory with a plain name is plain concatenation. */
  lemma JoinPlainName(dir: string, name: string)
    requires CanonicalAbsolute(dir)
    requires Plain(name)
    ensures Join(dir, name) == dir + "/" + name
    ensures Below(Join(dir, name), dir)
  {
    var rest := dir[1..];
    var segs := Split(rest);
    var p := dir + "/" + name;
    assert Split(dir) == [""] + segs by {
      assert dir == "" + "/" + rest;
      SplitAppend("", rest);
    }
    assert Split(p) == [""] + (segs + [name]) by {
      SplitAppend(dir, name);
      SplitNoSeparator(name);
    }
    var all := segs + [name];
    assert forall i :: 0 <= i < |all| ==> Plain(all[i]) && '/' !in all[i];
    assert ResolveFrom([], Split(p), true) == all by {
      assert ResolveFrom([], Split(p), true) == ResolveFrom([], all, true);
      ResolvePlain([], all, true);
    }
    assert JoinSegs(all) == rest + "/" + name by {
      JoinSegsSnoc(segs, name);
      JoinSplit(rest);
    }
    assert p[0] == '/' && p[|p| - 1] != '/';
    assert Split(p)[..|Split(dir)|] == Split(dir);
  }

  /** The basename of a plain name, alone or after any directory part, is the name itself. */
  lemma BasenameOfChild(dir: string, name: string)
    requires Plain(name)
    ensures Basename(name) == name
    ensures Basename(dir + "/" + name) == name
  {
    SplitNoSeparator(name);
    var p := dir + "/" + name;
    assert p[|p| - 1] == name[|name| - 1];
    assert StripTrailingSeparators(p) == p;
    SplitAppend(dir, name);
  }

  /** Whatever follows `dir + "/"` lies below `dir`. */
  lemma BelowAfterSeparator(dir: string, rest: string)
    ensures Below(dir + "/" + rest, dir)
  {
    SplitAppend(dir, rest);
  }
}
