/**
 * The server's `GET /app/output/:filename` route: normalise the requested
 * name to a ".gif" file, confine it to the output directory, and stream it
 * back as an attachment.
 */
module DownloadRoute {
  import opened Wrappers
  import opened Strings
  import opened Paths

  const GifExtension := ".gif"

  /** The name the route looks up: everything before the first '?', with ".gif" added when missing. */
  function NormalizeFilename(param: string): (r: string)
    ensures EndsWith(r, GifExtension)
    ensures '?' !in r
    ensures StartsWith(r, BeforeFirst(param, '?'))
    ensures r == BeforeFirst(param, '?') <==> EndsWith(BeforeFirst(param, '?'), GifExtension)
    ensures !EndsWith(BeforeFirst(param, '?'), GifExtension) ==> r == BeforeFirst(param, '?') + GifExtension
  {
    var base := BeforeFirst(param, '?');
    if EndsWith(base, GifExtension) then base
    else
      EndsWithSuffix(base, GifExtension);
      assert (base + GifExtension)[..|base|] == base;
      base + GifExtension
  }

  /** Normalising a normalised name changes nothing. */
  lemma NormalizeFilenameIdempotent(param: string)
    ensures NormalizeFilename(NormalizeFilename(param)) == NormalizeFilename(param)
  {
    var r := NormalizeFilename(param);
    BeforeFirstAppend(r, "", '?');
    assert r + "" == r;
  }

  datatype Header = Header(name: string, value: string)

  /** What the route answers. */
  datatype Response =
    | Forbidden                                                    // 403 { error: 'Invalid file path' }
    | NotFound(requestedFile: string, availableFiles: seq<string>)  // 404 { error: 'GIF not found', ... }
    | Streamed(filePath: string, headers: seq<Header>)              // 200, the file's bytes
    | ServerFailure                                                // next(err): 500 from the global handler

  function Status(r: Response): int {
    match r
    case Forbidden => 403
    case NotFound(_, _) => 404
    case Streamed(_, _) => 200
    case ServerFailure => 500
  }

  /**
   * The filesystem as the route sees it: the directory listing, whether a
   * path exists, and the size `fs.statSync` reports (or its failure).
   */
  datatype FileSystem = FileSystem(listing: Result<seq<string>>, present: string -> bool, size: string -> Result<nat>)

  /** The download headers for `filename` of `size` bytes. */
  function DownloadHeaders(filename: string, size: nat): seq<Header> {
    [Header("Content-Type", "image/gif"),
     Header("Content-Length", NatToString(size)),
     Header("Content-Disposition", "attachment; filename=\"" + filename + "\""),
     Header("Cache-Control", "no-cache")]
  }

  /**
   * The confinement test: as written, a raw string prefix test against the
   * directory; with `strict`, a prefix test against the directory followed by
   * a separator.
   */
  predicate Confined(filePath: string, outputDir: string, strict: bool) {
    if strict then StartsWith(filePath, outputDir + "/") else StartsWith(filePath, outputDir)
  }

  /** The route handler, for an output directory as `path.resolve` returns it. */
  function Download(outputDir: string, param: string, fs: FileSystem, strict: bool): (r: Response)
    ensures var name := NormalizeFilename(param);
            var filePath := Join(outputDir, name);
            && (r.Forbidden? <==> !Confined(filePath, outputDir, strict))
            && (r.NotFound? ==> fs.listing.Ok? && r == NotFound(name, fs.listing.value) && !fs.present(filePath))
            && (r.Streamed? ==> && fs.listing.Ok? && fs.present(filePath) && fs.size(filePath).Ok?
                                && r == Streamed(filePath, DownloadHeaders(name, fs.size(filePath).value)))
            && (r.ServerFailure? ==> fs.listing.Throws? || (fs.present(filePath) && fs.size(filePath).Throws?))
  {
    var name := NormalizeFilename(param);
    var filePath := Join(outputDir, name);
    if !Confined(filePath, outputDir, strict) then Forbidden
    else
      match fs.listing
      case Throws(_) => ServerFailure
      case Ok(contents) =>
        if !fs.present(filePath) then NotFound(name, contents)
        else
          match fs.size(filePath)
          case Throws(_) => ServerFailure
          case Ok(size) => Streamed(filePath, DownloadHeaders(name, size))
  }

  /** A request the confinement test refuses gets 403 whatever the filesystem holds. */
  lemma ForbiddenBeforeFilesystem(outputDir: string, param: string, fs1: FileSystem, fs2: FileSystem, strict: bool)
    requires Download(outputDir, param, fs1, strict).Forbidden?
    ensures Download(outputDir, param, fs2, strict).Forbidden?
  {
  }

  /**
   * The route as written serves a file outside the output directory. For an
   * output directory "/" + `d` and a sibling directory "/" + `d` + `s` (with
   * `d` = "o", `s` = "2": "/o" and "/o2"), the name "../" + `d` + `s` + "/" +
   * `f` joins to a path in the sibling, which starts with the string "/" + `d`
   * and so passes the prefix test, although it does not lie below "/" + `d`.
   */
  lemma PrefixCheckAdmitsSibling(d: string, s: string, f: string, fs: FileSystem)
    requires Plain(d) && Plain(d + s) && s != "" && Plain(f)
    requires EndsWith(f, GifExtension) && '?' !in d + s + f
    requires var target := "/" + d + s + "/" + f;
             fs.listing.Ok? && fs.present(target) && fs.size(target).Ok?
    ensures var target := "/" + d + s + "/" + f;
            && Download("/" + d, ".." + "/" + (d + s + "/" + f), fs, false).Streamed?
            && Download("/" + d, ".." + "/" + (d + s + "/" + f), fs, false).filePath == target
            && !Below(target, "/" + d)
  {
    var dir := "/" + d;
    var b := d + s;
    var name := ".." + "/" + (d + s + "/" + f);
    var target := "/" + d + s + "/" + f;
    assert name == ".." + "/" + (b + "/" + f);
    assert target == "/" + b + "/" + f;
    SiblingNameIsNormal(b, f);
    SiblingJoin(d, b, f);
    SiblingEscapes(d, s, f);
    assert Join(dir, NormalizeFilename(name)) == target;
    assert Confined(target, dir, false);
  }

  /** A ".gif" name without '?' is its own normal form. */
  lemma SiblingNameIsNormal(b: string, f: string)
    requires EndsWith(f, GifExtension) && '?' !in b + f
    ensures NormalizeFilename(".." + "/" + (b + "/" + f)) == ".." + "/" + (b + "/" + f)
  {
    var name := ".." + "/" + (b + "/" + f);
    assert name == (".." + "/" + (b + "/")) + f;
    EndsWithAppend(".." + "/" + (b + "/"), f, GifExtension);
    assert '?' !in name by {
      assert '?' !in ".." && '?' !in "/";
      assert '?' !in b && '?' !in f;
    }
    BeforeFirstAppend(name, "", '?');
    assert name + "" == name;
  }

  /** A path in the sibling "/" + `d` + `s` starts with "/" + `d` but does not lie below it. */
  lemma SiblingEscapes(d: string, s: string, f: string)
    requires Plain(d) && Plain(d + s) && s != "" && Plain(f)
    ensures StartsWith("/" + d + s + "/" + f, "/" + d)
    ensures !Below("/" + d + s + "/" + f, "/" + d)
  {
    var target := "/" + d + s + "/" + f;
    assert target == ("/" + d) + (s + "/" + f);
    assert target == "/" + (d + s) + "/" + f;
    SplitRooted(d + s, f);
    SplitRooted(d, "");
    assert Split(target)[..2] == ["", d + s];
    assert d + s != d by {
      assert |d + s| != |d|;
    }
  }

  /** `path.join("/a", "../b/c")` is "/b/c" for plain segments `a`, `b` and `c`. */
  lemma SiblingJoin(a: string, b: string, c: string)
    requires Plain(a) && Plain(b) && Plain(c)
    ensures Join("/" + a, ".." + "/" + (b + "/" + c)) == "/" + b + "/" + c
  {
    var p := "/" + a + "/" + (".." + "/" + (b + "/" + c));
    SplitSibling(a, b, c);
    ResolveSibling(a, b, c);
    assert p[0] == '/' && p[|p| - 1] == c[|c| - 1] != '/';
    assert JoinSegs([b, c]) == b + "/" + c;
  }

  /** The segments of "/a/../b/c". */
  lemma SplitSibling(a: string, b: string, c: string)
    requires '/' !in a && '/' !in b && '/' !in c
    ensures Split("/" + a + "/" + (".." + "/" + (b + "/" + c))) == ["", a, "..", b, c]
  {
    SplitAppend("/" + a, ".." + "/" + (b + "/" + c));
    SplitRooted(a, "");
    SplitThree("..", b, c);
  }

  /** The segments of `x` + "/" + `y` + "/" + `z`. */
  lemma SplitThree(x: string, y: string, z: string)
    requires '/' !in x && '/' !in y && '/' !in z
    ensures Split(x + "/" + (y + "/" + z)) == [x, y, z]
  {
    SplitAppend(y, z);
    SplitAppend(x, y + "/" + z);
    SplitNoSeparator(x);
    SplitNoSeparator(y);
    SplitNoSeparator(z);
  }

  /** Resolving "/a/../b/c" from the root: the ".." cancels `a`. */
  lemma ResolveSibling(a: string, b: string, c: string)
    requires Plain(a) && Plain(b) && Plain(c)
    ensures ResolveFrom([], ["", a, "..", b, c], true) == [b, c]
  {
    var segs := ["", a, "..", b, c];
    assert segs[1..] == [a, "..", b, c];
    assert segs[2..] == ["..", b, c];
    assert segs[3..] == [b, c];
    assert [a][..0] == [];
    assert [] + [a] == [a];
    assert ResolveFrom([], segs, true) == ResolveFrom([], segs[1..], true);
    assert ResolveFrom([], segs[1..], true) == ResolveFrom([a], segs[2..], true);
    assert ResolveFrom([a], segs[2..], true) == ResolveFrom([], [b, c], true);
    ResolvePlain([], [b, c], true);
    assert [] + [b, c] == [b, c];
  }

  /** The segments of "/a/b", and of "/a". */
  lemma SplitRooted(a: string, b: string)
    requires '/' !in a && '/' !in b
    ensures Split("/" + a + "/" + b) == ["", a, b]
    ensures Split("/" + a) == ["", a]
  {
    assert "/" + a + "/" + b == "" + "/" + (a + "/" + b);
    SplitThree("", a, b);
    assert "/" + a == "" + "/" + a;
    SplitAppend("", a);
    SplitNoSeparator("");
    SplitNoSeparator(a);
  }

  /** With the separator added to the test, whatever the route serves lies below the output directory. */
  lemma StrictCheckConfines(outputDir: string, param: string, fs: FileSystem)
    ensures var r := Download(outputDir, param, fs, true);
            r.Streamed? ==> Below(r.filePath, outputDir)
  {
    var filePath := Join(outputDir, NormalizeFilename(param));
    if StartsWith(filePath, outputDir + "/") {
      var rest := filePath[|outputDir| + 1..];
      assert filePath == outputDir + "/" + rest;
      BelowAfterSeparator(outputDir, rest);
    }
  }

  /**
   * The stricter test refuses nothing the route is meant to serve: a name
   * without separators, in a canonical output directory, passes it.
   */
  lemma StrictCheckAdmitsPlainNames(outputDir: string, param: string, fs: FileSystem)
    requires CanonicalAbsolute(outputDir)
    requires '/' !in param
    ensures !Download(outputDir, param, fs, true).Forbidden?
  {
    var name := NormalizeFilename(param);
    NormalizedNameIsPlain(param);
    JoinPlainName(outputDir, name);
    assert (outputDir + "/" + name)[..|outputDir + "/"|] == outputDir + "/";
  }

  /** A parameter without separators normalises to a plain name. */
  lemma NormalizedNameIsPlain(param: string)
    requires '/' !in param
    ensures Plain(NormalizeFilename(param))
  {
    var base := BeforeFirst(param, '?');
    assert '/' !in base by {
      forall k | 0 <= k < |base|
        ensures base[k] != '/'
      {
        assert base[k] == param[k];
      }
    }
    var name := NormalizeFilename(param);
    assert '/' !in name by {
      if name != base {
        assert name == base + GifExtension;
      }
    }
    assert |name| >= |GifExtension|;
  }
}
