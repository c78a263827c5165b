/**
 * The client's download button: it computes a file name from the GIF name
 * it was given, requests that file from the server's output route, and saves
 * the response under the same name.
 */
module DownloadButton {
  import opened Wrappers
  import opened Strings
  import DownloadRoute

  const OutputRoute := "/app/output/"
  const GifExtension := ".gif"

  /** `[a-zA-Z0-9-_.]`: the characters the cleaning step keeps. */
  predicate IsNameChar(c: char) {
    || ('a' <= c <= 'z') || ('A' <= c <= 'Z') || ('0' <= c <= '9')
    || c == '-' || c == '_' || c == '.'
  }

  /** `name.split('?')[0].replace(/[^a-zA-Z0-9-_\.]/g, '')` */
  function CleanName(name: string): (r: string)
    ensures forall i :: 0 <= i < |r| ==> IsNameChar(r[i])
    ensures |r| <= |name|
    ensures forall c :: IsNameChar(c) ==> multiset(r)[c] == multiset(BeforeFirst(name, '?'))[c]
    ensures forall c :: !IsNameChar(c) ==> multiset(r)[c] == 0
    ensures EndsWith(BeforeFirst(name, '?'), GifExtension) ==> EndsWith(r, GifExtension)
  {
    KeepOnlyCounts(BeforeFirst(name, '?'), IsNameChar);
    KeptGifSuffix(BeforeFirst(name, '?'));
    KeepOnly(BeforeFirst(name, '?'), IsNameChar)
  }

  /** A ".gif" ending is made of kept characters, so it survives the filter in place. */
  lemma KeptGifSuffix(base: string)
    ensures EndsWith(base, GifExtension) ==> EndsWith(KeepOnly(base, IsNameChar), GifExtension)
  {
    if EndsWith(base, GifExtension) {
      var head := base[..|base| - |GifExtension|];
      assert base == head + GifExtension;
      KeepOnlyAppend(head, GifExtension, IsNameChar);
      KeepOnlyKeepsAll(GifExtension, IsNameChar);
      var k := KeepOnly(head, IsNameChar);
      assert (k + GifExtension)[|k + GifExtension| - |GifExtension|..] == GifExtension;
    }
  }

  /**
   * Cleaning a name without '?' distributes over any split of it: the kept
   * characters of each part appear in order, those of the first part first.
   */
  lemma CleanNameSplits(a: string, b: string)
    requires '?' !in a + b
    ensures CleanName(a + b) == KeepOnly(a, IsNameChar) + KeepOnly(b, IsNameChar)
  {
    BeforeFirstAppend(a + b, "", '?');
    assert a + b + "" == a + b;
    KeepOnlyAppend(a, b, IsNameChar);
  }

  /** Cleaning changes nothing in a name made of kept characters only. */
  lemma CleanNameKeepsPlainNames(name: string)
    requires forall i :: 0 <= i < |name| ==> IsNameChar(name[i])
    ensures CleanName(name) == name
  {
    BeforeFirstAppend(name, "", '?');
    assert name + "" == name;
    KeepOnlyKeepsAll(name, IsNameChar);
  }

  /**
   * The `filename` of `downloadGif()`. As written the conditional expression
   * binds looser than the method chain, so the cleaned name only decides
   * whether ".gif" is appended to the raw name; with `fixed`, the cleaned
   * name itself is used, as the accompanying comment intends.
   */
  function FileName(name: string, fixed: bool): (r: string)
    ensures !fixed ==> (r == name <==> EndsWith(CleanName(name), GifExtension))
    ensures !fixed ==> StartsWith(r, name) && (r == name || r == name + GifExtension)
    ensures fixed ==> EndsWith(r, GifExtension) && (forall i :: 0 <= i < |r| ==> IsNameChar(r[i]))
  {
    var cleaned := CleanName(name);
    if EndsWith(cleaned, GifExtension) then (if fixed then cleaned else name)
    else if fixed then
      AppendGifToNameChars(cleaned);
      cleaned + GifExtension
    else
      AppendGifExtends(name);
      name + GifExtension
  }

  /** Appending ".gif" to a name of kept characters gives a ".gif" name of kept characters. */
  lemma AppendGifToNameChars(s: string)
    requires forall i :: 0 <= i < |s| ==> IsNameChar(s[i])
    ensures EndsWith(s + GifExtension, GifExtension)
    ensures forall i :: 0 <= i < |s + GifExtension| ==> IsNameChar((s + GifExtension)[i])
  {
    EndsWithSuffix(s, GifExtension);
    assert forall i :: 0 <= i < |GifExtension| ==> IsNameChar(GifExtension[i]);
    forall i | 0 <= i < |s + GifExtension|
      ensures IsNameChar((s + GifExtension)[i])
    {
      if i >= |s| {
        assert (s + GifExtension)[i] == GifExtension[i - |s|];
      }
    }
  }

  /** Appending ".gif" gives a different name that starts with the original one. */
  lemma AppendGifExtends(s: string)
    ensures s + GifExtension != s
    ensures StartsWith(s + GifExtension, s)
  {
    assert |s + GifExtension| != |s|;
    assert (s + GifExtension)[..|s|] == s;
  }

  /** The request `downloadGif()` issues: its URL and the name the file is saved under. */
  datatype Request = Request(url: string, saveAs: string)

  /** `downloadGif()` for the component's `gifFileName`: no request for an empty name. */
  function DownloadGif(name: string, fixed: bool): (r: Option<Request>)
    ensures r.None? <==> name == ""
    ensures r.Some? ==> r.value.saveAs == FileName(name, fixed) && r.value.url == OutputRoute + r.value.saveAs
  {
    if name == "" then None
    else
      var filename := FileName(name, fixed);
      Some(Request(OutputRoute + filename, filename))
  }

  /**
   * As written, a name whose cleaned form ends in ".gif" is saved under its
   * raw form: "a.gif?x" is requested and saved as "a.gif?x", a name without
   * the ".gif" extension, while the server serves the file "a.gif".
   */
  lemma RawNameIsSaved()
    ensures var r := DownloadGif("a.gif?x", false);
            && r == Some(Request(OutputRoute + "a.gif?x", "a.gif?x"))
            && !EndsWith(r.value.saveAs, GifExtension)
            && DownloadRoute.NormalizeFilename(r.value.saveAs) == "a.gif"
  {
    CleanedExample();
    assert EndsWith("a.gif", GifExtension);
    ExampleIsNotGifName();
    ExampleServedName();
  }

  /** "a.gif?x" does not end in ".gif". */
  lemma ExampleIsNotGifName()
    ensures !EndsWith("a.gif?x", GifExtension)
  {
    var name := "a.gif?x";
    assert name[|name| - 1] == 'x';
  }

  /** The server's route serves "a.gif" for the name "a.gif?x". */
  lemma ExampleServedName()
    ensures DownloadRoute.NormalizeFilename("a.gif?x") == "a.gif"
  {
    assert "a.gif?x" == "a.gif" + "?x";
    BeforeFirstAppend("a.gif", "?x", '?');
    assert EndsWith("a.gif", GifExtension);
  }

  /** The query part is dropped before cleaning: "a.gif?x" cleans to "a.gif". */
  lemma CleanedExample()
    ensures CleanName("a.gif?x") == "a.gif"
  {
    assert "a.gif?x" == "a.gif" + "?x";
    BeforeFirstAppend("a.gif", "?x", '?');
    KeepOnlyKeepsAll("a.gif", IsNameChar);
  }

  /**
   * With the cleaned name used, the name saved is a ".gif" name of plain
   * characters, and it is exactly the name the server's route serves.
   */
  lemma FixedNameIsServedName(name: string)
    requires name != ""
    ensures var r := DownloadGif(name, true).value;
            && EndsWith(r.saveAs, GifExtension)
            && '?' !in r.saveAs
            && DownloadRoute.NormalizeFilename(r.saveAs) == r.saveAs
  {
    var f := FileName(name, true);
    assert '?' !in f by {
      forall i | 0 <= i < |f|
        ensures f[i] != '?'
      {
        assert IsNameChar(f[i]);
      }
    }
    BeforeFirstAppend(f, "", '?');
    assert f + "" == f;
  }
}
