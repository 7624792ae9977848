/**
  The pure string handling of `process_url_file` in
  Intervals.icu-api-docs/url-to-markdown.py: the URL list read from the input
  file (line 65) and the name of the Markdown file each page is saved under
  (lines 73-77).
 */
module UrlFiles {
  import opened Outcomes
  import opened Text

  // ---------------------------------------------------------------------
  // The URL list (url-to-markdown.py:65)
  // ---------------------------------------------------------------------

  /** The URL list: every line of the file with surrounding whitespace removed, blank lines skipped. */
  function CleanUrls(lines: seq<string>): (urls: seq<string>)
    ensures |urls| <= |lines|
    ensures forall k :: 0 <= k < |urls| ==> urls[k] != "" && Strip(urls[k]) == urls[k]
    decreases |lines|
  {
    if |lines| == 0 then
      []
    else
      var url := Strip(lines[0]);
      StripIdempotent(lines[0]);
      if url == "" then CleanUrls(lines[1..]) else [url] + CleanUrls(lines[1..])
  }

  /** One line gives its stripped text, or nothing when it is blank. */
  lemma CleanUrlsSingle(line: string)
    ensures AllSpace(line) ==> CleanUrls([line]) == []
    ensures !AllSpace(line) ==> CleanUrls([line]) == [Strip(line)]
  {
    assert [line][1..] == [];
  }

  /** The lines are processed one by one, in order: cleaning distributes over concatenation. */
  lemma {:induction false} CleanUrlsAppend(a: seq<string>, b: seq<string>)
    ensures CleanUrls(a + b) == CleanUrls(a) + CleanUrls(b)
    decreases |a|
  {
    if |a| == 0 {
      assert a + b == b;
    } else {
      assert (a + b)[0] == a[0];
      assert (a + b)[1..] == a[1..] + b;
      CleanUrlsAppend(a[1..], b);
    }
  }

  /** Some line of `lines` strips to `url`. */
  ghost predicate SomeLineStripsTo(lines: seq<string>, url: string) {
    exists k :: 0 <= k < |lines| && Strip(lines[k]) == url
  }

  /** A line strips to `url` when the first one does or one of the others does. */
  lemma SomeLineStripsToCons(lines: seq<string>, url: string)
    requires |lines| > 0
    ensures SomeLineStripsTo(lines, url) <==> Strip(lines[0]) == url || SomeLineStripsTo(lines[1..], url)
  {
    if SomeLineStripsTo(lines, url) && Strip(lines[0]) != url {
      var k :| 0 <= k < |lines| && Strip(lines[k]) == url;
      assert lines[1..][k - 1] == lines[k];
    }
    if SomeLineStripsTo(lines[1..], url) {
      var k :| 0 <= k < |lines[1..]| && Strip(lines[1..][k]) == url;
      assert lines[k + 1] == lines[1..][k];
    }
  }

  /** A URL is in the list exactly when some line strips to it and it is not blank. */
  lemma {:induction false} CleanUrlsMembers(lines: seq<string>, url: string)
    ensures url in CleanUrls(lines) <==> url != "" && SomeLineStripsTo(lines, url)
    decreases |lines|
  {
    if |lines| > 0 {
      CleanUrlsMembers(lines[1..], url);
      SomeLineStripsToCons(lines, url);
    }
  }

  /** Reading an already cleaned list again changes nothing. */
  lemma {:induction false} CleanUrlsIdempotent(lines: seq<string>)
    ensures CleanUrls(CleanUrls(lines)) == CleanUrls(lines)
    decreases |lines|
  {
    if |lines| > 0 {
      CleanUrlsIdempotent(lines[1..]);
      var url := Strip(lines[0]);
      var rest := CleanUrls(lines[1..]);
      if url != "" {
        CleanUrlsSingle(url);
        CleanUrlsAppend([url], rest);
      }
    }
  }

  // ---------------------------------------------------------------------
  // The output file name (url-to-markdown.py:73-77)
  // ---------------------------------------------------------------------

  /**
    The segment with every ".html" and then every ".htm" deleted; it only
    ever loses characters.
   */
  function DropHtmlExt(segment: string): (r: string)
    ensures multiset(r) <= multiset(segment)
  {
    RemoveAllOnlyDeletes(segment, ".html");
    RemoveAllOnlyDeletes(RemoveAll(segment, ".html"), ".htm");
    RemoveAll(RemoveAll(segment, ".html"), ".htm")
  }

  /**
    The file stem of a URL: its last `/`-separated segment, or the one
    before it when the last is empty, without `.html` and `.htm`. `None` is
    the `IndexError` of `url.split('/')[-2]`, raised only for the empty URL.
   */
  function FileStem(url: string): (stem: Option<string>)
    ensures stem.None? <==> url == ""
    ensures stem.Some? ==> '/' !in stem.value
  {
    var segments := Split(url, '/');
    var last := segments[|segments| - 1];
    JoinSplit(url, '/');
    if last != "" then
      RemoveAllKeepsOut(last, ".html", '/');
      RemoveAllKeepsOut(RemoveAll(last, ".html"), ".htm", '/');
      Some(DropHtmlExt(last))
    else if |segments| >= 2 then
      var previous := segments[|segments| - 2];
      RemoveAllKeepsOut(previous, ".html", '/');
      RemoveAllKeepsOut(RemoveAll(previous, ".html"), ".htm", '/');
      Some(DropHtmlExt(previous))
    else
      None
  }

  /** `output_path / f"{filename}.md"`, as the name inside the output directory. */
  function OutputFileName(url: string): (name: Option<string>)
    ensures name.None? <==> url == ""
    ensures name.Some? ==> '/' !in name.value
    ensures name.Some? ==> |name.value| >= 3 && name.value[|name.value| - 3..] == ".md"
    ensures name.Some? ==> FileStem(url).Some? && name.value == FileStem(url).value + ".md"
  {
    match FileStem(url)
    case None => None
    case Some(stem) => Some(stem + ".md")
  }

  /** A character `s` lacks is not brought in by `replace(pat, "")`. */
  lemma RemoveAllKeepsOut(s: string, pat: string, c: char)
    requires |pat| > 0 && c !in s
    ensures c !in RemoveAll(s, pat)
  {
    RemoveAllOnlyDeletes(s, pat);
    assert multiset(s)[c] == 0;
  }

  /** A URL whose last segment is not empty is named after that segment. */
  lemma StemOfLastSegment(path: string, page: string)
    requires page != "" && '/' !in page
    ensures FileStem(path + "/" + page) == Some(DropHtmlExt(page))
  {
    SplitConcat(path, page, '/');
    SplitNoSeparator(page, '/');
  }

  /** A URL without any slash is named after itself. */
  lemma StemOfSingleSegment(page: string)
    requires page != "" && '/' !in page
    ensures FileStem(page) == Some(DropHtmlExt(page))
  {
    SplitNoSeparator(page, '/');
  }

  /**
    A URL that ends in a slash is named after the segment before that slash,
    which may be empty: "/" and "a//" both give the stem "".
   */
  lemma StemOfTrailingSlash(prefix: string, dir: string)
    requires prefix == "" || prefix[|prefix| - 1] == '/'
    requires '/' !in dir
    ensures FileStem(prefix + dir + "/") == Some(DropHtmlExt(dir))
  {
    SplitConcat(dir, "", '/');
    SplitNoSeparator(dir, '/');
    assert dir + "/" == dir + "/" + "";
    if prefix == "" {
      assert prefix + dir + "/" == dir + "/" + "";
    } else {
      var path := prefix[..|prefix| - 1];
      var tail := dir + "/" + "";
      assert prefix + dir + "/" == path + "/" + tail;
      SplitConcat(path, tail, '/');
      var segments := Split(path, '/') + ([dir] + [""]);
      assert segments[|segments| - 1] == "" && segments[|segments| - 2] == dir;
    }
  }

  /** The output file of a page URL is its last segment, without the HTML ending, plus ".md". */
  lemma PageFileName(path: string, page: string)
    requires page != "" && '/' !in page && '.' !in page
    ensures OutputFileName(path + "/" + page + ".html") == Some(page + ".md")
    ensures OutputFileName(path + "/" + page + ".htm") == Some(page + ".md")
    ensures OutputFileName(path + "/" + page) == Some(page + ".md")
  {
    assert path + "/" + page + ".html" == path + "/" + (page + ".html");
    assert path + "/" + page + ".htm" == path + "/" + (page + ".htm");
    StemOfLastSegment(path, page + ".html");
    StemOfLastSegment(path, page + ".htm");
    StemOfLastSegment(path, page);
    HtmlExtensionsDropped(page);
    NoFirstCharNoChange(page, ".html");
    NoFirstCharNoChange(page, ".htm");
  }

  /** The output file of a directory URL ending in "/" is named after that directory. */
  lemma DirectoryFileName(prefix: string, dir: string)
    requires prefix == "" || prefix[|prefix| - 1] == '/'
    requires '/' !in dir
    ensures OutputFileName(prefix + dir + "/") == Some(DropHtmlExt(dir) + ".md")
  {
    StemOfTrailingSlash(prefix, dir);
  }

  /** The `.html` and `.htm` endings are removed from a name without dots. */
  lemma HtmlExtensionsDropped(name: string)
    requires '.' !in name
    ensures DropHtmlExt(name + ".html") == name
    ensures DropHtmlExt(name + ".htm") == name
  {
    assert RemoveAll(name + ".html", ".html") == name by {
      RemoveAllAfterPrefix(name, ".html", "");
      assert name + ".html" + "" == name + ".html";
      assert name + "" == name;
    }
    NoFirstCharNoChange(name, ".htm");
    assert RemoveAll(name + ".htm", ".html") == name + ".htm" by {
      RemoveAllSkipsPrefix(name, ".htm", ".html");
    }
    assert RemoveAll(name + ".htm", ".htm") == name by {
      RemoveAllAfterPrefix(name, ".htm", "");
      assert name + ".htm" + "" == name + ".htm";
      assert name + "" == name;
    }
  }

  /**
    The order of the two replacements matters: removing `.htm` first would
    turn `page.html` into `pagel`.
   */
  lemma ReversedReplacementsLeaveL(name: string)
    requires '.' !in name
    ensures RemoveAll(RemoveAll(name + ".html", ".htm"), ".html") == name + "l"
    ensures DropHtmlExt(name + ".html") != name + "l"
  {
    assert RemoveAll(name + ".html", ".htm") == name + "l" by {
      assert name + ".html" == name + ".htm" + "l";
      RemoveAllAfterPrefix(name, ".htm", "l");
    }
    assert '.' !in name + "l";
    NoFirstCharNoChange(name + "l", ".html");
    HtmlExtensionsDropped(name);
  }

  /** Every URL of the cleaned list has an output file name: the `IndexError` cannot happen. */
  lemma CleanedUrlsHaveNames(lines: seq<string>)
    ensures forall k :: 0 <= k < |CleanUrls(lines)| ==> OutputFileName(CleanUrls(lines)[k]).Some?
  {
  }
}
