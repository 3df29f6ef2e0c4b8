/**
  The bookkeeping of the `Driver` class in visual-testing/driver_functions.js:
  which anchors `getLinks` keeps, the folder name `takeScreenshot` derives from a
  pathname, how many screenshots its scroll loop writes, and which diff files
  `compareScreenshots` writes. The browser (anchor hrefs, page and window heights)
  and pixelmatch (a differing-pixel count per file) are parameters.
*/
module DriverFunctions {
  import opened Wrappers
  import opened Strings
  import Url

  /** The `blacklistSinglePaths` and `blacklistChildrenPaths` lists of the configuration. */
  datatype Blacklist = Blacklist(singlePaths: seq<string>, childrenPaths: seq<string>)

  // ---------------------------------------------------------------------------------------------
  // getLinks
  // ---------------------------------------------------------------------------------------------

  /** `href.split('?')[0].split('#')[0]`: the href up to its first '?' and then up to its first '#'. */
  function StripQueryAndFragment(href: string): (r: string)
    ensures '?' !in r && '#' !in r
    ensures r <= href
    ensures '?' !in href && '#' !in href ==> r == href
  {
    var noQuery := PrefixBefore(href, '?');
    var r := PrefixBefore(noQuery, '#');
    assert forall i :: 0 <= i < |r| ==> r[i] == noQuery[i];
    r
  }

  /** `if (href[href.length - 1] !== '/') href += '/'`. */
  function WithTrailingSlash(href: string): (r: string)
    ensures |r| > 0 && r[|r| - 1] == '/'
    ensures |href| > 0 && href[|href| - 1] == '/' ==> r == href
    ensures !(|href| > 0 && href[|href| - 1] == '/') ==> r == href + "/"
  {
    if |href| > 0 && href[|href| - 1] == '/' then href else href + "/"
  }

  /**
    The children rule as written: some entry occurs as a substring of the pathname
    (`pathname.includes(path)`) without being the pathname itself (`pathname !== path`).
  */
  predicate IsBlacklistedChild(pathname: string, childrenPaths: seq<string>) {
    exists entry :: entry in childrenPaths && Contains(pathname, entry) && pathname != entry
  }

  /**
    The test at driver_functions.js:123-139 on a stripped href: same hostname as the
    driver's URL, a pathname other than the driver's, not in the single-path list,
    and not caught by the children rule.
  */
  predicate Eligible(href: string, base: string, blacklist: Blacklist) {
    var pathname := Url.Pathname(href);
    && Url.Hostname(href) == Url.Hostname(base)
    && pathname != Url.Pathname(base)
    && pathname !in blacklist.singlePaths
    && !IsBlacklistedChild(pathname, blacklist.childrenPaths)
  }

  /** What one anchor's `href` attribute adds to `hrefs`: nothing for null or "", else the stripped href with a slash if eligible. */
  function Candidate(anchor: Option<string>, base: string, blacklist: Blacklist): Option<string> {
    match anchor
    case None => None
    case Some(href) =>
      if href == "" then None
      else
        var stripped := StripQueryAndFragment(href);
        if Eligible(stripped, base, blacklist) then Some(WithTrailingSlash(stripped)) else None
  }

  /** The array `hrefs` after the for-loop over `anchors`. */
  function Candidates(anchors: seq<Option<string>>, base: string, blacklist: Blacklist): seq<string> {
    Keep(anchors, a => Candidate(a, base, blacklist))
  }

  /** What `getLinks` returns for a page whose anchors carry `anchors`, on a driver for `base`. */
  function EligibleLinks(anchors: seq<Option<string>>, base: string, blacklist: Blacklist): seq<string> {
    Dedup(Candidates(anchors, base, blacklist))
  }

  /** The inner for-loop of `getLinks` over `blacklistChildrenPaths`. */
  method IsChild(pathname: string, childrenPaths: seq<string>) returns (isChild: bool)
    ensures isChild <==> IsBlacklistedChild(pathname, childrenPaths)
  {
    isChild := false;
    for j := 0 to |childrenPaths|
      invariant isChild <==> exists t :: 0 <= t < j && Contains(pathname, childrenPaths[t]) && pathname != childrenPaths[t]
    {
      if Contains(pathname, childrenPaths[j]) && pathname != childrenPaths[j] {
        isChild := true;
      }
    }
    if IsBlacklistedChild(pathname, childrenPaths) {
      var entry :| entry in childrenPaths && Contains(pathname, entry) && pathname != entry;
      var t :| 0 <= t < |childrenPaths| && childrenPaths[t] == entry;
    }
  }

  /** One pass of the outer for-loop of `getLinks`: the href the anchor adds, if any. */
  method CheckAnchor(anchor: Option<string>, base: string, blacklist: Blacklist) returns (added: Option<string>)
    ensures added == Candidate(anchor, base, blacklist)
  {
    added := None;
    if anchor.Some? && anchor.value != "" {
      var href := StripQueryAndFragment(anchor.value);
      var pathname := Url.Pathname(href);
      if Url.Hostname(href) == Url.Hostname(base) && pathname != Url.Pathname(base) && pathname !in blacklist.singlePaths {
        var isChild := IsChild(pathname, blacklist.childrenPaths);
        if !isChild {
          href := WithTrailingSlash(href);
          added := Some(href);
        }
      }
    }
  }

  /** `getLinks(blacklistPaths, blacklistChildrenPaths)` on a page with the given anchor `href` attributes. */
  method GetLinks(anchors: seq<Option<string>>, base: string, blacklist: Blacklist) returns (links: seq<string>)
    ensures links == EligibleLinks(anchors, base, blacklist)
  {
    var hrefs: seq<string> := [];
    for k := 0 to |anchors|
      invariant hrefs == Candidates(anchors[..k], base, blacklist)
    {
      assert anchors[..k + 1][..k] == anchors[..k];
      var added := CheckAnchor(anchors[k], base, blacklist);
      if added.Some? {
        hrefs := hrefs + [added.value];
      }
    }
    assert anchors[..|anchors|] == anchors;
    links := Dedup(hrefs);
  }

  /** Every element of `Candidates` comes from one anchor, and every accepted anchor contributes. */
  lemma CandidatesMembership(anchors: seq<Option<string>>, base: string, blacklist: Blacklist, x: string)
    ensures x in Candidates(anchors, base, blacklist) <==>
            exists k :: 0 <= k < |anchors| && Candidate(anchors[k], base, blacklist) == Some(x)
  {
    KeepMember(anchors, a => Candidate(a, base, blacklist), x);
  }

  /** The links returned are exactly the normalised hrefs of the anchors that pass every rule. */
  lemma LinksAreEligibleAnchors(anchors: seq<Option<string>>, base: string, blacklist: Blacklist, x: string)
    ensures x in EligibleLinks(anchors, base, blacklist) <==>
            exists k :: 0 <= k < |anchors| && anchors[k].Some? && anchors[k].value != "" &&
                        Eligible(StripQueryAndFragment(anchors[k].value), base, blacklist) &&
                        x == WithTrailingSlash(StripQueryAndFragment(anchors[k].value))
  {
    DedupMember(Candidates(anchors, base, blacklist), x);
    CandidatesMembership(anchors, base, blacklist, x);
  }

  /** Every returned link has no query or fragment and ends in '/'. */
  lemma LinksAreNormalised(anchors: seq<Option<string>>, base: string, blacklist: Blacklist, x: string)
    requires x in EligibleLinks(anchors, base, blacklist)
    ensures '?' !in x && '#' !in x
    ensures |x| > 0 && x[|x| - 1] == '/'
  {
    LinksAreEligibleAnchors(anchors, base, blacklist, x);
  }

  /** The returned links are duplicate-free and keep the order in which anchors first produced them. */
  lemma LinksDistinctInFirstOrder(anchors: seq<Option<string>>, base: string, blacklist: Blacklist, i: nat, j: nat)
    requires i < j < |EligibleLinks(anchors, base, blacklist)|
    ensures Distinct(EligibleLinks(anchors, base, blacklist))
    ensures var all := Candidates(anchors, base, blacklist);
            var links := EligibleLinks(anchors, base, blacklist);
            links[i] in all && links[j] in all && FirstIndex(all, links[i]) < FirstIndex(all, links[j])
  {
    DedupDistinct(Candidates(anchors, base, blacklist));
    DedupKeepsFirstOccurrenceOrder(Candidates(anchors, base, blacklist), i, j);
  }

  /** An entry's own path is not caught by the children rule. */
  lemma EntryItselfPasses(entry: string)
    ensures !IsBlacklistedChild(entry, [entry])
  {
  }

  /**
    The children rule as written catches every pathname that contains an entry and is
    longer than it: the entry's children, but also "/blogger" or "/news/blog" for "/blog".
  */
  lemma ContainingPathIsChild(before: string, entry: string, after: string, childrenPaths: seq<string>)
    requires entry in childrenPaths
    requires |before| + |after| > 0
    ensures IsBlacklistedChild(before + entry + after, childrenPaths)
  {
    var pathname := before + entry + after;
    assert pathname[|before|..|before| + |entry|] == entry;
    OccurrenceIsContained(pathname, entry, |before|);
    assert |pathname| != |entry|;
  }

  /** "/blogger" is caught by the entry "/blog", though it is no child of it. */
  lemma BloggerIsCaught()
    ensures IsBlacklistedChild("/blogger", ["/blog"])
  {
    ContainingPathIsChild("", "/blog", "ger", ["/blog"]);
    assert "" + "/blog" + "ger" == "/blogger";
  }

  lemma OccurrenceIsContained(s: string, p: string, j: nat)
    requires OccursAt(s, p, j)
    ensures Contains(s, p)
  {
  }

  // ---------------------------------------------------------------------------------------------
  // takeScreenshot
  // ---------------------------------------------------------------------------------------------

  /** `urlToDir`: "home" for the root path, otherwise the path without its first character, '/' turned into '_'. */
  function UrlToDir(pathname: string): (dir: string)
    ensures '/' !in dir
  {
    if pathname == "/" then "home" else ReplaceAllChar(Substring(pathname, 1, |pathname|), '/', '_')
  }

  /** Apart from the root, the folder name is the path character by character, with every '/' read as '_'. */
  lemma UrlToDirShape(pathname: string)
    requires |pathname| > 0 && pathname != "/"
    ensures |UrlToDir(pathname)| == |pathname| - 1
    ensures forall i :: 0 <= i < |pathname| - 1 ==>
              UrlToDir(pathname)[i] == if pathname[i + 1] == '/' then '_' else pathname[i + 1]
  {
    var rest := pathname[1..];
    assert Substring(pathname, 1, |pathname|) == rest;
    forall i | 0 <= i < |rest| ensures ReplaceAllChar(rest, '/', '_')[i] == if rest[i] == '/' then '_' else rest[i] {
      ReplaceAllCharAt(rest, '/', '_', i);
    }
  }

  lemma {:induction false} ReplaceAllCharAt(s: string, c: char, d: char, i: nat)
    requires i < |s|
    ensures ReplaceAllChar(s, c, d)[i] == if s[i] == c then d else s[i]
  {
    if i > 0 {
      ReplaceAllCharAt(s[1..], c, d, i - 1);
    }
  }

  /** Different pages can share a folder: the root and "/home", and "/a/b" and "/a_b". */
  lemma UrlToDirCollisions()
    ensures UrlToDir("/") == UrlToDir("/home")
    ensures UrlToDir("/a/b") == UrlToDir("/a_b")
  {
    assert Substring("/home", 1, 5) == "home";
    assert ReplaceAllChar("home", '/', '_') == "home";
    assert Substring("/a/b", 1, 4) == "a/b";
    assert Substring("/a_b", 1, 4) == "a_b";
    ReplaceAllCharAt("a/b", '/', '_', 1);
    assert ReplaceAllChar("a/b", '/', '_') == "a_b";
    assert ReplaceAllChar("a_b", '/', '_') == "a_b";
  }

  /** `'images/' + dir + '/' + urlToDir`: the folder the screenshots of `url` go to. */
  function ScreenshotFolder(dir: string, url: string): string {
    "images/" + dir + "/" + UrlToDir(Url.Pathname(url))
  }

  /** One pass of the scroll-and-capture loop: the scroll offset and the file written there. */
  datatype Capture = Capture(scrollY: int, file: string)

  /** `image_${i}.png` */
  function ImageName(i: nat): string {
    "image_" + DecimalString(i) + ".png"
  }

  /**
    The loop at driver_functions.js:92-104 for a page `height` pixels high in a window
    `windowHeight` pixels high: scroll to 0, h, 2h, ... while the offset is below the height.
  */
  method CaptureScreens(height: int, windowHeight: int) returns (shots: seq<Capture>)
    requires windowHeight > 0
    ensures height <= 0 ==> shots == []
    ensures height > 0 ==> |shots| == (height + windowHeight - 1) / windowHeight
    ensures forall i :: 0 <= i < |shots| ==> shots[i] == Capture(i * windowHeight, ImageName(i))
    ensures forall i :: 0 <= i < |shots| ==> shots[i].scrollY < height
    ensures |shots| * windowHeight >= height
  {
    var y, i := 0, 0;
    shots := [];
    while y < height
      invariant y == i * windowHeight
      invariant |shots| == i
      invariant forall k :: 0 <= k < i ==> shots[k] == Capture(k * windowHeight, ImageName(k))
      invariant forall k :: 0 <= k < i ==> shots[k].scrollY < height
      invariant i > 0 ==> (i - 1) * windowHeight < height
      decreases height - y
    {
      shots := shots + [Capture(y, ImageName(i))];
      i := i + 1;
      y := y + windowHeight;
    }
    if height > 0 {
      assert i > 0;
      CeilDivUnique(height, windowHeight, i);
    } else {
      assert i == 0;
    }
  }

  lemma MulMonotone(a: int, b: int, h: int)
    requires h > 0
    ensures a * h < b * h ==> a < b
  {
    if a >= b {
      assert a * h - b * h == (a - b) * h;
    }
  }

  /** The number of windows that cover `n` pixels is `ceil(n / h)`. */
  lemma CeilDivUnique(n: int, h: int, i: int)
    requires h > 0 && n > 0
    requires (i - 1) * h < n <= i * h
    ensures i == (n + h - 1) / h
  {
    var q := (n + h - 1) / h;
    assert q * h <= n + h - 1 < (q + 1) * h;
    assert i * h == (i - 1) * h + h;
    assert (i + 1) * h == i * h + h;
    MulMonotone(i, q + 1, h);
    MulMonotone(q, i + 1, h);
  }

  // ---------------------------------------------------------------------------------------------
  // compareScreenshots
  // ---------------------------------------------------------------------------------------------

  /** `cacheFolderPath.replace('cache', '').replace(/\//g, '_')`: the prefix of every diff file name. */
  function DiffPrefix(cacheFolderPath: string): (r: string)
    ensures '/' !in r
    ensures |r| == if Contains(cacheFolderPath, "cache") then |cacheFolderPath| - 5 else |cacheFolderPath|
  {
    ReplaceAllChar(ReplaceFirst(cacheFolderPath, "cache", ""), '/', '_')
  }

  /**
    When "cache" first occurs after `a`, the prefix is `a + b` with every '/' read as '_':
    the first "cache" is removed wherever it lies.
  */
  lemma DiffPrefixShape(a: string, b: string)
    requires forall j :: 0 <= j < |a| ==> !OccursAt(a + "cache" + b, "cache", j)
    ensures var q := a + b;
            var r := DiffPrefix(a + "cache" + b);
            |r| == |q| && forall i :: 0 <= i < |q| ==> r[i] == if q[i] == '/' then '_' else q[i]
  {
    var p := a + "cache" + b;
    assert p[|a|..|a| + 5] == "cache";
    ReplaceFirstAt(p, "cache", "", |a|);
    assert p[..|a|] + "" + p[|a| + 5..] == a + b;
  }

  /** Without "cache" the prefix is the folder path with every '/' read as '_'. */
  lemma DiffPrefixWithoutCache(p: string)
    requires !Contains(p, "cache")
    ensures var r := DiffPrefix(p);
            |r| == |p| && forall i :: 0 <= i < |p| ==> r[i] == if p[i] == '/' then '_' else p[i]
  {
  }

  /**
    The folders `takeScreenshot` returns hold no "cache" unless the page path does, so the
    diff prefix of "images/dir/name" is "images_dir_name".
  */
  lemma DiffPrefixOfFolder(dir: string, name: string)
    requires '/' !in dir && '/' !in name
    requires !Contains("images/" + dir + "/" + name, "cache")
    ensures DiffPrefix("images/" + dir + "/" + name) == "images_" + dir + "_" + name
  {
    var p := "images/" + dir + "/" + name;
    var r := DiffPrefix(p);
    var target := "images_" + dir + "_" + name;
    assert ReplaceFirst(p, "cache", "") == p;
    assert |r| == |target|;
    forall i | 0 <= i < |p| ensures r[i] == target[i] {
      if i < 6 {
        assert p[i] == "images"[i] == target[i];
      } else if i == 6 {
        assert p[i] == '/' && target[i] == '_';
      } else if i < 7 + |dir| {
        assert p[i] == dir[i - 7] == target[i];
      } else if i == 7 + |dir| {
        assert p[i] == '/' && target[i] == '_';
      } else {
        assert p[i] == name[i - 8 - |dir|] == target[i];
      }
    }
  }

  /** The screenshots of `url` taken for `dir` give diff names starting "images_dir_" and the folder name. */
  lemma DiffPrefixOfScreenshots(dir: string, url: string)
    requires '/' !in dir
    requires !Contains(ScreenshotFolder(dir, url), "cache")
    ensures DiffPrefix(ScreenshotFolder(dir, url)) == "images_" + dir + "_" + UrlToDir(Url.Pathname(url))
  {
    DiffPrefixOfFolder(dir, UrlToDir(Url.Pathname(url)));
  }

  /** The diff files written for `files`: those also in the destination folder whose pixel count is positive. */
  function DiffFiles(prefix: string, files: seq<string>, destinationFiles: seq<string>, numDiffPixels: string -> nat): seq<string> {
    if |files| == 0 then []
    else
      var init := DiffFiles(prefix, files[..|files| - 1], destinationFiles, numDiffPixels);
      var file := files[|files| - 1];
      if file in destinationFiles && numDiffPixels(file) > 0 then init + ["diff/" + prefix + file] else init
  }

  /**
    `compareScreenshots(cacheFolderPath, destinationFolderPath)` for the listed folder
    contents, where `numDiffPixels(file)` is pixelmatch's count for the two copies of `file`.
  */
  method CompareScreenshots(cacheFolderPath: string, cacheFiles: seq<string>, destinationFiles: seq<string>,
                            numDiffPixels: string -> nat) returns (written: seq<string>)
    ensures written == DiffFiles(DiffPrefix(cacheFolderPath), cacheFiles, destinationFiles, numDiffPixels)
  {
    var rename := DiffPrefix(cacheFolderPath);
    written := [];
    for k := 0 to |cacheFiles|
      invariant written == DiffFiles(rename, cacheFiles[..k], destinationFiles, numDiffPixels)
    {
      assert cacheFiles[..k + 1][..k] == cacheFiles[..k];
      var file := cacheFiles[k];
      if file in destinationFiles {
        var count := numDiffPixels(file);
        if count > 0 {
          written := written + ["diff/" + rename + file];
        }
      }
    }
    assert cacheFiles[..|cacheFiles|] == cacheFiles;
  }

  /** A diff file is written for a screenshot exactly when both folders hold it and it differs. */
  lemma {:induction false} DiffFilesMembership(prefix: string, files: seq<string>, destinationFiles: seq<string>,
                                               numDiffPixels: string -> nat, x: string)
    ensures x in DiffFiles(prefix, files, destinationFiles, numDiffPixels) <==>
            exists f :: f in files && f in destinationFiles && numDiffPixels(f) > 0 && x == "diff/" + prefix + f
  {
    if |files| > 0 {
      var init := files[..|files| - 1];
      DiffFilesMembership(prefix, init, destinationFiles, numDiffPixels, x);
      assert files == init + [files[|files| - 1]];
    }
  }
}
