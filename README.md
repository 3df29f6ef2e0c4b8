# web-differences in Dafny

web-differences compares two deployments of a web site (an *origin* and a *destination*)
screenshot by screenshot. It has two generations of code:

- **visual-testing/** — a JavaScript script. It crawls the origin breadth-first from its
  root URL. For every page it visits the destination twin (same URL, destination host),
  screenshots both, compares the screenshots, and queues the page's eligible links.
- **src/** — a TypeScript tool. It reads a cached page list, or tries to crawl; splits the
  list into one chunk per core; and has a `Navigator` per chunk visit each page and its
  twin, screenshot both, compare them with an `Auditor`, and delete the screenshots.

The model covers the bookkeeping of both. The browser, the image libraries and the clock
are function-typed parameters.

| module | file | models |
|---|---|---|
| `Wrappers` | wrappers.dfy | `Option`, `Result` |
| `Strings` | strings.dfy | the JavaScript string and array primitives the code relies on (`indexOf`, `includes`, `replace` with a string pattern and its '$' patterns in the replacement, `replace(/c/g, …)`, `lastIndexOf`, `substring`, `slice`, `split(c)[0]`, the `filter`-by-`indexOf` de-duplication, `map`-then-`filter`) |
| `Url` | url.dfy | `host`, `hostname`, `pathname` of an absolute URL |
| `Utils` | utils.dfy | `validateLink`: the regular expression as a recogniser |
| `DriverFunctions` | driver_functions.dfy | `Driver.getLinks`, `urlToDir`, the scroll-and-capture loop, `compareScreenshots` |
| `ImgDiff` | crawler.dfy | the do/while crawl of imgdiff.js, `decrementDepth`, the destination host substitution |
| `Types` | types.dfy | `Browser`, `DEVICE_WIDTH` of src/types.ts |
| `MainScript` | main_script.dfy | `DEVICE()`, `BROWSER()`, the cache-or-crawl decision, the chunk partition |
| `Navigation` | navigation.dfy | `Navigator`: constructor and `run()` |
| `Audit` | audit.dfy | `Auditor.compareImages` |
| `WebDriverSession` | web_driver.dfy | `initializeWebDriver`, `visitURL` (its commands, cookie flag and window width, and a rejecting browser call), `getAllLinks` |

The stateful parts are classes whose methods are proved against specification
functions:

- `ImgDiff.Crawler` follows `ImgDiff.NextState` and `ImgDiff.Crawl`.
- `Navigation.Navigator` follows `Navigation.NextPass` and `Navigation.Drain`.
- `WebDriverSession.WebDriver` follows `WebDriverSession.Visit`.
- `DriverFunctions.GetLinks` follows `DriverFunctions.EligibleLinks`.
- `MainScript.Partition` writes an array that meets `MainScript.IsChunkTable`.

The lemmas are stated about those functions.

Behaviour of the code as written, kept in the model:

- The children blacklist is a substring test that spares the entry itself. An entry
  "/blog" therefore rejects "/blogger" and "/x/blog" but not "/blog"
  (`DriverFunctions.BloggerIsCaught`, `DriverFunctions.ContainingPathIsChild`,
  `DriverFunctions.EntryItselfPasses`).
- In imgdiff.js the `filter` over `originLinks` builds a result that is thrown away. The
  queue is merged with all of the page's links, visited or not
  (`ImgDiff.RecordPassQueue`).
- Nothing pushes onto `depthArray`, so `depthVisited` stays 0. With a positive `depth`
  the loop condition stays true once the queue is empty. The next `shift()` then gives
  `undefined`, and `new URL(undefined)` throws. So a positive depth always ends the crawl
  that way when every browser call returns (`ImgDiff.PositiveDepthAborts`). A depth of 0 or less drains the queue normally
  (`ImgDiff.NonPositiveDepthFinishes`).
- `originURL.href.replace(originURL.host, …)` replaces the first occurrence of the host
  text. That occurrence can be inside the scheme: for the host "h", "http://h/" becomes
  "xttp://h/" (`ImgDiff.DestinationHostInScheme`).
- `urlToDir` maps different pages to one folder: "/" and "/home", and "/a/b" and "/a_b"
  (`DriverFunctions.UrlToDirCollisions`).
- Inside the regular expression's last character class, `s` stands for the letter s,
  not whitespace. "https://site.com/posts" is therefore rejected
  (`Utils.RejectsTrailingS`). `validateLink` in imgdiff.js:161-165 spells the same
  pattern with string escapes and recognises the same language.
- `new Array(chunkSize)` in main.ts is filled at indices 1..CORES only. Index 0 is a hole
  that `forEach` skips, so every core gets one chunk, empty or not
  (`MainScript.WorkersGetChunks`).
- When the cache is empty or unreadable, main.ts calls `crawl()` on a `Crawler` that has
  no such method, so `main()` rejects (`MainScript.PagesToNavigate`).
- `Navigator.run` is a do/while loop. On an empty queue it reads `href` of `undefined`
  and throws (`Navigation.Drain`, outcome `EmptyQueue`).
- `Navigator.run` takes both screenshots before its `try`. When the destination's rejects,
  `run()` rejects and the `finally` never removes the origin screenshot
  (`Navigation.DestinationShotLeavesOrigin`, outcome `ScreenshotFailed`).

## Model

| member | source | states |
|---|---|---|
| Strings.IndexOf | visual-testing/driver_functions.js:133 | the search behind `includes` and `replace`: -1 when `p` occurs nowhere, else the first index at which `p` occurs |
| Strings.Substitution | src/Navigator.ts:55-58 | the replacement text `replace` inserts: a `q` without '$' is inserted as it is |
| Strings.SubstitutionPatterns | src/Navigator.ts:55-58 | "$$" gives '$', "$&" the matched text, "$`" the text before the match, "$'" the text after it; '$' before any other character stays |
| Strings.SubstitutionLiteralPrefix | src/Navigator.ts:55-58 | a '$'-free start of the replacement is inserted as it is, whatever follows it |
| Strings.ReplaceFirst | src/Navigator.ts:55-58 | with no occurrence of the pattern the string is unchanged; otherwise, for a `q` without '$', the length grows by the length of `q` less that of `p` |
| Strings.ReplaceFirstAt | visual-testing/imgdiff.js:89 | when `p` first occurs at `k`, `replace` yields the text before `k`, then `q` with its '$' patterns expanded against that match, then the text after it; `q` itself when it has no '$' |
| Strings.ReplaceAllChar | visual-testing/driver_functions.js:72 | same length; every `c` becomes `d` and every other character is kept; no `c` left when `c != d` |
| Strings.LastIndexOfChar | src/Auditor.ts:64 | the last index holding `c`, or -1 when there is none |
| Strings.Substring | src/Auditor.ts:64-68 | in-range ends give the slice between them in either order; an end past the string stops at its end; two non-positive ends give the empty string; never longer than the string |
| Strings.Slice | src/main.ts:137-139 | clamped bounds; an in-range slice is the subsequence `xs[start..end]` |
| Strings.SliceConcat | src/main.ts:136-142 | adjacent slices concatenate to the slice spanning both |
| Strings.PrefixBefore | visual-testing/driver_functions.js:118 | the longest prefix without `c`; the whole string when there is no `c`; otherwise it stops at the first `c` |
| Strings.Dedup | visual-testing/driver_functions.js:152-154 | the de-duplicated sequence is never longer than its input |
| Strings.DedupMember | visual-testing/driver_functions.js:152-154 | de-duplication keeps exactly the elements of the input |
| Strings.DedupElements | visual-testing/imgdiff.js:120 | the same for every element at once |
| Strings.DedupDistinct | visual-testing/driver_functions.js:152-154 | the result has no duplicates |
| Strings.DedupOfDistinct | visual-testing/imgdiff.js:120 | a duplicate-free sequence is left unchanged |
| Strings.DedupKeepsDistinctPrefix | visual-testing/imgdiff.js:120 | de-duplicating a duplicate-free queue followed by new elements keeps the queue as a prefix |
| Strings.FirstIndex | visual-testing/driver_functions.js:153 | the first index at which `x` occurs |
| Strings.DedupKeepsFirstOccurrenceOrder | visual-testing/driver_functions.js:152-154 | elements come out in the order of their first occurrences |
| Strings.KeepMember | src/WebDriver.ts:187-195 | `map` then dropping nulls keeps exactly the values some element maps to |
| Strings.KeepAppend | src/WebDriver.ts:187-195 | `map`-then-filter of a concatenation is the concatenation of the results, so order is kept |
| Strings.DecimalString | src/WebDriver.ts:212-215 | the decimal text of a number is non-empty and all digits |
| Url.Host | visual-testing/imgdiff.js:89 | the host holds no '/' |
| Url.Hostname | visual-testing/driver_functions.js:123 | the hostname is a prefix of the host holding neither '/' nor ':' |
| Url.Pathname | visual-testing/driver_functions.js:124 | the pathname of an absolute URL is non-empty and starts with '/' |
| Url.HostFollowsScheme | visual-testing/imgdiff.js:89 | the host occurs right after the first "://" |
| Utils.ValidateLink | src/utils.ts:39-44 | true exactly when the link is in the language of the regular expression, spelled out as a split into scheme, host, any character, 2-3 letters, port, slash, path and final character |
| Utils.AfterSchemeOkIff | src/utils.ts:41 | the split search `ValidateLink` makes finds a split exactly when the expression matches |
| Utils.SearchSplitMatches | src/utils.ts:41 | a split the search finds is a match of the expression |
| Utils.MatchIsFound | src/utils.ts:41 | every match of the expression is found by the search |
| Utils.AcceptedHasWebScheme | src/utils.ts:41 | accepted links start with "http://" or "https://" |
| Utils.AcceptedFinalChar | src/utils.ts:41 | an accepted link ends in a character other than '.', ',', ')', '(' and 's' |
| Utils.RejectsTrailingS | src/utils.ts:41 | "https://site.com/posts" is rejected |
| Utils.AcceptsSitePost | src/utils.ts:41 | "https://site.com/post" is accepted |
| DriverFunctions.StripQueryAndFragment | visual-testing/driver_functions.js:118 | the result is a prefix of the href with no '?' and no '#'; an href with neither is unchanged |
| DriverFunctions.WithTrailingSlash | visual-testing/driver_functions.js:141-143 | the result ends in '/'; a '/' is appended exactly when the href did not end in one |
| DriverFunctions.IsChild | visual-testing/driver_functions.js:127-137 | the flag is set exactly when some children entry occurs in the pathname and differs from it |
| DriverFunctions.CheckAnchor | visual-testing/driver_functions.js:113-147 | one anchor adds its normalised href exactly when the href is non-empty and passes the host, own-path, single and children rules |
| DriverFunctions.GetLinks | visual-testing/driver_functions.js:109-155 | the loop returns the de-duplicated list of what the anchors add, in anchor order |
| DriverFunctions.CandidatesMembership | visual-testing/driver_functions.js:112-149 | an href is pushed exactly when some anchor adds it |
| DriverFunctions.LinksAreEligibleAnchors | visual-testing/driver_functions.js:109-155 | a link is returned exactly when some non-null, non-empty anchor href is eligible and normalises to it |
| DriverFunctions.LinksAreNormalised | visual-testing/driver_functions.js:118-143 | every returned link has no '?' and no '#' and ends with '/' |
| DriverFunctions.LinksDistinctInFirstOrder | visual-testing/driver_functions.js:152-154 | returned links are duplicate-free and appear in the order anchors first produced them |
| DriverFunctions.EntryItselfPasses | visual-testing/driver_functions.js:133 | for every entry, with a one-entry children list, the entry's own path is not rejected |
| DriverFunctions.ContainingPathIsChild | visual-testing/driver_functions.js:133 | every strictly longer path containing an entry is rejected |
| DriverFunctions.BloggerIsCaught | visual-testing/driver_functions.js:133 | example: "/blogger" is rejected by the entry "/blog" |
| DriverFunctions.UrlToDir | visual-testing/driver_functions.js:71-72 | a folder name holds no '/' |
| DriverFunctions.UrlToDirShape | visual-testing/driver_functions.js:71-72 | apart from "/", the folder is the path minus its first character, with each '/' read as '_' |
| DriverFunctions.UrlToDirCollisions | visual-testing/driver_functions.js:71-72 | "/" and "/home" share a folder, and so do "/a/b" and "/a_b" |
| DriverFunctions.CaptureScreens | visual-testing/driver_functions.js:92-104 | `ceil(height / h)` captures for a positive height, none otherwise; capture `i` is at offset `i*h` into `image_i.png`, every offset is below the height, and together they cover it |
| DriverFunctions.CeilDivUnique | visual-testing/driver_functions.js:92 | the loop's iteration count is the only `i` with `(i-1)*h < n <= i*h` |
| DriverFunctions.DiffPrefix | visual-testing/driver_functions.js:165 | the diff-name prefix holds no '/'; it is five characters shorter than the folder path exactly when the path contains "cache" |
| DriverFunctions.DiffPrefixShape | visual-testing/driver_functions.js:165 | the first "cache" is removed wherever it lies, and every '/' of what remains becomes '_', every other character kept |
| DriverFunctions.DiffPrefixWithoutCache | visual-testing/driver_functions.js:165 | without "cache" the prefix is the path with every '/' read as '_' |
| DriverFunctions.DiffPrefixOfFolder | visual-testing/driver_functions.js:165 | for a folder "images/dir/name" without "cache" the prefix is "images_dir_name" |
| DriverFunctions.DiffPrefixOfScreenshots | visual-testing/imgdiff.js:104-107 | the folder `takeScreenshot` returns ("images/", the directory, '/', the `urlToDir` name) gives the prefix "images_", the directory, '_' and that name, unless it contains "cache" |
| DriverFunctions.CompareScreenshots | visual-testing/driver_functions.js:163-182 | the diff files written are those of `DiffFiles`, in folder order |
| DriverFunctions.DiffFilesMembership | visual-testing/driver_functions.js:170-180 | a diff file is written exactly for a screenshot present in both folders with a positive diff count |
| ImgDiff.DestinationUrl | visual-testing/imgdiff.js:88-90 | for a destination host without '$', the destination URL's length is the origin's minus the origin host's plus the destination host's |
| ImgDiff.HostOccurs | visual-testing/imgdiff.js:89 | the host of a URL always occurs in it |
| ImgDiff.DestinationAt | visual-testing/imgdiff.js:89 | the host's first occurrence, wherever it lies, is replaced by the destination host with its '$' patterns expanded; by the destination host itself when it has no '$' |
| ImgDiff.DestinationHostInScheme | visual-testing/imgdiff.js:89 | for "http://h/" the 'h' of the scheme is replaced, not the host |
| ImgDiff.AfterDecrement | visual-testing/imgdiff.js:151-159 | `decrementDepth` leaves queue, visited and comparisons alone and never lengthens `depthArray` |
| ImgDiff.DecrementOnEmpty | visual-testing/imgdiff.js:152 | with an empty `depthArray` nothing changes |
| ImgDiff.DecrementCountsLevel | visual-testing/imgdiff.js:153-157 | `depthVisited` goes up by one exactly when the head was 1, and then the head is gone; otherwise it stays |
| ImgDiff.NextState | visual-testing/imgdiff.js:85-131 | a pass exists exactly when the queue is non-empty (otherwise `shift()` gives undefined) |
| ImgDiff.InitialValid | visual-testing/imgdiff.js:75-79 | the start state holds the origin alone in the queue and satisfies the invariant |
| ImgDiff.SkipPass | visual-testing/imgdiff.js:97-101 | a pass whose landing page was visited changes nothing but dropping the front URL |
| ImgDiff.RecordPass | visual-testing/imgdiff.js:104-131 | a recording pass adds `actualLink` and `currentLink` to `visited`, appends one comparison, keeps the rest of the queue in front, and keeps the queue duplicate-free |
| ImgDiff.RecordPassQueue | visual-testing/imgdiff.js:114-120 | afterwards a URL is queued exactly when it was behind the front or is among the page's links, visited or not |
| ImgDiff.VisitedGrows | visual-testing/imgdiff.js:129-130 | `visited` never loses an element |
| ImgDiff.NextStateValid | visual-testing/imgdiff.js:85-131 | every pass keeps the invariant: distinct queue, no depth bookkeeping, compared pages visited and pairwise distinct |
| ImgDiff.StaysInSite | visual-testing/imgdiff.js:86-120 | in a closed site a pass lands inside the site and every URL it leaves queued is in the site |
| ImgDiff.Progress | visual-testing/imgdiff.js:85-131 | each pass either grows `visited` within the site or shortens the queue |
| ImgDiff.Crawl | visual-testing/imgdiff.js:85-132 | on any site with finitely many reachable pages the loop ends; `visited` only grows; a normal end has an empty queue and `depthVisited >= depth`; an aborted run also ends with an empty queue |
| ImgDiff.CrawlKeepsValid | visual-testing/imgdiff.js:85-132 | the invariant holds at the end: no landing page is compared twice |
| ImgDiff.PositiveDepthAborts | visual-testing/imgdiff.js:132-159 | with `depth > 0`, and every browser call returning, the run always ends in the `shift()` TypeError |
| ImgDiff.NonPositiveDepthFinishes | visual-testing/imgdiff.js:132 | with `depth <= 0` a non-empty queue is drained and the loop ends normally |
| ImgDiff.Crawler.constructor | visual-testing/imgdiff.js:75-79 | the script's variables start as `Initial(origin)` |
| ImgDiff.Crawler.DecrementDepth | visual-testing/imgdiff.js:151-159 | the fields become `AfterDecrement` of the old ones |
| ImgDiff.Crawler.Step | visual-testing/imgdiff.js:86-131 | a pass succeeds exactly on a non-empty queue and then yields `NextState`; otherwise nothing changes |
| ImgDiff.Crawler.Record | visual-testing/imgdiff.js:120-130 | the merge and the two `add`s give `Recorded` of the old state |
| ImgDiff.Crawler.Run | visual-testing/imgdiff.js:85-132 | the final fields and the outcome are those of `Crawl` from the initial fields |
| MainScript.Device | src/main.ts:32-43 | "tablet" and "mobile" select their classes; every other value, or none, selects the desktop |
| MainScript.DeviceByName | src/main.ts:32-43 | each device class is selected by its name and gets its pixel width |
| MainScript.BrowserFromEnv | src/main.ts:44-55 | "firefox" and "edge" select their browsers; every other value, or none, selects Chrome |
| MainScript.BrowserByValue | src/main.ts:44-55 | each browser is selected by its name |
| MainScript.PagesToNavigate | src/main.ts:71-129 | the cached list is used unchanged exactly when it was read and is non-empty; otherwise `main()` fails |
| MainScript.ChunkSize | src/main.ts:131 | `chunkSize` is the ceiling of `len / CORES`: it covers the list and is the least such number |
| MainScript.Chunks | src/main.ts:135-143 | there are `CORES` chunks |
| MainScript.Partition | src/main.ts:131-143 | the array has length `max(chunkSize, CORES+1)`, holds chunk `i` at each index 1..CORES and holes elsewhere, index 0 included |
| MainScript.WorkersGetChunks | src/main.ts:146 | `forEach` hands out exactly chunks 1..CORES, in order |
| MainScript.AssignedPrefix | src/main.ts:146 | the first `j` entries of such a table yield the first chunks |
| MainScript.ChunkBound | src/main.ts:139 | each chunk but the last holds at most `chunkSize` pages |
| MainScript.ChunksCoverPages | src/main.ts:134-143 | the chunks concatenated are the page list: every page once, order kept |
| MainScript.FirstChunks | src/main.ts:135-142 | the first `k` chunks are the first `k*chunkSize` pages |
| Navigation.Rebase | src/Navigator.ts:54-59 | a URL without the origin base is unchanged |
| Navigation.RebaseUnderBase | src/Navigator.ts:54-59 | a URL under the origin base moves under the destination base, its '$' patterns expanded, with its path kept; under the destination base itself when it has no '$' |
| Navigation.RebaseWithMatchPattern | src/Navigator.ts:54-59 | for every '$'-free base, a destination base ending in "$&" puts the origin base back in after it; for example "https://b.com/$&" turns "https://a.com/p" into "https://b.com/https://a.com/p" |
| Navigation.ScreenshotPathsDiffer | src/Navigator.ts:40-47 | origin and destination screenshots never share a path |
| Navigation.NextPass | src/Navigator.ts:53-88 | a pass removes the front URL; it stops exactly when a visit throws or a screenshot rejects, naming that URL as `VisitFailed` or `ScreenshotFailed`; files on disk grow only by an origin screenshot left behind when the destination's rejects |
| Navigation.Photographed | src/Navigator.ts:69-88 | the pass goes on as `Compared` exactly when both screenshots are written; a rejected origin screenshot leaves nothing on disk, a rejected destination screenshot leaves the origin file, and the queue, the pairs and the log are untouched |
| Navigation.Compared | src/Navigator.ts:69-88 | both screenshots are removed whatever the comparison does; the URL is added to the log exactly when the comparison throws; the URL pair is recorded; two screenshot numbers are used |
| Navigation.Drain | src/Navigator.ts:51-89 | the `EmptyQueue` outcome comes exactly on an empty queue; otherwise the run ends with an empty queue unless a visit threw or a screenshot rejected; files on disk grow at most by the one origin screenshot the rejected run leaves behind |
| Navigation.DrainVisitsAll | src/Navigator.ts:51-89 | when visits and screenshots succeed, a non-empty queue completes and every page is visited once, in order, with its rebased twin, even when comparisons throw |
| Navigation.DrainLogsThrown | src/Navigator.ts:51-89 | when visits and screenshots succeed, the log gains exactly the URLs whose comparison throws, in queue order |
| Navigation.DestinationShotLeavesOrigin | src/Navigator.ts:69-72 | when the origin screenshot is written and the destination's rejects, `run()` rejects with that URL and the origin file stays on disk |
| Navigation.DrainLogsQueuedUrls | src/Navigator.ts:80-84 | also when a visit throws or a screenshot rejects, the comparison log only gets appended to, and only with URLs from the queue |
| Navigation.Navigator.constructor | src/Navigator.ts:19-31 | the queue equals `pageQueue` in order |
| Navigation.Navigator.TakeScreenshot | src/WebDriver.ts:209-225 | the path is named after the clock; the file is added to disk exactly when the screenshot is written, and nothing is added when it rejects |
| Navigation.Navigator.Pass | src/Navigator.ts:53-88 | the fields become those of `NextPass`, and the result is the outcome of `run()` exactly when the pass stops it |
| Navigation.Navigator.CompareAndTidy | src/Navigator.ts:69-88 | the fields become those of `Photographed`, and the result is the `ScreenshotFailed` outcome exactly when a screenshot rejects |
| Navigation.Navigator.Run | src/Navigator.ts:51-89 | the final fields and the outcome are those of `Drain` |
| Audit.CropTop | src/Auditor.ts:30-43 | the crop keeps the width and the top `height` rows |
| Audit.MinHeight | src/Auditor.ts:27 | the new height is at most both heights and is one of them |
| Audit.CompareImages | src/Auditor.ts:20-81 | both crops have the minimum height and their own widths; the result is "same" exactly when pixelmatch counts 0; a diff file is written exactly when the count is positive, at `DiffPath(origin)`; a throwing pixelmatch fails the call |
| Audit.SameHeightKeepsRows | src/Auditor.ts:27-43 | images of equal height are compared uncropped |
| Audit.DiffPath | src/Auditor.ts:64-72 | the diff path starts with "images/diff/" and ends with "_diff.jpg" |
| Audit.DiffPathOfScreenshot | src/Auditor.ts:64-72 | for "dir/name.ext" the diff path is "images/diff/name_diff.jpg" |
| Audit.DiffPathWithoutDot | src/Auditor.ts:64-72 | with no '.' in the file name after the last '/' the stem is empty |
| WebDriverSession.BrowserOfValue | src/WebDriver.ts:14-18 | a string names a browser kind exactly when it is that kind's enumeration value |
| WebDriverSession.InitializeWebDriver | src/WebDriver.ts:58-121 | the three kinds build a driver with the six start arguments, the local Selenium server and a 100000 ms implicit wait; any other value throws "Unsupported browser type" |
| WebDriverSession.InitializeEachBrowser | src/WebDriver.ts:69-111 | each kind is built from its own value |
| WebDriverSession.WebDriver.Create | src/WebDriver.ts:38-56 | construction succeeds exactly when `initializeWebDriver` does, with cookies not yet set and no commands sent |
| WebDriverSession.WindowWidth | src/WebDriver.ts:152 | the width is the given one when positive, else 1920 |
| WebDriverSession.CookieCommands | src/WebDriver.ts:227-235 | one `addCookie` per cookie |
| WebDriverSession.WebDriver.SetCookies | src/WebDriver.ts:227-235 | the cookie commands are sent and the flag is untouched |
| WebDriverSession.VisitSendsPrefix | src/WebDriver.ts:122-164 | a visit returns exactly when no call it makes rejects, having sent the whole of `VisitCommands` and set the flag; otherwise it has sent a prefix of it |
| WebDriverSession.VisitSetsFlag | src/WebDriver.ts:131-141 | the flag is set afterwards exactly when it was set before or neither `get` nor the cookies rejected |
| WebDriverSession.RejectedCookiesRetried | src/WebDriver.ts:131-141 | after a first visit whose cookies reject, the next visit adds every cookie and refreshes once |
| WebDriverSession.WebDriver.VisitURL | src/WebDriver.ts:122-164 | the commands sent, the new flag and whether a landing URL is returned are those of `Visit` for the first rejecting call; the landing URL is the browser's current URL |
| WebDriverSession.VisitRefreshesOnlyFirst | src/WebDriver.ts:134-141 | a visit refreshes exactly when the cookies were not set yet; an initialized instance adds no cookie |
| WebDriverSession.SessionRefreshesOnce | src/WebDriver.ts:134-141 | a fresh instance refreshes for cookies once over any number of visits |
| WebDriverSession.ValidHref | src/WebDriver.ts:189-193 | an href is kept exactly when it is present, non-empty and accepted by `validateLink` |
| WebDriverSession.ValidLinksMembership | src/WebDriver.ts:187-195 | a link is returned exactly when some anchor carries it and it passes the checks |
| WebDriverSession.ValidLinksAppend | src/WebDriver.ts:187-195 | links keep anchor order |
| WebDriverSession.GetAllLinks | src/WebDriver.ts:175-207 | the links are empty or are the valid links of one successful try, made with a count between 0 and `maxTries` |
| WebDriverSession.FirstSuccessSupplies | src/WebDriver.ts:196-204 | the first try that succeeds, counting down from `maxTries`, supplies the links |
| WebDriverSession.AllTriesFail | src/WebDriver.ts:196-206 | when every try fails the result is empty |
| WebDriverSession.OnlyCountedTries | src/WebDriver.ts:196-204 | only tries `maxTries` down to 0 are consulted: at most `maxTries+1`, six by default |
| WebDriverSession.DefaultSixthTry | src/WebDriver.ts:175-204 | the default-argument instance of `FirstSuccessSupplies`, for every `attempt`: with the default of 5, the try made with `maxTries` 0 supplies the links when the five before it fail |
| WebDriverSession.LinksAreValid | src/WebDriver.ts:190 | every returned link is non-empty and accepted by `validateLink` |

## Left out

- Selenium is left out. Navigation, `findElements`, `executeScript`, screenshots, cookies, window rects, waits, timeouts and `close()` are not modelled. Their answers (landing URL, anchors, scroll height) are parameters. Whether a call throws is a parameter for `visitURL`, `getAllLinks`, `compareImages` and, in `Navigator.run`, for the two visits, the two screenshots and the comparison.
- ImgDiff.Crawl: every browser call of imgdiff.js (`visit`, `getLinks`, `takeScreenshot`, `compareScreenshots`) is taken to return. A rejection there would end the script with that exception; the model has no such outcome.
- ImgDiff.Crawl: the crawl is modelled for a site with finitely many pages reachable from the origin (a finite set closed under the browser). On a site where pages keep linking to new pages the script's loop need not end, and the model says nothing about it.
- pixelmatch, pngjs and sharp (decoding, cropping pixels, diffing, JPEG encoding, the thresholds 0.85 and 0.95) are left out. A raster is a width and rows, and the diff count is a parameter.
- The WHATWG URL parser is not modelled. `host`, `hostname` and `pathname` come from a split on "://", '/' and ':'. Percent-encoding, case folding, user-info, default ports and `new URL` throwing on a malformed string (in getLinks, the crawl loop and `Navigator.run`) are not captured.
- File-system work is not modelled: mkdir, readdir, writes, `clearCache`, the JSON cache and YAML loading. In `Navigator.run` the screenshot files are the `onDisk` set. The asynchronous write of the diff JPEG is not modelled; `Audit.CompareImages` returns its path.
- `worker_threads` (main.ts:145-181, navigator_worker.ts, crawl_worker.ts) is not modelled, because its point is concurrency. The partition ends at the chunks each `forEach` call receives.
- `Number(process.env.CORES) ?? 1` is not modelled. CORES is taken to be an integer ≥ 1; the NaN, 0 and fractional cases are not modelled.
- The main.ts check that rejects an invalid origin or destination (`validateLink`, main.ts:64-69) is not modelled separately; `Utils.ValidateLink` is the predicate it uses.
- src/Crawler.ts is an empty class, so the crawl it would do is not modelled. Photographer.ts is only the `images/<dir>` prefix used in `Navigation.ScreenshotPath`.
- The `--prev` path of imgdiff.js:56-67 (a missing `unzip`), winston logging, the stack-trace formatter, `delay` and the command line are left out.
- `Navigator.run` does not use the boolean `compareImages` returns, so the model does not either. The error-URL list is only what `run()` logs.
- `Promise.all` in `setCookies` and `getAllLinks` runs its calls concurrently. The model sends them in list order; only the order of cookie commands among themselves could differ.
- Navigation.NextPass: a rejected screenshot writes no file. A rejection of the file write after `takeScreenshot` resolved, which could leave a partial file, is the same case; `Drain` and `Navigator.TakeScreenshot` read it the same way.
- DriverFunctions.CompareScreenshots: every file read, PNG decode and `pixelmatch` call is taken to succeed. In the source a throw there ends `compareScreenshots` with the diffs written so far; the model has no such outcome, and `numDiffPixels` is a total count.
- WebDriverSession.GetAllLinks: returns the href strings. The source returns `new URL(href)` objects, whose `href` is the parser's normalised form, which is not modelled (see the URL line above).
- ImgDiff.DestinationUrl: replaces inside the URL string as given. The source replaces inside `originURL.href`, the parser's normalised form, which is not modelled (see the URL line above).
- DriverFunctions.CaptureScreens: takes the window height as a constant. The source reads it again after every capture.
- DriverFunctions.CaptureScreens: requires a positive window height. With a window of height 0 and a positive page height, the source loop (visual-testing/driver_functions.js:92-103) never advances and never ends; the model has no outcome for that.
- Audit.CompareImages: `pixelmatch` is given the origin's width for both images (src/Auditor.ts:45-52), so the real call throws when the widths differ and the crop is not empty. The model leaves this to the `pixelmatch` parameter, which may return a count for rasters of different widths.
- ImgDiff.DestinationUrl: the length is promised only for a destination host without '$'. `replace` expands '$' patterns in the host, so with '$' the length can differ.
- Strings.ReplaceFirst: the length is promised only for a `q` without '$', for the same reason.
- WebDriverSession.SessionCommands: all visits of a series share one `options` value and one scroll height. This is enough for the cookie property.
- Utils.ValidateLink: a character is a Unicode scalar value. The expression has no `u` flag and so reads UTF-16 code units; a link holding a character outside the Basic Multilingual Plane may be judged differently. "http://a", then U+1F600, then "com" is accepted here (the character stands for the unescaped '.'), while the expression sees two surrogates and rejects it.
- WebDriverSession.WebDriver.VisitURL: a rejection of the resize, of the wait for the ready state and of `getCurrentUrl` is one case (`LoadStep`); the resize command counts as sent in it.
- WebDriverSession.GetAllLinks: a try is one oracle answer. An exception from `new URL` after `validateLink` accepted a link counts as a failed try only if the oracle says so.
