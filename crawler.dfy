/**
  The crawl-and-compare script visual-testing/imgdiff.js: a do/while loop over a FIFO
  `queue` of origin URLs and a `visited` set. Each pass takes the front URL, derives
  its destination-site twin by host substitution, visits it, and either skips it (the
  page it lands on after redirects was seen before) or records a comparison and merges
  the page's eligible links into the queue.

  The browser is two parameters: `visit(url)`, the URL the origin browser ends up on,
  and `anchorsOf(page)`, the `href` attributes of the anchors of that page.
*/
module ImgDiff {
  import opened Wrappers
  import opened Strings
  import Url
  import DriverFunctions

  /** One recorded pass: the URL taken from the queue, the page it landed on, and its destination twin. */
  datatype Comparison = Comparison(current: string, actual: string, destination: string)

  /** The module-level variables of the script. */
  datatype CrawlState = CrawlState(
    queue: seq<string>,
    visited: set<string>,
    depthArray: seq<int>,
    depthVisited: int,
    compared: seq<Comparison>)

  /** The configuration the loop reads: `origin`, `destination`, the two blacklists and `depth`. */
  datatype CrawlConfig = CrawlConfig(
    origin: string,
    destination: string,
    blacklist: DriverFunctions.Blacklist,
    depth: int)

  /** How the asynchronous main function ends. */
  datatype Outcome =
    | Finished  // the do/while condition became false
    | Aborted   // `queue.shift()` gave `undefined` and `new URL(undefined)` threw a TypeError

  datatype CrawlResult = CrawlResult(final: CrawlState, outcome: Outcome)

  /** The state before the loop: the origin URL alone in the queue, everything else empty. */
  function Initial(origin: string): CrawlState {
    CrawlState([origin], {}, [], 0, [])
  }

  /**
    `originURL.href.replace(originURL.host, DESTINATION_BASE_URL.host)`: the first
    occurrence of the URL's host, wherever it is, becomes the destination's host, its
    '$' patterns expanded.
  */
  function DestinationUrl(current: string, destination: string): (r: string)
    ensures '$' !in Url.Host(destination) ==> |r| == |current| - |Url.Host(current)| + |Url.Host(destination)|
  {
    HostOccurs(current);
    ReplaceFirst(current, Url.Host(current), Url.Host(destination))
  }

  /** The host of a URL always occurs in it (the empty host at index 0). */
  lemma HostOccurs(u: string)
    ensures IndexOf(u, Url.Host(u)) >= 0
  {
    var k := IndexOf(u, Url.SchemeSeparator);
    if k >= 0 {
      Url.HostFollowsScheme(u);
    } else {
      assert OccursAt(u, Url.Host(u), 0);
    }
  }

  /**
    The replacement happens where the host first occurs: after the scheme for an
    ordinary URL, but wherever the host text first appears in general.
  */
  lemma DestinationAt(current: string, destination: string, k: nat)
    requires OccursAt(current, Url.Host(current), k)
    requires forall j :: 0 <= j < k ==> !OccursAt(current, Url.Host(current), j)
    ensures var host := Url.Host(current);
            DestinationUrl(current, destination)
              == current[..k] + Substitution(Url.Host(destination), host, current[..k], current[k + |host|..]) + current[k + |host|..]
    ensures '$' !in Url.Host(destination) ==>
              DestinationUrl(current, destination) == current[..k] + Url.Host(destination) + current[k + |Url.Host(current)|..]
  {
    var host, destinationHost := Url.Host(current), Url.Host(destination);
    var before, after := current[..k], current[k + |host|..];
    assert DestinationUrl(current, destination) == before + Substitution(destinationHost, host, before, after) + after by {
      assert DestinationUrl(current, destination) == ReplaceFirst(current, host, destinationHost);
      ReplaceFirstAt(current, host, destinationHost, k);
    }
  }

  /** The form of "http://h/" and "http://x/": the first "://" at index 4, hosts "h" and "x". */
  lemma SchemeAtFour(u: string)
    requires |u| == 9 && u[..4] == "http" && u[4..7] == "://" && u[7] != '/' && u[8] == '/'
    ensures IndexOf(u, Url.SchemeSeparator) == 4
    ensures Url.Host(u) == [u[7]]
  {
    var sep := Url.SchemeSeparator;
    assert OccursAt(u, sep, 4);
    assert u[0] == 'h' && u[1] == 't' && u[2] == 't' && u[3] == 'p';
    NoOccurrenceAt(u, sep, 0);
    NoOccurrenceAt(u, sep, 1);
    NoOccurrenceAt(u, sep, 2);
    NoOccurrenceAt(u, sep, 3);
    assert Url.AfterScheme(u) == [u[7], u[8]];
    assert PrefixBefore([u[8]], '/') == [];
    assert PrefixBefore([u[7], u[8]], '/') == [u[7]] + PrefixBefore([u[8]], '/');
  }

  /**
    A host that also occurs in the scheme is replaced there instead: for "http://h/" the
    'h' of "http" is replaced, so a destination "http://x/" gives "xttp://h/".
  */
  lemma DestinationHostInScheme(u: string, d: string)
    requires |u| == 9 && u[..4] == "http" && u[4..7] == "://" && u[7] == 'h' && u[8] == '/'
    requires |d| == 9 && d[..4] == "http" && d[4..7] == "://" && d[7] != '/' && d[8] == '/'
    ensures Url.Host(u) == "h" && Url.Host(d) == [d[7]]
    ensures DestinationUrl(u, d) == [d[7]] + u[1..]
  {
    SchemeAtFour(u);
    SchemeAtFour(d);
    assert u[0] == 'h';
    assert OccursAt(u, Url.Host(u), 0);
    DestinationAt(u, d, 0);
    assert u[..0] == [];
    assert Substitution([d[7]], "h", [], u[1..]) == [d[7]] + Substitution([], "h", [], u[1..]);
  }

  /** `decrementDepth()`: count down the head of `depthArray`, dropping it and counting a level at 0. */
  function AfterDecrement(s: CrawlState): (r: CrawlState)
    ensures r.queue == s.queue && r.visited == s.visited && r.compared == s.compared
    ensures |r.depthArray| <= |s.depthArray|
  {
    if |s.depthArray| == 0 then s
    else
      var head := s.depthArray[0] - 1;
      if head == 0 then s.(depthArray := s.depthArray[1..], depthVisited := s.depthVisited + 1)
      else s.(depthArray := [head] + s.depthArray[1..])
  }

  /** With an empty `depthArray`, `decrementDepth` changes nothing. */
  lemma DecrementOnEmpty(s: CrawlState)
    requires s.depthArray == []
    ensures AfterDecrement(s) == s
  {
  }

  /** A level is counted exactly when the head was 1, and then the head is removed. */
  lemma DecrementCountsLevel(s: CrawlState)
    ensures AfterDecrement(s).depthVisited == s.depthVisited + 1 <==> |s.depthArray| > 0 && s.depthArray[0] == 1
    ensures AfterDecrement(s).depthVisited != s.depthVisited + 1 ==> AfterDecrement(s).depthVisited == s.depthVisited
    ensures |s.depthArray| > 0 && s.depthArray[0] == 1 ==> AfterDecrement(s).depthArray == s.depthArray[1..]
  {
  }

  /**
    One pass of the loop body at imgdiff.js:86-131; `None` when the queue is empty,
    where `new URL(undefined)` throws.
  */
  function NextState(s: CrawlState, cfg: CrawlConfig, visit: string -> string,
                     anchorsOf: string -> seq<Option<string>>): (r: Option<CrawlState>)
    ensures r.None? <==> |s.queue| == 0
  {
    if |s.queue| == 0 then None
    else
      var current := s.queue[0];
      var rest := s.queue[1..];
      var actual := visit(current);
      if actual in s.visited then Some(AfterDecrement(s.(queue := rest)))
      else
        // The filter at imgdiff.js:114-117 builds an array nobody keeps, so the merge uses every link.
        var links := DriverFunctions.EligibleLinks(anchorsOf(actual), cfg.origin, cfg.blacklist);
        Some(AfterDecrement(Recorded(s, current, actual, links, DestinationUrl(current, cfg.destination))))
  }

  /** The variables after a recording pass, before `decrementDepth()`. */
  function Recorded(s: CrawlState, current: string, actual: string, links: seq<string>, destination: string): CrawlState
    requires |s.queue| > 0
  {
    CrawlState(
      Dedup(s.queue[1..] + links),
      s.visited + {actual, current},
      s.depthArray,
      s.depthVisited,
      s.compared + [Comparison(current, actual, destination)])
  }

  /** Unfolds `NextState` into its two shapes for `Crawler.Step`; it states nothing beyond the body. */
  lemma NextStateForm(s: CrawlState, cfg: CrawlConfig, visit: string -> string, anchorsOf: string -> seq<Option<string>>)
    requires |s.queue| > 0
    ensures var current := s.queue[0];
            var actual := visit(current);
            var links := DriverFunctions.EligibleLinks(anchorsOf(actual), cfg.origin, cfg.blacklist);
            NextState(s, cfg, visit, anchorsOf).value ==
              if actual in s.visited then AfterDecrement(s.(queue := s.queue[1..]))
              else AfterDecrement(Recorded(s, current, actual, links, DestinationUrl(current, cfg.destination)))
  {
  }

  /** `queue.length > 0 || depthVisited < yaml_doc.depth` */
  predicate Continues(s: CrawlState, depth: int) {
    |s.queue| > 0 || s.depthVisited < depth
  }

  /**
    What the script keeps true: the queue has no duplicates, `depthArray` stays empty
    (nothing pushes to it) so `depthVisited` stays 0, and every recorded comparison
    is of a visited page, no landing page being compared twice.
  */
  predicate Valid(s: CrawlState) {
    && Distinct(s.queue)
    && s.depthArray == []
    && s.depthVisited == 0
    && (forall i :: 0 <= i < |s.compared| ==> s.compared[i].actual in s.visited)
    && (forall i, j :: 0 <= i < j < |s.compared| ==> s.compared[i].actual != s.compared[j].actual)
  }

  lemma InitialValid(origin: string)
    ensures Valid(Initial(origin))
    ensures Initial(origin).queue == [origin]
  {
  }

  /** A pass whose landing page was seen before drops the front URL and changes nothing else. */
  lemma SkipPass(s: CrawlState, cfg: CrawlConfig, visit: string -> string, anchorsOf: string -> seq<Option<string>>)
    requires |s.queue| > 0 && visit(s.queue[0]) in s.visited
    ensures var t := NextState(s, cfg, visit, anchorsOf).value;
            t.queue == s.queue[1..] && t.visited == s.visited && t.compared == s.compared
  {
  }

  /**
    A pass that lands on a new page compares it, adds both the taken URL and the landing
    page to `visited`, and leaves the rest of the queue in front, followed by the new links.
  */
  lemma RecordPass(s: CrawlState, cfg: CrawlConfig, visit: string -> string, anchorsOf: string -> seq<Option<string>>)
    requires |s.queue| > 0 && visit(s.queue[0]) !in s.visited
    requires Distinct(s.queue)
    ensures var current := s.queue[0];
            var actual := visit(current);
            var t := NextState(s, cfg, visit, anchorsOf).value;
            && t.visited == s.visited + {actual, current}
            && t.compared == s.compared + [Comparison(current, actual, DestinationUrl(current, cfg.destination))]
            && |t.queue| >= |s.queue| - 1
            && t.queue[..|s.queue| - 1] == s.queue[1..]
            && Distinct(t.queue)
  {
    var rest := s.queue[1..];
    var links := DriverFunctions.EligibleLinks(anchorsOf(visit(s.queue[0])), cfg.origin, cfg.blacklist);
    assert Distinct(rest);
    DedupKeepsDistinctPrefix(rest, links);
    DedupDistinct(rest + links);
  }

  /**
    After a recording pass, a URL is queued exactly when it was queued behind the front
    or is among the page's links, whether or not it was visited already.
  */
  lemma RecordPassQueue(s: CrawlState, cfg: CrawlConfig, visit: string -> string,
                        anchorsOf: string -> seq<Option<string>>, x: string)
    requires |s.queue| > 0 && visit(s.queue[0]) !in s.visited
    ensures var links := DriverFunctions.EligibleLinks(anchorsOf(visit(s.queue[0])), cfg.origin, cfg.blacklist);
            x in NextState(s, cfg, visit, anchorsOf).value.queue <==> x in s.queue[1..] || x in links
  {
    var links := DriverFunctions.EligibleLinks(anchorsOf(visit(s.queue[0])), cfg.origin, cfg.blacklist);
    DedupMember(s.queue[1..] + links, x);
  }

  /** `visited` only grows. */
  lemma VisitedGrows(s: CrawlState, cfg: CrawlConfig, visit: string -> string, anchorsOf: string -> seq<Option<string>>)
    requires |s.queue| > 0
    ensures s.visited <= NextState(s, cfg, visit, anchorsOf).value.visited
  {
  }

  /** Every pass keeps `Valid`. */
  lemma NextStateValid(s: CrawlState, cfg: CrawlConfig, visit: string -> string, anchorsOf: string -> seq<Option<string>>)
    requires Valid(s) && |s.queue| > 0
    ensures Valid(NextState(s, cfg, visit, anchorsOf).value)
  {
    var t := NextState(s, cfg, visit, anchorsOf).value;
    var actual := visit(s.queue[0]);
    if actual in s.visited {
      assert Distinct(s.queue[1..]);
    } else {
      RecordPass(s, cfg, visit, anchorsOf);
      assert t.compared[|s.compared|].actual == actual;
      forall i | 0 <= i < |t.compared| ensures t.compared[i].actual in t.visited {
        if i < |s.compared| {
          assert t.compared[i] == s.compared[i];
        }
      }
      forall i, j | 0 <= i < j < |t.compared| ensures t.compared[i].actual != t.compared[j].actual {
        assert t.compared[i] == s.compared[i];
        if j < |s.compared| {
          assert t.compared[j] == s.compared[j];
        }
      }
    }
  }

  /**
    `site` is closed under the browser: the page any URL of `site` lands on is in
    `site`, and so is every eligible link on a page of `site`. A finite closed site
    holding the origin exists exactly when finitely many pages are reachable from it.
  */
  predicate ClosedSite(site: set<string>, cfg: CrawlConfig, visit: string -> string,
                       anchorsOf: string -> seq<Option<string>>) {
    && (forall u :: u in site ==> visit(u) in site)
    && (forall p, x :: p in site && x in DriverFunctions.EligibleLinks(anchorsOf(p), cfg.origin, cfg.blacklist) ==> x in site)
  }

  /** Every queued URL lies in `site`. */
  predicate QueuedIn(s: CrawlState, site: set<string>) {
    forall x :: x in s.queue ==> x in site
  }

  /** A pass of a crawl inside a closed site lands in the site and keeps the queue in it. */
  lemma StaysInSite(s: CrawlState, cfg: CrawlConfig, visit: string -> string,
                    anchorsOf: string -> seq<Option<string>>, site: set<string>)
    requires |s.queue| > 0 && QueuedIn(s, site) && ClosedSite(site, cfg, visit, anchorsOf)
    ensures visit(s.queue[0]) in site
    ensures QueuedIn(NextState(s, cfg, visit, anchorsOf).value, site)
  {
    var actual := visit(s.queue[0]);
    assert s.queue[0] in s.queue;
    var t := NextState(s, cfg, visit, anchorsOf).value;
    if actual !in s.visited {
      var links := DriverFunctions.EligibleLinks(anchorsOf(actual), cfg.origin, cfg.blacklist);
      forall x | x in t.queue ensures x in site {
        RecordPassQueue(s, cfg, visit, anchorsOf, x);
        if x in s.queue[1..] {
          assert x in s.queue;
        } else {
          assert x in links;
        }
      }
    } else {
      forall x | x in t.queue ensures x in site {
        assert x in s.queue;
      }
    }
  }

  /**
    Every pass makes progress when landing pages lie in `site`: a recording pass adds a
    page of `site` not visited before, a skipping pass shortens the queue.
  */
  lemma Progress(s: CrawlState, cfg: CrawlConfig, visit: string -> string,
                 anchorsOf: string -> seq<Option<string>>, site: set<string>)
    requires |s.queue| > 0 && visit(s.queue[0]) in site
    ensures var t := NextState(s, cfg, visit, anchorsOf).value;
            || site - t.visited < site - s.visited
            || (site - t.visited == site - s.visited && |t.queue| < |s.queue|)
  {
    var t := NextState(s, cfg, visit, anchorsOf).value;
    var actual := visit(s.queue[0]);
    if actual !in s.visited {
      assert actual in site - s.visited;
      assert actual !in site - t.visited;
    }
  }

  /**
    The whole do/while loop from state `s`, for a site of finitely many pages: `site`
    is finite, closed under the browser and holds the queue (on an unbounded site the
    crawl need not end).
  */
  function Crawl(s: CrawlState, cfg: CrawlConfig, visit: string -> string,
                 anchorsOf: string -> seq<Option<string>>, site: set<string>): (r: CrawlResult)
    requires ClosedSite(site, cfg, visit, anchorsOf) && QueuedIn(s, site)
    ensures s.visited <= r.final.visited
    ensures r.outcome == Finished ==> r.final.queue == [] && r.final.depthVisited >= cfg.depth
    ensures r.outcome == Aborted ==> r.final.queue == []
    decreases site - s.visited, |s.queue|
  {
    match NextState(s, cfg, visit, anchorsOf)
    case None => CrawlResult(s, Aborted)
    case Some(t) =>
      StaysInSite(s, cfg, visit, anchorsOf, site);
      Progress(s, cfg, visit, anchorsOf, site);
      VisitedGrows(s, cfg, visit, anchorsOf);
      if Continues(t, cfg.depth) then Crawl(t, cfg, visit, anchorsOf, site) else CrawlResult(t, Finished)
  }

  /** `Valid` holds at the end, so no landing page was compared twice. */
  lemma {:induction false} CrawlKeepsValid(s: CrawlState, cfg: CrawlConfig, visit: string -> string,
                                            anchorsOf: string -> seq<Option<string>>, site: set<string>)
    requires ClosedSite(site, cfg, visit, anchorsOf) && QueuedIn(s, site)
    requires Valid(s)
    ensures Valid(Crawl(s, cfg, visit, anchorsOf, site).final)
    decreases site - s.visited, |s.queue|
  {
    if |s.queue| > 0 {
      var t := NextState(s, cfg, visit, anchorsOf).value;
      StaysInSite(s, cfg, visit, anchorsOf, site);
      Progress(s, cfg, visit, anchorsOf, site);
      NextStateValid(s, cfg, visit, anchorsOf);
      if Continues(t, cfg.depth) {
        CrawlKeepsValid(t, cfg, visit, anchorsOf, site);
      }
    }
  }

  /**
    Since `depthVisited` stays 0, a positive `depth` keeps the loop going past the
    empty queue, and the run always ends in the TypeError.
  */
  lemma {:induction false} PositiveDepthAborts(s: CrawlState, cfg: CrawlConfig, visit: string -> string,
                                               anchorsOf: string -> seq<Option<string>>, site: set<string>)
    requires ClosedSite(site, cfg, visit, anchorsOf) && QueuedIn(s, site)
    requires Valid(s) && cfg.depth > 0
    ensures Crawl(s, cfg, visit, anchorsOf, site).outcome == Aborted
    decreases site - s.visited, |s.queue|
  {
    if |s.queue| > 0 {
      var t := NextState(s, cfg, visit, anchorsOf).value;
      StaysInSite(s, cfg, visit, anchorsOf, site);
      Progress(s, cfg, visit, anchorsOf, site);
      NextStateValid(s, cfg, visit, anchorsOf);
      assert Continues(t, cfg.depth);
      PositiveDepthAborts(t, cfg, visit, anchorsOf, site);
    }
  }

  /** With `depth` at most 0 (or absent), a non-empty queue is drained and the loop ends normally. */
  lemma {:induction false} NonPositiveDepthFinishes(s: CrawlState, cfg: CrawlConfig, visit: string -> string,
                                                    anchorsOf: string -> seq<Option<string>>, site: set<string>)
    requires ClosedSite(site, cfg, visit, anchorsOf) && QueuedIn(s, site)
    requires Valid(s) && cfg.depth <= 0 && |s.queue| > 0
    ensures Crawl(s, cfg, visit, anchorsOf, site).outcome == Finished
    ensures Crawl(s, cfg, visit, anchorsOf, site).final.queue == []
    decreases site - s.visited, |s.queue|
  {
    var t := NextState(s, cfg, visit, anchorsOf).value;
    StaysInSite(s, cfg, visit, anchorsOf, site);
    Progress(s, cfg, visit, anchorsOf, site);
    NextStateValid(s, cfg, visit, anchorsOf);
    if Continues(t, cfg.depth) {
      NonPositiveDepthFinishes(t, cfg, visit, anchorsOf, site);
    }
  }

  /** The script's variables, updated in place by the loop. */
  class Crawler {
    var queue: seq<string>
    var visited: set<string>
    var depthArray: seq<int>
    var depthVisited: int
    var compared: seq<Comparison>

    function State(): CrawlState
      reads this
    {
      CrawlState(queue, visited, depthArray, depthVisited, compared)
    }

    /** imgdiff.js:75-79 */
    constructor(origin: string)
      ensures State() == Initial(origin)
    {
      queue := [origin];
      depthArray := [];
      visited := {};
      depthVisited := 0;
      compared := [];
    }

    /** `decrementDepth()` */
    method DecrementDepth()
      modifies this
      ensures State() == AfterDecrement(old(State()))
    {
      if |depthArray| > 0 {
        depthArray := depthArray[0 := depthArray[0] - 1];
        if depthArray[0] == 0 {
          depthArray := depthArray[1..];
          depthVisited := depthVisited + 1;
        }
      }
    }

    /** One pass of the loop body; `false` when `queue.shift()` finds the queue empty. */
    method Step(cfg: CrawlConfig, visit: string -> string, anchorsOf: string -> seq<Option<string>>) returns (ok: bool)
      modifies this
      ensures ok <==> |old(queue)| > 0
      ensures ok ==> State() == NextState(old(State()), cfg, visit, anchorsOf).value
      ensures !ok ==> State() == old(State())
    {
      if |queue| == 0 {
        return false;
      }
      ghost var before := State();
      var currentLink := queue[0];
      var destinationUrl := DestinationUrl(currentLink, cfg.destination);
      var actualLink := visit(currentLink);
      NextStateForm(before, cfg, visit, anchorsOf);
      if actualLink in visited {
        queue := queue[1..];
        DecrementDepth();
      } else {
        var originLinks := DriverFunctions.GetLinks(anchorsOf(actualLink), cfg.origin, cfg.blacklist);
        Record(currentLink, actualLink, originLinks, destinationUrl);
        DecrementDepth();
      }
      ok := true;
    }

    /**
      imgdiff.js:104-130 after `queue.shift()`: record the comparison, merge the links
      into the queue (the filter over `originLinks` is computed and dropped, so it has
      no effect) and add both URLs to `visited`.
    */
    method Record(currentLink: string, actualLink: string, originLinks: seq<string>, destinationUrl: string)
      requires |queue| > 0
      modifies this
      ensures State() == Recorded(old(State()), currentLink, actualLink, originLinks, destinationUrl)
    {
      queue := queue[1..];
      compared := compared + [Comparison(currentLink, actualLink, destinationUrl)];
      queue := Dedup(queue + originLinks);
      visited := visited + {actualLink};
      visited := visited + {currentLink};
    }

    /** The do/while loop at imgdiff.js:85-132. */
    method Run(cfg: CrawlConfig, visit: string -> string, anchorsOf: string -> seq<Option<string>>, ghost site: set<string>)
      returns (outcome: Outcome)
      requires ClosedSite(site, cfg, visit, anchorsOf) && QueuedIn(State(), site)
      modifies this
      ensures CrawlResult(State(), outcome) == Crawl(old(State()), cfg, visit, anchorsOf, site)
    {
      while true
        invariant QueuedIn(State(), site)
        invariant Crawl(State(), cfg, visit, anchorsOf, site) == Crawl(old(State()), cfg, visit, anchorsOf, site)
        decreases site - visited, |queue|
      {
        ghost var before := State();
        var ok := Step(cfg, visit, anchorsOf);
        if !ok {
          return Aborted;
        }
        StaysInSite(before, cfg, visit, anchorsOf, site);
        Progress(before, cfg, visit, anchorsOf, site);
        if !(|queue| > 0 || depthVisited < cfg.depth) {
          return Finished;
        }
      }
    }
  }
}
