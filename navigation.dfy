/**
  `Navigator` (src/Navigator.ts): a queue of origin URLs drained by a do/while loop.
  Each pass rebases the URL onto the destination site, visits both, takes a full
  screenshot of each, compares them, logs a comparison that throws, and removes both
  screenshots whatever happened.

  The browsers, the clock behind the screenshot names, whether each screenshot is
  written and the comparison are parameters (`Oracles`). The screenshot files are the
  `onDisk` set of paths.
*/
module Navigation {
  import opened Wrappers
  import opened Strings

  /**
    `visits(url)`: whether `visitURL` returns normally (false when the browser throws);
    `now(k)`: `Date.now()` at the `k`-th screenshot;
    `shoots(k)`: whether the `k`-th screenshot is written (false when `takeScreenshot`
    rejects, and then no file is written);
    `compare(o, d)`: what `compareImages` resolves to, `None` when it throws.
  */
  datatype Oracles = Oracles(visits: string -> bool, now: nat -> nat, shoots: nat -> bool, compare: (string, string) -> Option<bool>)

  /** How `run()` ends. */
  datatype RunOutcome =
    | Completed              // the queue was drained
    | EmptyQueue             // the first `shift()` gave `undefined`, and reading its `href` threw
    | VisitFailed(url: string)  // a visit threw while handling `url`; the exception leaves `run()`
    | ScreenshotFailed(url: string, leftOnDisk: Option<string>)
      // a screenshot of `url`'s pass rejected before the `try`, so `run()` rejects and the
      // `finally` never runs: the origin screenshot stays on disk when only the destination's failed

  /** The screenshot a rejected run leaves on disk, if any. */
  function LeftBehind(outcome: RunOutcome): set<string> {
    if outcome.ScreenshotFailed? && outcome.leftOnDisk.Some? then {outcome.leftOnDisk.value} else {}
  }

  /** The navigator's state: the queue, the URL pairs visited, the URLs whose comparison threw, the files on disk. */
  datatype NavState = NavState(
    queue: seq<string>,
    navigated: seq<(string, string)>,
    errors: seq<string>,
    onDisk: set<string>,
    shots: nat)

  /**
    `href.replace(ORIGIN_BASE_URL, DESTINATION_BASE_URL)`: the first occurrence of the
    origin base, if any, gives way to the destination base, its '$' patterns expanded.
  */
  function Rebase(href: string, originBase: string, destinationBase: string): (r: string)
    ensures !Contains(href, originBase) ==> r == href
  {
    ReplaceFirst(href, originBase, destinationBase)
  }

  /**
    A URL under the origin base keeps its path after the (expanded) destination base;
    a destination base without '$' is put in as it is.
  */
  lemma RebaseUnderBase(originBase: string, path: string, destinationBase: string)
    ensures Rebase(originBase + path, originBase, destinationBase) == Substitution(destinationBase, originBase, [], path) + path
    ensures '$' !in destinationBase ==> Rebase(originBase + path, originBase, destinationBase) == destinationBase + path
  {
    var href := originBase + path;
    assert href[..|originBase|] == originBase;
    ReplaceFirstAt(href, originBase, destinationBase, 0);
    assert href[..0] == [];
    assert href[|originBase|..] == path;
  }

  /** A destination base ending in "$&" puts the whole origin base back in: "https://b.com/$&" turns "https://a.com/p" into "https://b.com/https://a.com/p". */
  lemma RebaseWithMatchPattern(originBase: string, path: string, base: string)
    requires '$' !in base
    ensures Rebase(originBase + path, originBase, base + "$&") == base + originBase + path
  {
    RebaseUnderBase(originBase, path, base + "$&");
    SubstitutionLiteralPrefix(base, "$&", originBase, [], path);
    SubstitutionPatterns(originBase, [], path, 'a');
  }

  /** `path.join('images/' + dir, Date.now() + '.png')` */
  function ScreenshotPath(dir: string, millis: nat): string {
    "images/" + dir + "/" + DecimalString(millis) + ".png"
  }

  /** Screenshots of the two sites never share a path. */
  lemma ScreenshotPathsDiffer(a: nat, b: nat)
    ensures ScreenshotPath("origin", a) != ScreenshotPath("destination", b)
  {
    assert ScreenshotPath("origin", a)[7] == 'o';
    assert ScreenshotPath("destination", b)[7] == 'd';
  }

  /** The outcome of one pass of the loop body. */
  datatype Pass = Next(state: NavState) | Stop(state: NavState, outcome: RunOutcome)

  /**
    One pass of the loop body at Navigator.ts:53-88, on a non-empty queue: it stops on a
    visit that throws or a screenshot that rejects, and otherwise hands on.
  */
  function NextPass(s: NavState, originBase: string, destinationBase: string, o: Oracles): (p: Pass)
    requires |s.queue| > 0
    ensures p.state.queue == s.queue[1..]
    ensures p.Stop? <==> !o.visits(s.queue[0]) || !o.visits(Rebase(s.queue[0], originBase, destinationBase))
                         || !o.shoots(s.shots) || !o.shoots(s.shots + 1)
    ensures p.Stop? && (!o.visits(s.queue[0]) || !o.visits(Rebase(s.queue[0], originBase, destinationBase))) ==>
              p.outcome == VisitFailed(s.queue[0]) && p.state.onDisk == s.onDisk
    ensures p.Stop? && o.visits(s.queue[0]) && o.visits(Rebase(s.queue[0], originBase, destinationBase)) ==>
              p.outcome == ScreenshotFailed(s.queue[0], if o.shoots(s.shots) then Some(ScreenshotPath("origin", o.now(s.shots))) else None)
    ensures p.state.onDisk <= s.onDisk + (if p.Stop? then LeftBehind(p.outcome) else {})
  {
    var current := s.queue[0];
    var destination := Rebase(current, originBase, destinationBase);
    var rest := s.queue[1..];
    if !o.visits(current) || !o.visits(destination) then Stop(s.(queue := rest), VisitFailed(current))
    else Photographed(s.(queue := rest), current, destination, o)
  }

  /**
    Navigator.ts:69-88 once both pages are loaded. The two screenshots are taken outside
    the `try`: a rejection ends the pass, keeping the origin file when it was written;
    with both written, the pass goes on as `Compared`.
  */
  function Photographed(s: NavState, current: string, destination: string, o: Oracles): (p: Pass)
    ensures p.Next? <==> o.shoots(s.shots) && o.shoots(s.shots + 1)
    ensures p.Next? ==> p.state == Compared(s, current, destination, o)
    ensures p.Stop? ==>
              && p.outcome == ScreenshotFailed(current, if o.shoots(s.shots) then Some(ScreenshotPath("origin", o.now(s.shots))) else None)
              && p.state.onDisk == s.onDisk + LeftBehind(p.outcome)
              && p.state.queue == s.queue && p.state.navigated == s.navigated && p.state.errors == s.errors
  {
    var originShot := ScreenshotPath("origin", o.now(s.shots));
    if !o.shoots(s.shots) then Stop(s.(shots := s.shots + 1), ScreenshotFailed(current, None))
    else if !o.shoots(s.shots + 1) then
      Stop(s.(onDisk := s.onDisk + {originShot}, shots := s.shots + 2), ScreenshotFailed(current, Some(originShot)))
    else Next(Compared(s, current, destination, o))
  }

  /**
    Both pages loaded: two screenshots, one comparison (`current` logged when it throws)
    and the removal of both files in the `finally` block.
  */
  function Compared(s: NavState, current: string, destination: string, o: Oracles): (t: NavState)
    ensures t.queue == s.queue && t.navigated == s.navigated + [(current, destination)]
    ensures t.onDisk == s.onDisk - {ScreenshotPath("origin", o.now(s.shots)), ScreenshotPath("destination", o.now(s.shots + 1))}
    ensures t.errors == s.errors + ThrownAt(current, s.shots, o)
    ensures t.shots == s.shots + 2
  {
    var originShot := ScreenshotPath("origin", o.now(s.shots));
    var destinationShot := ScreenshotPath("destination", o.now(s.shots + 1));
    var errors := if o.compare(originShot, destinationShot).None? then s.errors + [current] else s.errors;
    var onDisk := s.onDisk + {originShot, destinationShot} - {originShot} - {destinationShot};
    NavState(s.queue, s.navigated + [(current, destination)], errors, onDisk, s.shots + 2)
  }

  /**
    `[url]` when the comparison of the screenshots numbered `shots` and `shots + 1`
    throws, `[]` when it resolves.
  */
  function ThrownAt(url: string, shots: nat, o: Oracles): seq<string> {
    if o.compare(ScreenshotPath("origin", o.now(shots)), ScreenshotPath("destination", o.now(shots + 1))).None?
    then [url] else []
  }

  /** The URLs, in order, whose comparison throws when the queue `urls` is handled from screenshot number `shots` on. */
  function Thrown(urls: seq<string>, shots: nat, o: Oracles): seq<string> {
    if |urls| == 0 then [] else ThrownAt(urls[0], shots, o) + Thrown(urls[1..], shots + 2, o)
  }

  /** The whole of `run()` from state `s`. */
  function Drain(s: NavState, originBase: string, destinationBase: string, o: Oracles): (r: (NavState, RunOutcome))
    ensures r.0.queue == [] || r.1.VisitFailed? || r.1.ScreenshotFailed?
    ensures r.1 == EmptyQueue <==> |s.queue| == 0
    ensures r.0.onDisk <= s.onDisk + LeftBehind(r.1)
    decreases |s.queue|
  {
    if |s.queue| == 0 then (s, EmptyQueue)
    else
      match NextPass(s, originBase, destinationBase, o)
      case Stop(t, outcome) => (t, outcome)
      case Next(t) => if |t.queue| > 0 then Drain(t, originBase, destinationBase, o) else (t, Completed)
  }

  /** Each URL with its destination twin, in queue order. */
  function Pairs(urls: seq<string>, originBase: string, destinationBase: string): seq<(string, string)> {
    if |urls| == 0 then [] else [(urls[0], Rebase(urls[0], originBase, destinationBase))] + Pairs(urls[1..], originBase, destinationBase)
  }

  lemma AppendAssoc<T>(a: seq<T>, b: seq<T>, c: seq<T>)
    ensures a + b + c == a + (b + c)
  {
  }

  /** A pass whose two visits and two screenshots succeed hands on to the next pass, or completes on the last URL. */
  lemma DrainStep(s: NavState, originBase: string, destinationBase: string, o: Oracles)
    requires |s.queue| > 0
    requires o.visits(s.queue[0]) && o.visits(Rebase(s.queue[0], originBase, destinationBase))
    requires o.shoots(s.shots) && o.shoots(s.shots + 1)
    ensures var t := Compared(s.(queue := s.queue[1..]), s.queue[0], Rebase(s.queue[0], originBase, destinationBase), o);
            Drain(s, originBase, destinationBase, o) ==
              if |s.queue| > 1 then Drain(t, originBase, destinationBase, o) else (t, Completed)
  {
    var current := s.queue[0];
    var destination := Rebase(current, originBase, destinationBase);
    var t := Compared(s.(queue := s.queue[1..]), current, destination, o);
    assert Photographed(s.(queue := s.queue[1..]), current, destination, o) == Next(t);
    assert NextPass(s, originBase, destinationBase, o) == Next(t);
  }

  /**
    When every visit and every screenshot succeeds, a non-empty queue is drained: every
    URL is visited once, in queue order, with its rebased twin, whether or not its
    comparison throws.
  */
  lemma {:induction false} DrainVisitsAll(s: NavState, originBase: string, destinationBase: string, o: Oracles)
    requires |s.queue| > 0
    requires forall u :: o.visits(u)
    requires forall k :: o.shoots(k)
    ensures Drain(s, originBase, destinationBase, o).1 == Completed
    ensures Drain(s, originBase, destinationBase, o).0.navigated == s.navigated + Pairs(s.queue, originBase, destinationBase)
    decreases |s.queue|
  {
    var current := s.queue[0];
    var destination := Rebase(current, originBase, destinationBase);
    assert o.visits(current) && o.visits(destination) && o.shoots(s.shots) && o.shoots(s.shots + 1);
    DrainStep(s, originBase, destinationBase, o);
    var t := Compared(s.(queue := s.queue[1..]), current, destination, o);
    var pair := (current, destination);
    assert t.navigated == s.navigated + [pair] && t.queue == s.queue[1..];
    assert Pairs(s.queue, originBase, destinationBase) == [pair] + Pairs(t.queue, originBase, destinationBase);
    if |t.queue| > 0 {
      DrainVisitsAll(t, originBase, destinationBase, o);
      AppendAssoc(s.navigated, [pair], Pairs(t.queue, originBase, destinationBase));
    } else {
      assert [pair] + [] == [pair];
    }
  }

  /** The last URL of the queue: its comparison, logged if it throws, ends the log. */
  lemma DrainLogsLast(s: NavState, originBase: string, destinationBase: string, o: Oracles)
    requires |s.queue| == 1
    requires o.visits(s.queue[0]) && o.visits(Rebase(s.queue[0], originBase, destinationBase))
    requires o.shoots(s.shots) && o.shoots(s.shots + 1)
    ensures Drain(s, originBase, destinationBase, o).0.errors == s.errors + Thrown(s.queue, s.shots, o)
  {
    DrainStep(s, originBase, destinationBase, o);
    var here := ThrownAt(s.queue[0], s.shots, o);
    assert Thrown(s.queue, s.shots, o) == here + Thrown([], s.shots + 2, o);
    assert here + [] == here;
  }

  /**
    When every visit and every screenshot succeeds, the error log gains exactly the URLs
    whose comparison throws, in queue order, each pass consuming two screenshot numbers.
  */
  lemma {:induction false} DrainLogsThrown(s: NavState, originBase: string, destinationBase: string, o: Oracles)
    requires |s.queue| > 0
    requires forall u :: o.visits(u)
    requires forall k :: o.shoots(k)
    ensures Drain(s, originBase, destinationBase, o).0.errors == s.errors + Thrown(s.queue, s.shots, o)
    decreases |s.queue|
  {
    var current := s.queue[0];
    var destination := Rebase(current, originBase, destinationBase);
    assert o.visits(current) && o.visits(destination) && o.shoots(s.shots) && o.shoots(s.shots + 1);
    if |s.queue| == 1 {
      DrainLogsLast(s, originBase, destinationBase, o);
    } else {
      DrainStep(s, originBase, destinationBase, o);
      var t := Compared(s.(queue := s.queue[1..]), current, destination, o);
      var here := ThrownAt(current, s.shots, o);
      DrainLogsThrown(t, originBase, destinationBase, o);
      assert Thrown(s.queue, s.shots, o) == here + Thrown(t.queue, t.shots, o);
      AppendAssoc(s.errors, here, Thrown(t.queue, t.shots, o));
    }
  }

  /** The logged URLs are added at the end, and each of them came from the queue, also when a visit throws. */
  lemma {:induction false} DrainLogsQueuedUrls(s: NavState, originBase: string, destinationBase: string, o: Oracles)
    ensures var errors := Drain(s, originBase, destinationBase, o).0.errors;
            |errors| >= |s.errors| && errors[..|s.errors|] == s.errors &&
            forall i :: |s.errors| <= i < |errors| ==> errors[i] in s.queue
    decreases |s.queue|
  {
    if |s.queue| > 0 {
      var p := NextPass(s, originBase, destinationBase, o);
      var t := p.state;
      assert t.errors == s.errors || t.errors == s.errors + [s.queue[0]];
      if p.Next? && |t.queue| > 0 {
        DrainLogsQueuedUrls(t, originBase, destinationBase, o);
        var errors := Drain(t, originBase, destinationBase, o).0.errors;
        assert errors[..|s.errors|] == errors[..|t.errors|][..|s.errors|];
        forall i | |s.errors| <= i < |errors| ensures errors[i] in s.queue {
          if i >= |t.errors| {
            assert errors[i] in t.queue;
          } else {
            assert errors[i] == t.errors[i];
          }
        }
      }
    }
  }

  /**
    When both pages load and the origin screenshot is written but the destination's
    rejects, `run()` rejects at once and the origin screenshot stays on disk.
  */
  lemma DestinationShotLeavesOrigin(s: NavState, originBase: string, destinationBase: string, o: Oracles)
    requires |s.queue| > 0
    requires o.visits(s.queue[0]) && o.visits(Rebase(s.queue[0], originBase, destinationBase))
    requires o.shoots(s.shots) && !o.shoots(s.shots + 1)
    ensures var r := Drain(s, originBase, destinationBase, o);
            && r.1 == ScreenshotFailed(s.queue[0], Some(ScreenshotPath("origin", o.now(s.shots))))
            && ScreenshotPath("origin", o.now(s.shots)) in r.0.onDisk
            && r.0.queue == s.queue[1..]
  {
    var p := NextPass(s, originBase, destinationBase, o);
    assert p.Stop?;
  }

  class Navigator {
    const originBase: string
    const destinationBase: string
    var queue: seq<string>
    var navigated: seq<(string, string)>
    var errors: seq<string>
    var onDisk: set<string>
    var shots: nat

    function State(): NavState
      reads this
    {
      NavState(queue, navigated, errors, onDisk, shots)
    }

    /** Navigator.ts:19-31: the bases from the configuration, then `queue.push(...pageQueue)`. */
    constructor(origin: string, destination: string, pageQueue: seq<string>, files: set<string>)
      ensures originBase == origin && destinationBase == destination
      ensures State() == NavState(pageQueue, [], [], files, 0)
    {
      originBase := origin;
      destinationBase := destination;
      queue := [];
      navigated := [];
      errors := [];
      onDisk := files;
      shots := 0;
      queue := queue + pageQueue;
    }

    /**
      `takeFullScreenshot()` of one photographer: the path named after the clock, and the
      file on disk when the screenshot is written (`written` false when it rejects).
    */
    method TakeScreenshot(dir: string, o: Oracles) returns (path: string, written: bool)
      modifies this
      ensures path == ScreenshotPath(dir, o.now(old(shots))) && (written <==> o.shoots(old(shots)))
      ensures onDisk == old(onDisk) + (if written then {path} else {}) && shots == old(shots) + 1
      ensures queue == old(queue) && navigated == old(navigated) && errors == old(errors)
    {
      path := ScreenshotPath(dir, o.now(shots));
      written := o.shoots(shots);
      if written {
        onDisk := onDisk + {path};
      }
      shots := shots + 1;
    }

    /** One pass of the loop body; the outcome of `run()` when the pass stops it. */
    method Pass(o: Oracles) returns (stop: Option<RunOutcome>)
      requires |queue| > 0
      modifies this
      ensures var p := NextPass(old(State()), originBase, destinationBase, o);
              State() == p.state && stop == (if p.Stop? then Some(p.outcome) else None)
    {
      var currentOriginURL := queue[0];
      queue := queue[1..];
      var currentDestinationURL := Rebase(currentOriginURL, originBase, destinationBase);
      if !o.visits(currentOriginURL) || !o.visits(currentDestinationURL) {
        return Some(VisitFailed(currentOriginURL));
      }
      stop := CompareAndTidy(currentOriginURL, currentDestinationURL, o);
    }

    /** Navigator.ts:69-88, once both pages are loaded. */
    method CompareAndTidy(currentOriginURL: string, currentDestinationURL: string, o: Oracles) returns (stop: Option<RunOutcome>)
      modifies this
      ensures var p := Photographed(old(State()), currentOriginURL, currentDestinationURL, o);
              State() == p.state && stop == (if p.Stop? then Some(p.outcome) else None)
    {
      ghost var target := Compared(State(), currentOriginURL, currentDestinationURL, o);
      var originScreenshotPath, originWritten := TakeScreenshot("origin", o);
      if !originWritten {
        return Some(ScreenshotFailed(currentOriginURL, None));
      }
      var destinationScreenshotPath, destinationWritten := TakeScreenshot("destination", o);
      if !destinationWritten {
        return Some(ScreenshotFailed(currentOriginURL, Some(originScreenshotPath)));
      }
      navigated := navigated + [(currentOriginURL, currentDestinationURL)];
      var same := o.compare(originScreenshotPath, destinationScreenshotPath);
      if same.None? {
        errors := errors + [currentOriginURL];
      }
      assert errors == target.errors;
      // finally:
      onDisk := onDisk - {originScreenshotPath};
      onDisk := onDisk - {destinationScreenshotPath};
      assert onDisk == target.onDisk;
      stop := None;
    }

    /** `run()`: the do/while loop at Navigator.ts:51-89. */
    method Run(o: Oracles) returns (outcome: RunOutcome)
      modifies this
      ensures (State(), outcome) == Drain(old(State()), originBase, destinationBase, o)
    {
      if |queue| == 0 {
        return EmptyQueue;
      }
      while true
        invariant |queue| > 0
        invariant Drain(State(), originBase, destinationBase, o) == Drain(old(State()), originBase, destinationBase, o)
        decreases |queue|
      {
        var stop := Pass(o);
        if stop.Some? {
          return stop.value;
        }
        if |queue| == 0 {
          return Completed;
        }
      }
    }
  }
}
