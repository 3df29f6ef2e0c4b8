/**
  The orchestration in src/main.ts: the `DEVICE()` and `BROWSER()` environment
  mappings, the decision between the cached page list and a fresh crawl, and the
  split of the page list into one chunk per worker (`CORES` of them). The workers
  themselves, the file system and the logger are not part of this model.
*/
module MainScript {
  import opened Wrappers
  import opened Strings
  import opened Types

  // ---------------------------------------------------------------------------------------------
  // DEVICE() and BROWSER()
  // ---------------------------------------------------------------------------------------------

  /** The value of `process.env.DEVICE` that selects each device class. */
  function DeviceName(w: DeviceWidth): string {
    match w
    case Desktop => "desktop"
    case Tablet => "tablet"
    case Mobile => "mobile"
  }

  /** `DEVICE()`: "tablet" and "mobile" select their widths; anything else, or no value, is the desktop. */
  function Device(env: Option<string>): (w: DeviceWidth)
    ensures w == Tablet <==> env == Some("tablet")
    ensures w == Mobile <==> env == Some("mobile")
    ensures w == Desktop <==> env != Some("tablet") && env != Some("mobile")
  {
    match env
    case Some("desktop") => Desktop
    case Some("tablet") => Tablet
    case Some("mobile") => Mobile
    case _ => Desktop
  }

  /** Each device class is selected by its own name. */
  lemma DeviceByName(w: DeviceWidth)
    ensures Device(Some(DeviceName(w))) == w
    ensures Pixels(Device(Some(DeviceName(w)))) == Pixels(w)
  {
  }

  /** `BROWSER()`: "firefox" and "edge" select their browsers; anything else, or no value, is Chrome. */
  function BrowserFromEnv(env: Option<string>): (b: Browser)
    ensures b == Firefox <==> env == Some("firefox")
    ensures b == Edge <==> env == Some("edge")
    ensures b == Chrome <==> env != Some("firefox") && env != Some("edge")
  {
    match env
    case Some("chrome") => Chrome
    case Some("firefox") => Firefox
    case Some("edge") => Edge
    case _ => Chrome
  }

  /** Each browser is selected by its enumeration value. */
  lemma BrowserByValue(b: Browser)
    ensures BrowserFromEnv(Some(BrowserValue(b))) == b
  {
  }

  // ---------------------------------------------------------------------------------------------
  // The page list
  // ---------------------------------------------------------------------------------------------

  /** What `main()` ends with when it cannot go on. */
  datatype MainError = CrawlIsNotAFunction

  /**
    The pages handed to the workers, given the parsed cache file (`None` when reading or
    parsing it failed, which leaves `pagesToNavigate` empty). With an empty list `main()`
    calls `crawl()` on a `Crawler`, a class without that method, so `main()` rejects.
  */
  function PagesToNavigate(cache: Option<seq<string>>): (r: Result<seq<string>, MainError>)
    ensures r.Success? <==> cache.Some? && |cache.value| > 0
    ensures r.Success? ==> r.value == cache.value
  {
    match cache
    case Some(pages) => if |pages| == 0 then Failure(CrawlIsNotAFunction) else Success(pages)
    case None => Failure(CrawlIsNotAFunction)
  }

  // ---------------------------------------------------------------------------------------------
  // The chunk partition
  // ---------------------------------------------------------------------------------------------

  /** `Math.ceil(pagesToNavigate.length / CORES)` */
  function ChunkSize(n: nat, cores: nat): (c: nat)
    requires cores >= 1
    ensures c * cores >= n
    ensures n > 0 ==> (c - 1) * cores < n
    ensures n == 0 ==> c == 0
  {
    var c := (n + cores - 1) / cores;
    CeilDiv(n, cores);
    c
  }

  lemma CeilDiv(n: nat, cores: nat)
    requires cores >= 1
    ensures var c := (n + cores - 1) / cores;
            c * cores >= n && (n > 0 ==> (c - 1) * cores < n) && (n == 0 ==> c == 0)
  {
    var c := (n + cores - 1) / cores;
    var r := (n + cores - 1) % cores;
    assert c * cores + r == n + cores - 1;
    assert (c - 1) * cores == c * cores - cores;
  }

  /** Chunk `i` (1-based): `slice(start, start + chunkSize)`, the last one `slice(start)`. */
  function Chunk(pages: seq<string>, cores: nat, i: nat): seq<string>
    requires 1 <= i <= cores
  {
    var c := ChunkSize(|pages|, cores);
    var start := (i - 1) * c;
    if i == cores then Slice(pages, start, |pages|) else Slice(pages, start, start + c)
  }

  /** The chunks of indices 1..CORES, in order. */
  function Chunks(pages: seq<string>, cores: nat): (r: seq<seq<string>>)
    requires cores >= 1
    ensures |r| == cores
  {
    seq(cores, k requires 0 <= k < cores => Chunk(pages, cores, k + 1))
  }

  /**
    The shape of `pageChunks` after the for-loop: an array `max(chunkSize, CORES + 1)` long
    whose index 0 and indices past `CORES` are holes and whose index `i` in 1..CORES holds chunk `i`.
  */
  predicate IsChunkTable(t: seq<Option<seq<string>>>, pages: seq<string>, cores: nat)
    requires cores >= 1
  {
    var c := ChunkSize(|pages|, cores);
    && |t| == (if c > cores + 1 then c else cores + 1)
    && t[0] == None
    && (forall i :: 1 <= i <= cores ==> t[i] == Some(Chunk(pages, cores, i)))
    && (forall i :: cores < i < |t| ==> t[i] == None)
  }

  /** The for-loop at main.ts:131-143, `new Array(chunkSize)` included. */
  method Partition(pages: seq<string>, cores: nat) returns (pageChunks: array<Option<seq<string>>>)
    requires cores >= 1
    ensures fresh(pageChunks)
    ensures IsChunkTable(pageChunks[..], pages, cores)
  {
    var chunkSize := ChunkSize(|pages|, cores);
    pageChunks := new Option<seq<string>>[if chunkSize > cores + 1 then chunkSize else cores + 1](_ => None);
    var start: nat := 0;
    for i := 1 to cores + 1
      invariant start == (i - 1) * chunkSize
      invariant pageChunks[0] == None
      invariant forall j :: 1 <= j < i ==> pageChunks[j] == Some(Chunk(pages, cores, j))
      invariant forall j :: i <= j < pageChunks.Length ==> pageChunks[j] == None
    {
      var chunk;
      if i == cores {
        chunk := Slice(pages, start, |pages|);
      } else {
        chunk := Slice(pages, start, start + chunkSize);
      }
      assert chunk == Chunk(pages, cores, i);
      pageChunks[i] := Some(chunk);
      MulStep(i, chunkSize);
      start := start + chunkSize;
    }
  }

  /** The chunks `pageChunks.forEach` passes to workers: the assigned entries in index order, holes skipped. */
  function Assigned(t: seq<Option<seq<string>>>): seq<seq<string>> {
    if |t| == 0 then []
    else
      var init := Assigned(t[..|t| - 1]);
      match t[|t| - 1]
      case None => init
      case Some(chunk) => init + [chunk]
  }

  /** The workers receive exactly chunks 1..CORES, in that order: one worker per core, empty chunks included. */
  lemma {:induction false} WorkersGetChunks(t: seq<Option<seq<string>>>, pages: seq<string>, cores: nat)
    requires cores >= 1 && IsChunkTable(t, pages, cores)
    ensures Assigned(t) == Chunks(pages, cores)
  {
    var all := Chunks(pages, cores);
    forall i | 1 <= i <= |all| ensures t[i] == Some(all[i - 1]) {
    }
    AssignedPrefix(t, all, |t|);
    assert t[..|t|] == t;
    assert all[..|all|] == all;
  }

  /** A table holding `xs` at indices 1..|xs| and holes elsewhere: its first `j` entries yield a prefix of `xs`. */
  lemma {:induction false} AssignedPrefix(t: seq<Option<seq<string>>>, xs: seq<seq<string>>, j: nat)
    requires |t| > |xs| && t[0] == None
    requires forall i :: 1 <= i <= |xs| ==> t[i] == Some(xs[i - 1])
    requires forall i :: |xs| < i < |t| ==> t[i] == None
    requires 1 <= j <= |t|
    ensures Assigned(t[..j]) == xs[..if j - 1 < |xs| then j - 1 else |xs|]
  {
    if j == 1 {
      assert t[..1][..0] == [];
    } else {
      AssignedPrefix(t, xs, j - 1);
      var prefix := t[..j];
      assert prefix[..j - 1] == t[..j - 1];
      assert prefix[j - 1] == t[j - 1];
      if j - 1 <= |xs| {
        assert xs[..j - 1] == xs[..j - 2] + [xs[j - 2]];
      }
    }
  }

  lemma MulStep(k: nat, c: nat)
    requires k >= 1
    ensures k * c == (k - 1) * c + c
  {
  }

  /** One level of concatenation. */
  function Flatten(chunks: seq<seq<string>>): seq<string> {
    if |chunks| == 0 then [] else Flatten(chunks[..|chunks| - 1]) + chunks[|chunks| - 1]
  }

  /** Every chunk but the last holds at most `chunkSize` pages. */
  lemma ChunkBound(pages: seq<string>, cores: nat, i: nat)
    requires 1 <= i < cores
    ensures |Chunk(pages, cores, i)| <= ChunkSize(|pages|, cores)
  {
  }

  /** The chunks, read in order, are the page list itself: every page once, order kept. */
  lemma ChunksCoverPages(pages: seq<string>, cores: nat)
    requires cores >= 1
    ensures Flatten(Chunks(pages, cores)) == pages
  {
    var c := ChunkSize(|pages|, cores);
    var all := Chunks(pages, cores);
    FirstChunks(pages, cores, cores - 1);
    assert all[..cores] == all;
    assert all[..cores][..cores - 1] == all[..cores - 1];
    var start := (cores - 1) * c;
    SliceConcat(pages, 0, start, |pages|);
    assert Slice(pages, 0, if start <= |pages| then |pages| else start) == pages;
  }

  /** The first `k` chunks, read in order, are the first `k * chunkSize` pages. */
  lemma {:induction false} FirstChunks(pages: seq<string>, cores: nat, k: nat)
    requires cores >= 1 && k < cores
    ensures Flatten(Chunks(pages, cores)[..k]) == Slice(pages, 0, k * ChunkSize(|pages|, cores))
  {
    var c := ChunkSize(|pages|, cores);
    var all := Chunks(pages, cores);
    if k > 0 {
      FirstChunks(pages, cores, k - 1);
      assert all[..k][..k - 1] == all[..k - 1];
      var start := (k - 1) * c;
      assert all[k - 1] == Slice(pages, start, start + c);
      MulStep(k, c);
      SliceConcat(pages, 0, start, start + c);
    }
  }
}
