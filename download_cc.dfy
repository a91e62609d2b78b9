/** The Common Crawl sample downloader (ingestion/download_cc.py): which
    lines of the URL file are used, how `--max` cuts the list, where each
    file is written, and the byte and percentage accounting while it
    streams. The HTTP response is given as its `Content-Length` header and
    its sequence of chunks, or a failure; the file system as a map from path
    to contents. */
module DownloadCc {
  import opened Common
  import opened Text

  // ----- the URL file -----

  predicate KeepLine(line: string)
  {
    var s := Strip(line);
    s != [] && !StartsWith(s, "#")
  }

  /** The URL a line contributes, if any. */
  function UrlOf(line: string): Option<string>
  {
    if KeepLine(line) then Some(Strip(line)) else None
  }

  /** `read_urls`: the stripped lines that are neither blank nor comments,
      in file order. */
  function ReadUrls(lines: seq<string>): (urls: seq<string>)
    ensures |urls| <= |lines|
    ensures forall i :: 0 <= i < |urls| ==> urls[i] != [] && Trimmed(urls[i]) && urls[i][0] != '#'
  {
    var urls := FilterMap(UrlOf, lines);
    forall i | 0 <= i < |urls|
      ensures urls[i] != [] && Trimmed(urls[i]) && urls[i][0] != '#'
    {
      FilterMapMembers(UrlOf, lines);
      assert urls[i] in urls;
      var j :| 0 <= j < |lines| && UrlOf(lines[j]) == Some(urls[i]);
      UrlShape(lines[j]);
    }
    urls
  }

  lemma UrlShape(line: string)
    requires KeepLine(line)
    ensures var u := Strip(line); u != [] && Trimmed(u) && u[0] != '#'
  {
    var u := Strip(line);
    assert !StartsWith(u, "#");
  }

  lemma ReadUrlsMembers(lines: seq<string>)
    ensures forall u :: u in ReadUrls(lines) <==>
      exists i :: 0 <= i < |lines| && KeepLine(lines[i]) && u == Strip(lines[i])
  {
    FilterMapMembers(UrlOf, lines);
  }

  /** The file is read line by line: the URLs of two consecutive parts are
      the URLs of the first followed by those of the second. */
  lemma ReadUrlsConcat(a: seq<string>, b: seq<string>)
    ensures ReadUrls(a + b) == ReadUrls(a) + ReadUrls(b)
  {
    FilterMapConcat(UrlOf, a, b);
  }

  // ----- `--max` -----

  /** Python's `s[:n]`; a negative `n` counts from the end. */
  function SliceTo<T>(s: seq<T>, n: int): (r: seq<T>)
    ensures |r| <= |s| && r == s[..|r|]
    ensures n >= 0 ==> |r| == if n < |s| then n else |s|
    ensures n < 0 ==> |r| == if -n < |s| then |s| + n else 0
  {
    if n >= 0 then (if n < |s| then s[..n] else s)
    else (if -n < |s| then s[..|s| + n] else [])
  }

  /** `if args.max: urls = urls[:args.max]`: `None` and `0` keep them all. */
  function Truncate(urls: seq<string>, max: Option<int>): (r: seq<string>)
    ensures max.None? || max.value == 0 ==> r == urls
    ensures max.Some? && max.value > 0 ==> r == urls[..if max.value < |urls| then max.value else |urls|]
  {
    if max.None? || max.value == 0 then urls else SliceTo(urls, max.value)
  }

  // ----- the target file -----

  /** `os.path.basename`: what follows the last `/`. */
  function Basename(path: string): (r: string)
    ensures '/' !in r
    ensures |r| <= |path| && path[|path| - |r|..] == r
    ensures |r| < |path| ==> path[|path| - |r| - 1] == '/'
  {
    if path == [] || path[|path| - 1] == '/' then []
    else Basename(path[..|path| - 1]) + [path[|path| - 1]]
  }

  /** `os.path.join(directory, name)` on POSIX. */
  function JoinPath(directory: string, name: string): (r: string)
    ensures |name| <= |r| && r[|r| - |name|..] == name
  {
    if name != [] && name[0] == '/' then name
    else if directory == [] || directory[|directory| - 1] == '/' then directory + name
    else directory + "/" + name
  }

  // ----- streaming -----

  /** Python's `a // b`, which rounds toward minus infinity. */
  function FloorDiv(a: int, b: int): int
    requires b != 0
  {
    if b > 0 then a / b else (-a) / (-b)
  }

  /** The bytes of the chunks, in order. */
  function Flatten(chunks: seq<seq<bv8>>): seq<bv8>
  {
    if chunks == [] then [] else Flatten(chunks[..|chunks| - 1]) + chunks[|chunks| - 1]
  }

  /** The sum of the chunk lengths. */
  function SumLengths(chunks: seq<seq<bv8>>): nat
  {
    if chunks == [] then 0 else |chunks[0]| + SumLengths(chunks[1..])
  }

  /** The percentages printed while `chunks` arrive: one for each non-empty
      chunk, and only when `Content-Length` is non-zero. */
  function Progress(chunks: seq<seq<bv8>>, total: int): seq<int>
  {
    if chunks == [] then []
    else
      Progress(chunks[..|chunks| - 1], total) +
      (if chunks[|chunks| - 1] != [] && total != 0 then [FloorDiv(|Flatten(chunks)| * 100, total)] else [])
  }

  /** What the server does with one request: it fails before any byte is
      written (a connection error, the timeout, a non-numeric
      `Content-Length`, or an error status from `raise_for_status`), or it
      answers with its `Content-Length` (0 when absent) and its chunks. */
  datatype Response = Failure | Answer(total: int, chunks: seq<seq<bv8>>)

  /** Where `download_url` writes `url`. */
  function Target(outDir: string, url: string): string
  {
    JoinPath(outDir, Basename(url))
  }

  function TargetIn(outDir: string): string -> string
  {
    url => Target(outDir, url)
  }

  /** Whether a request for `url` that gets `response` writes a file: it must
      be answered, and the URL must have a file name. A URL ending in `/`
      targets the output directory itself, and `open` on it raises. */
  predicate Writes(url: string, response: Response)
  {
    Basename(url) != [] && response.Answer?
  }

  /** `download_url`: skipped when the target exists; otherwise the
      response is streamed into it, or the request (or, for a URL without a
      file name, the `open` of the directory) raises. */
  method DownloadUrl(url: string, outDir: string, targetExists: bool, response: Response)
    returns (outPath: string, written: Option<seq<bv8>>, downloaded: nat, progress: seq<int>, raised: bool)
    ensures outPath == Target(outDir, url)
    ensures raised <==> !targetExists && (response.Failure? || Basename(url) == [])
    ensures targetExists || raised ==> written == None && downloaded == 0 && progress == []
    ensures written.Some? <==> !targetExists && Writes(url, response)
    ensures !targetExists && Writes(url, response) ==>
      written == Some(Flatten(response.chunks)) && downloaded == |Flatten(response.chunks)|
    ensures !targetExists && Writes(url, response) ==> progress == Progress(response.chunks, response.total)
  {
    var filename := Basename(url);
    outPath := JoinPath(outDir, filename);
    written, downloaded, progress, raised := None, 0, [], false;
    if targetExists {
      return;
    }
    if response.Failure? {
      raised := true;
      return;
    }
    if filename == [] {
      // `open(out_path, "wb")` on the directory raises before the first chunk.
      raised := true;
      return;
    }
    var file;
    file, downloaded, progress := Stream(response.chunks, response.total);
    written := Some(file);
  }

  // ----- `main` -----

  /** The files after one `download_url(url, ...)` whose request gets
      `response`: an existing target is left alone, a request that does not
      write (`Writes`) changes nothing, and otherwise the target holds the
      response's bytes. */
  function AfterDownload(files: map<string, seq<bv8>>, target: string -> string, url: string, response: Response): map<string, seq<bv8>>
  {
    var path := target(url);
    if path in files || !Writes(url, response) then files else files[path := Flatten(response.chunks)]
  }

  /** The files after `main`'s loop over `urls`, where the request for the
      `i`-th URL gets `fetch(i, urls[i])`. */
  function AfterDownloads(files: map<string, seq<bv8>>, target: string -> string, urls: seq<string>, fetch: (nat, string) -> Response): map<string, seq<bv8>>
    decreases |urls|
  {
    if urls == [] then files
    else
      var k := |urls| - 1;
      AfterDownload(AfterDownloads(files, target, urls[..k], fetch), target, urls[k], fetch(k, urls[k]))
  }

  /** `main`: the URLs left after `--max` are downloaded one after another
      into `outDir`; a failure is reported and the loop goes on, and an
      empty list downloads nothing. */
  method DownloadAll(lines: seq<string>, max: Option<int>, outDir: string, files0: map<string, seq<bv8>>, fetch: (nat, string) -> Response)
    returns (attempted: seq<string>, files: map<string, seq<bv8>>)
    ensures attempted == Truncate(ReadUrls(lines), max)
    ensures ReadUrls(lines) == [] ==> attempted == [] && files == files0
    ensures files == AfterDownloads(files0, TargetIn(outDir), attempted, fetch)
  {
    var urls := ReadUrls(lines);
    urls := Truncate(urls, max);
    if urls == [] {
      return [], files0;
    }
    attempted := urls;
    files := DownloadEach(urls, outDir, files0, fetch);
  }

  /** The loop `for u in urls: try: download_url(u, ...) except ...`. */
  method DownloadEach(urls: seq<string>, outDir: string, files0: map<string, seq<bv8>>, fetch: (nat, string) -> Response)
    returns (files: map<string, seq<bv8>>)
    ensures files == AfterDownloads(files0, TargetIn(outDir), urls, fetch)
  {
    files := files0;
    for k := 0 to |urls|
      invariant files == AfterDownloads(files0, TargetIn(outDir), urls[..k], fetch)
    {
      var u := urls[k];
      var outPath, written, downloaded, progress, raised := DownloadUrl(u, outDir, Target(outDir, u) in files, fetch(k, u));
      assert TargetIn(outDir)(u) == outPath;
      DownloadStep(files, TargetIn(outDir), u, fetch(k, u), outPath, written);
      AfterDownloadsStep(files0, TargetIn(outDir), urls, fetch, k);
      if written.Some? {
        files := files[outPath := written.value];
      }
    }
    assert urls[..|urls|] == urls;
  }

  /** What one `download_url` call leaves is `AfterDownload`. */
  lemma DownloadStep(files: map<string, seq<bv8>>, target: string -> string, url: string, response: Response,
                     outPath: string, written: Option<seq<bv8>>)
    requires outPath == target(url)
    requires outPath in files || !Writes(url, response) ==> written == None
    requires outPath !in files && Writes(url, response) ==> written == Some(Flatten(response.chunks))
    ensures (if written.Some? then files[outPath := written.value] else files) == AfterDownload(files, target, url, response)
  {
  }

  lemma AfterDownloadsStep(files0: map<string, seq<bv8>>, target: string -> string, urls: seq<string>, fetch: (nat, string) -> Response, k: nat)
    requires k < |urls|
    ensures AfterDownloads(files0, target, urls[..k + 1], fetch) ==
      AfterDownload(AfterDownloads(files0, target, urls[..k], fetch), target, urls[k], fetch(k, urls[k]))
  {
    assert urls[..k + 1][..k] == urls[..k];
  }

  /** A file that existed before is never overwritten. */
  lemma {:induction false} AfterDownloadsKeeps(files0: map<string, seq<bv8>>, target: string -> string, urls: seq<string>, fetch: (nat, string) -> Response)
    ensures forall p :: p in files0 ==>
      p in AfterDownloads(files0, target, urls, fetch) && AfterDownloads(files0, target, urls, fetch)[p] == files0[p]
    decreases |urls|
  {
    if urls != [] {
      AfterDownloadsKeeps(files0, target, urls[..|urls| - 1], fetch);
    }
  }

  /** The files afterwards are the ones before plus the targets of the URLs
      whose request wrote a file (`Writes`). */
  lemma AfterDownloadsKeys(files0: map<string, seq<bv8>>, target: string -> string, urls: seq<string>, fetch: (nat, string) -> Response)
    ensures forall p :: p in AfterDownloads(files0, target, urls, fetch) <==>
      p in files0 || exists i :: 0 <= i < |urls| && Writes(urls[i], fetch(i, urls[i])) && target(urls[i]) == p
  {
    AfterDownloadsKeeps(files0, target, urls, fetch);
    forall p | p in AfterDownloads(files0, target, urls, fetch) && p !in files0
      ensures exists i :: 0 <= i < |urls| && Writes(urls[i], fetch(i, urls[i])) && target(urls[i]) == p
    {
      var i := AfterDownloadsSource(files0, target, urls, fetch, p);
    }
    forall p | exists i :: 0 <= i < |urls| && Writes(urls[i], fetch(i, urls[i])) && target(urls[i]) == p
      ensures p in AfterDownloads(files0, target, urls, fetch)
    {
      var i :| 0 <= i < |urls| && Writes(urls[i], fetch(i, urls[i])) && target(urls[i]) == p;
      AfterDownloadsHas(files0, target, urls, fetch, i);
    }
  }

  /** URLs without a file name write nothing, whatever their requests get. */
  lemma {:induction false} NamelessWritesNothing(files0: map<string, seq<bv8>>, target: string -> string, urls: seq<string>, fetch: (nat, string) -> Response)
    requires forall i :: 0 <= i < |urls| ==> Basename(urls[i]) == []
    ensures AfterDownloads(files0, target, urls, fetch) == files0
    decreases |urls|
  {
    if urls != [] {
      var k := |urls| - 1;
      NamelessWritesNothing(files0, target, urls[..k], fetch);
      assert Basename(urls[k]) == [];
    }
  }

  /** A new file is the target of some URL whose request wrote it. */
  lemma {:induction false} AfterDownloadsSource(files0: map<string, seq<bv8>>, target: string -> string, urls: seq<string>, fetch: (nat, string) -> Response, p: string)
    returns (i: nat)
    requires p in AfterDownloads(files0, target, urls, fetch) && p !in files0
    ensures i < |urls| && Writes(urls[i], fetch(i, urls[i])) && target(urls[i]) == p
    decreases |urls|
  {
    var k := |urls| - 1;
    var init := urls[..k];
    var prev := AfterDownloads(files0, target, init, fetch);
    assert AfterDownloads(files0, target, urls, fetch) == AfterDownload(prev, target, urls[k], fetch(k, urls[k]));
    if p in prev {
      i := AfterDownloadsSource(files0, target, init, fetch, p);
      assert init[i] == urls[i];
    } else {
      i := k;
    }
  }

  /** The target of every URL whose request writes exists afterwards. */
  lemma {:induction false} AfterDownloadsHas(files0: map<string, seq<bv8>>, target: string -> string, urls: seq<string>, fetch: (nat, string) -> Response, i: nat)
    requires i < |urls| && Writes(urls[i], fetch(i, urls[i]))
    ensures target(urls[i]) in AfterDownloads(files0, target, urls, fetch)
    decreases |urls|
  {
    var k := |urls| - 1;
    var init := urls[..k];
    var prev := AfterDownloads(files0, target, init, fetch);
    assert AfterDownloads(files0, target, urls, fetch) == AfterDownload(prev, target, urls[k], fetch(k, urls[k]));
    if i < k {
      assert init[i] == urls[i];
      AfterDownloadsHas(files0, target, init, fetch, i);
    }
  }

  /** Two URLs with the same file name share a target: the first one whose
      request writes is stored, and the later ones find it and are skipped. */
  lemma {:induction false} AfterDownloadsFirstWins(files0: map<string, seq<bv8>>, target: string -> string, urls: seq<string>, fetch: (nat, string) -> Response, i: nat)
    requires i < |urls| && Writes(urls[i], fetch(i, urls[i])) && target(urls[i]) !in files0
    requires forall j :: 0 <= j < i && Writes(urls[j], fetch(j, urls[j])) ==> target(urls[j]) != target(urls[i])
    ensures target(urls[i]) in AfterDownloads(files0, target, urls, fetch)
    ensures AfterDownloads(files0, target, urls, fetch)[target(urls[i])] == Flatten(fetch(i, urls[i]).chunks)
    decreases |urls|
  {
    var k := |urls| - 1;
    var init := urls[..k];
    var prev := AfterDownloads(files0, target, init, fetch);
    var p := target(urls[i]);
    assert AfterDownloads(files0, target, urls, fetch) == AfterDownload(prev, target, urls[k], fetch(k, urls[k]));
    if i == k {
      AfterDownloadsKeys(files0, target, init, fetch);
      forall j | 0 <= j < |init| && Writes(init[j], fetch(j, init[j]))
        ensures target(init[j]) != p
      {
        assert init[j] == urls[j];
      }
      assert p !in prev;
    } else {
      assert init[i] == urls[i];
      forall j | 0 <= j < i && Writes(init[j], fetch(j, init[j]))
        ensures target(init[j]) != target(init[i])
      {
        assert init[j] == urls[j];
      }
      AfterDownloadsFirstWins(files0, target, init, fetch, i);
    }
  }

  /** The chunk loop: each non-empty chunk is appended to the file and
      counted, and a percentage is printed when the total is known. */
  method Stream(chunks: seq<seq<bv8>>, total: int) returns (file: seq<bv8>, downloaded: nat, progress: seq<int>)
    ensures file == Flatten(chunks) && downloaded == |file|
    ensures progress == Progress(chunks, total)
  {
    file, downloaded, progress := [], 0, [];
    var k := 0;
    while k < |chunks|
      invariant k <= |chunks|
      invariant file == Flatten(chunks[..k]) && downloaded == |file|
      invariant progress == Progress(chunks[..k], total)
    {
      var chunk := chunks[k];
      StreamStep(chunks, k, total);
      if chunk != [] {
        file := file + chunk;
        downloaded := downloaded + |chunk|;
        if total != 0 {
          var percent := FloorDiv(downloaded * 100, total);
          progress := progress + [percent];
        }
      }
      k := k + 1;
    }
    assert chunks[..k] == chunks;
  }

  lemma StreamStep(chunks: seq<seq<bv8>>, k: nat, total: int)
    requires k < |chunks|
    ensures Flatten(chunks[..k + 1]) == Flatten(chunks[..k]) + chunks[k]
    ensures Progress(chunks[..k + 1], total) == Progress(chunks[..k], total) +
      (if chunks[k] != [] && total != 0 then [FloorDiv(|Flatten(chunks[..k + 1])| * 100, total)] else [])
  {
    var next := chunks[..k + 1];
    assert next[..k] == chunks[..k] && next[k] == chunks[k];
  }

  // ----- properties of the accounting -----

  /** `downloaded` is the sum of the chunk lengths. */
  lemma {:induction false} FlattenLength(chunks: seq<seq<bv8>>)
    ensures |Flatten(chunks)| == SumLengths(chunks)
  {
    if chunks != [] {
      var init := chunks[..|chunks| - 1];
      FlattenLength(init);
      SumLengthsSnoc(init, chunks[|chunks| - 1]);
      assert init + [chunks[|chunks| - 1]] == chunks;
    }
  }

  lemma {:induction false} SumLengthsSnoc(a: seq<seq<bv8>>, c: seq<bv8>)
    ensures SumLengths(a + [c]) == SumLengths(a) + |c|
  {
    if a != [] {
      assert (a + [c])[1..] == a[1..] + [c];
      SumLengthsSnoc(a[1..], c);
    }
  }

  /** A percentage of a count that has not passed the total is within
      0..100. */
  lemma PercentBounded(downloaded: nat, total: int)
    requires 0 < total && downloaded <= total
    ensures 0 <= FloorDiv(downloaded * 100, total) <= 100
  {
    DivMonotone(0, downloaded * 100, total);
    DivMonotone(downloaded * 100, 100 * total, total);
    MulDivCancel(100, total);
  }

  /** While the server sends no more than it announced, every printed
      percentage lies within 0..100 and they never decrease. */
  lemma {:induction false} ProgressBounded(chunks: seq<seq<bv8>>, total: int)
    requires 0 < total && |Flatten(chunks)| <= total
    ensures forall i :: 0 <= i < |Progress(chunks, total)| ==> 0 <= Progress(chunks, total)[i] <= 100
    ensures forall i, j :: 0 <= i <= j < |Progress(chunks, total)| ==>
      Progress(chunks, total)[i] <= Progress(chunks, total)[j]
  {
    if chunks != [] {
      var init := chunks[..|chunks| - 1];
      var last := chunks[|chunks| - 1];
      assert |Flatten(init)| <= |Flatten(chunks)|;
      ProgressBounded(init, total);
      var p := Progress(init, total);
      if last != [] {
        var q := FloorDiv(|Flatten(chunks)| * 100, total);
        PercentBounded(|Flatten(chunks)|, total);
        ProgressAtMost(init, total, |Flatten(chunks)|);
        assert Progress(chunks, total) == p + [q];
        assert forall i :: 0 <= i < |p| ==> p[i] <= q;
      } else {
        assert Progress(chunks, total) == p;
      }
    }
  }

  /** Every percentage printed so far is at most that of any later count. */
  lemma {:induction false} ProgressAtMost(chunks: seq<seq<bv8>>, total: int, later: nat)
    requires 0 < total && |Flatten(chunks)| <= later
    ensures forall i :: 0 <= i < |Progress(chunks, total)| ==>
      Progress(chunks, total)[i] <= FloorDiv(later * 100, total)
  {
    if chunks != [] {
      var init := chunks[..|chunks| - 1];
      ProgressAtMost(init, total, later);
      if chunks[|chunks| - 1] != [] {
        DivMonotone(|Flatten(chunks)| * 100, later * 100, total);
      }
    }
  }

  lemma DivMonotone(a: int, b: int, d: int)
    requires 0 < d && a <= b
    ensures a / d <= b / d
  {
    var qa, qb := a / d, b / d;
    assert a == d * qa + a % d && b == d * qb + b % d;
    if qa > qb {
      MulMonotone(d, 1, qa - qb);
    }
  }

  lemma MulMonotone(d: nat, x: int, y: int)
    requires x <= y
    ensures d * x <= d * y
  {
  }

  lemma MulDivCancel(n: int, d: int)
    requires 0 < d
    ensures (n * d) / d == n
  {
    var q, r := (n * d) / d, (n * d) % d;
    assert n * d == d * q + r && 0 <= r < d;
    assert d * (n - q) == r;
    if n - q >= 1 {
      MulMonotone(d, 1, n - q);
    } else if n - q <= -1 {
      MulMonotone(d, n - q, -1);
    }
  }

  /** When the announced length is exactly what arrives, the last printed
      percentage is 100. */
  lemma ProgressComplete(chunks: seq<seq<bv8>>, total: int)
    requires chunks != [] && chunks[|chunks| - 1] != [] && total == |Flatten(chunks)|
    ensures Progress(chunks, total) != [] && Progress(chunks, total)[|Progress(chunks, total)| - 1] == 100
  {
    var init := chunks[..|chunks| - 1];
    assert total > 0;
    MulDivCancel(100, total);
    assert total * 100 == 100 * total;
    assert Progress(chunks, total) == Progress(init, total) + [FloorDiv(total * 100, total)];
  }
}
