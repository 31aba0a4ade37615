/** The batch scanner page: which dropped files are accepted, how they are
    merged into the list, removal, the scan state machine of the batch and
    repository scans, and the GitHub token dropped on a 401.

    Reading a file's text, the requests and the JSON bodies are abstracted:
    a dropped file arrives with its name, text and size, and each request's
    outcome is a parameter. Browser storage is a map from key to string. */
module BatchScanner {
  import opened Wrappers
  import opened Strings
  import opened Seqs

  /** The size limit of an accepted file (exclusive). */
  const MaxFileSize: nat := 50000
  const TokenKey: string := "github_token"

  /** The accepted extensions, with their dot, as the page lists them. */
  const CodeExtensions: seq<string> := [
    ".py", ".js", ".ts", ".tsx", ".jsx", ".java", ".c", ".cpp", ".h", ".hpp",
    ".cs", ".go", ".rb", ".php", ".rs", ".swift", ".kt", ".scala", ".sh",
    ".sql", ".html", ".css", ".vue", ".svelte"]

  datatype BatchFile = BatchFile(filename: string, code: string, size: nat)

  datatype ScanState = Idle | Scanning | Done

  /** One file's verdict as the server reports it; the page only stores it. */
  datatype ScanResult = ScanResult(
    filename: string, status: string, message: string, riskLevel: string,
    confidence: real, language: string)

  datatype Summary = Summary(totalFiles: nat, threats: nat, clean: nat, projectScore: real, projectGrade: string)

  datatype Page = Page(
    files: seq<BatchFile>, results: seq<ScanResult>, summary: Option<Summary>,
    state: ScanState, repoUrl: string, token: Option<string>, repos: seq<string>)

  type Storage = map<string, string>

  // ---------------------------------------------------------------------
  // Accepting and merging files.

  /** `'.' + name.split('.').pop().toLowerCase()`: the lower-cased text
      after the last dot, or the whole name when there is no dot. */
  function Extension(name: string): (r: string)
    ensures |r| >= 1 && r[0] == '.'
    ensures '.' !in r[1..]
  {
    var parts := Split(name, '.');
    var last := parts[|parts| - 1];
    assert '.' !in last;
    var ext := "." + Lower(last);
    assert forall i | 0 <= i < |ext| - 1 :: ext[1..][i] == ToLower(last[i]);
    ext
  }

  /** A file is accepted iff its extension is listed and it is smaller
      than 50,000 bytes. */
  predicate Accepted(f: BatchFile) {
    Extension(f.filename) in CodeExtensions && f.size < MaxFileSize
  }

  /** The extension of `base.ext` is `ext`, lower-cased, whatever the base
      contains. */
  lemma ExtensionAfterLastDot(base: string, ext: string)
    requires '.' !in ext
    ensures Extension(base + "." + ext) == "." + Lower(ext)
  {
    SplitAround(base, ext, '.');
    SplitNoSeparator(ext, '.');
    assert base + "." + ext == base + ['.'] + ext;
  }

  /** Whether `base.ext` is accepted depends only on its size and on
      `ext`, case aside. */
  lemma AcceptedByExtension(base: string, ext: string, code: string, size: nat)
    requires '.' !in ext
    ensures Accepted(BatchFile(base + "." + ext, code, size)) <==> "." + Lower(ext) in CodeExtensions && size < MaxFileSize
  {
    ExtensionAfterLastDot(base, ext);
  }

  /** A name without any dot is its own extension: a file named `go` or
      `SH` is accepted like `x.go`. */
  lemma ExtensionWithoutDot(name: string)
    requires '.' !in name
    ensures Extension(name) == "." + Lower(name)
  {
    SplitNoSeparator(name, '.');
  }

  /** The files of one drop that pass the filter. */
  function AcceptedFiles(dropped: seq<BatchFile>): (r: seq<BatchFile>)
    ensures forall i | 0 <= i < |r| :: r[i] in dropped && Accepted(r[i])
    ensures forall i | 0 <= i < |dropped| && Accepted(dropped[i]) :: dropped[i] in r
    ensures forall f :: multiset(r)[f] == if Accepted(f) then multiset(dropped)[f] else 0
  {
    var r := Filter(Accepted, dropped);
    forall f
      ensures multiset(r)[f] == if Accepted(f) then multiset(dropped)[f] else 0
    {
      FilterCount(Accepted, dropped, f);
    }
    r
  }

  /** The accepted files keep the order of the drop: files dropped
      earlier come first, and each file alone is kept or not by the
      filter. */
  lemma AcceptedFilesInOrder(a: seq<BatchFile>, b: seq<BatchFile>, f: BatchFile)
    ensures AcceptedFiles(a + b) == AcceptedFiles(a) + AcceptedFiles(b)
    ensures AcceptedFiles([f]) == if Accepted(f) then [f] else []
  {
    FilterAppend(Accepted, a, b);
    FilterSingleton(Accepted, f);
  }

  function Names(files: seq<BatchFile>): set<string> {
    set f | f in files :: f.filename
  }

  /** The update after a drop: the previous files, in order, then the
      accepted files whose name was not already in the list. The check is
      against the previous list only, so two accepted files of one drop
      with the same name are both added. */
  function Merge(prev: seq<BatchFile>, dropped: seq<BatchFile>): (r: seq<BatchFile>)
    ensures |prev| <= |r| && r[..|prev|] == prev
    ensures forall i | |prev| <= i < |r| :: r[i] in dropped && Accepted(r[i]) && r[i].filename !in Names(prev)
    ensures forall i | 0 <= i < |dropped| && Accepted(dropped[i]) && dropped[i].filename !in Names(prev) :: dropped[i] in r[|prev|..]
    ensures forall f :: multiset(r[|prev|..])[f] == if Accepted(f) && f.filename !in Names(prev) then multiset(dropped)[f] else 0
  {
    var existing := Names(prev);
    var isNew := (f: BatchFile) => f.filename !in existing;
    var newFiles := Filter(isNew, AcceptedFiles(dropped));
    forall f
      ensures multiset(newFiles)[f] == if Accepted(f) && f.filename !in existing then multiset(dropped)[f] else 0
    {
      FilterCount(isNew, AcceptedFiles(dropped), f);
    }
    assert (prev + newFiles)[|prev|..] == newFiles;
    prev + newFiles
  }

  /** The appended files keep the order of the drop: the part appended
      for `a + b` is the part for `a` followed by the part for `b`. */
  lemma MergeInOrder(prev: seq<BatchFile>, a: seq<BatchFile>, b: seq<BatchFile>)
    ensures Merge(prev, a + b)[|prev|..] == Merge(prev, a)[|prev|..] + Merge(prev, b)[|prev|..]
  {
    var isNew := (f: BatchFile) => f.filename !in Names(prev);
    AcceptedFilesInOrder(a, b, BatchFile("", "", 0));
    FilterAppend(isNew, AcceptedFiles(a), AcceptedFiles(b));
    assert Merge(prev, a + b)[|prev|..] == Filter(isNew, AcceptedFiles(a + b));
    assert Merge(prev, a)[|prev|..] == Filter(isNew, AcceptedFiles(a));
    assert Merge(prev, b)[|prev|..] == Filter(isNew, AcceptedFiles(b));
  }

  /** Two accepted files of one drop sharing a new name are both kept. */
  lemma SameNamedPairBothAdded(prev: seq<BatchFile>, a: BatchFile, b: BatchFile)
    requires Accepted(a) && Accepted(b) && a.filename == b.filename
    requires a.filename !in Names(prev)
    ensures Merge(prev, [a, b]) == prev + [a, b]
  {
    FilterAll(Accepted, [a, b]);
    var keep := (f: BatchFile) => f.filename !in Names(prev);
    FilterAll(keep, [a, b]);
  }

  /** `removeFile`: every file with that name goes, the others stay in
      order. */
  function Remove(files: seq<BatchFile>, name: string): (r: seq<BatchFile>)
    ensures forall i | 0 <= i < |r| :: r[i] in files && r[i].filename != name
    ensures forall i | 0 <= i < |files| && files[i].filename != name :: files[i] in r
    ensures name !in Names(r)
    ensures forall f :: multiset(r)[f] == if f.filename != name then multiset(files)[f] else 0
  {
    var keep := (f: BatchFile) => f.filename != name;
    var r := Filter(keep, files);
    forall f
      ensures multiset(r)[f] == if f.filename != name then multiset(files)[f] else 0
    {
      FilterCount(keep, files, f);
    }
    r
  }

  /** The kept files stay in order: removing from `a + b` removes from
      each part, and a single file stays iff it has another name. */
  lemma RemoveKeepsOrder(a: seq<BatchFile>, b: seq<BatchFile>, f: BatchFile, name: string)
    ensures Remove(a + b, name) == Remove(a, name) + Remove(b, name)
    ensures Remove([f], name) == if f.filename != name then [f] else []
  {
    var keep := (g: BatchFile) => g.filename != name;
    FilterAppend(keep, a, b);
    FilterSingleton(keep, f);
  }

  /** Dropping a single acceptable file with a new name and then removing
      it restores the list. */
  lemma {:induction false} AddThenRemove(prev: seq<BatchFile>, f: BatchFile)
    requires Accepted(f) && f.filename !in Names(prev)
    ensures Remove(Merge(prev, [f]), f.filename) == prev
  {
    var keep := (g: BatchFile) => g.filename != f.filename;
    assert AcceptedFiles([f]) == [f];
    var newFiles := (g: BatchFile) => g.filename !in Names(prev);
    assert Filter(newFiles, [f]) == [f];
    assert Merge(prev, [f]) == prev + [f];
    FilterAppend(keep, prev, [f]);
    forall i | 0 <= i < |prev|
      ensures keep(prev[i])
    {
      assert prev[i].filename in Names(prev);
    }
    FilterAll(keep, prev);
    assert Filter(keep, [f]) == [];
  }

  /** Removing twice is removing once. */
  lemma RemoveIdempotent(files: seq<BatchFile>, name: string)
    ensures Remove(Remove(files, name), name) == Remove(files, name)
  {
    FilterIdempotent((f: BatchFile) => f.filename != name, files);
  }

  // ---------------------------------------------------------------------
  // The scan state machine.

  /** The outcome of a scan request: a failure (a thrown request, a status
      outside 2xx or an unreadable body), or the server's results and
      summary. */
  datatype ScanReply = ScanFailed | ScanOk(results: seq<ScanResult>, summary: Summary)

  /** The state while the request is outstanding: results and summary
      cleared. */
  function BeginScan(p: Page): (r: Page)
    ensures r.state == Scanning && r.results == [] && r.summary == None
    ensures r.files == p.files && r.repoUrl == p.repoUrl && r.token == p.token && r.repos == p.repos
  {
    p.(state := Scanning, results := [], summary := None)
  }

  function FinishScan(p: Page, reply: ScanReply): Page {
    match reply
    case ScanFailed => p.(state := Idle)
    case ScanOk(results, summary) => p.(results := results, summary := Some(summary), state := Done)
  }

  /** What the batch request sends: each file's name and text, in list
      order. */
  function BatchRequest(files: seq<BatchFile>): (r: seq<(string, string)>)
    ensures |r| == |files|
    ensures forall i | 0 <= i < |files| :: r[i] == (files[i].filename, files[i].code)
  {
    seq(|files|, i requires 0 <= i < |files| => (files[i].filename, files[i].code))
  }

  /** `runBatchScan`: nothing with no files; otherwise a failure leaves
      the page idle with no results or summary, and success leaves it done
      with the server's results and summary. The file list is never
      touched. */
  function RunBatchScan(p: Page, reply: ScanReply): (r: Page)
    ensures |p.files| == 0 ==> r == p
    ensures |p.files| > 0 && reply.ScanFailed? ==> r == p.(state := Idle, results := [], summary := None)
    ensures |p.files| > 0 && reply.ScanOk? ==> r == p.(state := Done, results := reply.results, summary := Some(reply.summary))
    ensures r.files == p.files
  {
    if |p.files| == 0 then p else FinishScan(BeginScan(p), reply)
  }

  /** `runGithubScan`: the same, guarded by a non-empty repository URL
      instead of a non-empty file list. */
  function RunGithubScan(p: Page, reply: ScanReply): (r: Page)
    ensures p.repoUrl == "" ==> r == p
    ensures p.repoUrl != "" && reply.ScanFailed? ==> r == p.(state := Idle, results := [], summary := None)
    ensures p.repoUrl != "" && reply.ScanOk? ==> r == p.(state := Done, results := reply.results, summary := Some(reply.summary))
  {
    if p.repoUrl == "" then p else FinishScan(BeginScan(p), reply)
  }

  /** `resetScan`: no files, no results, no summary, idle; the repository
      URL and token stay. */
  function ResetScan(p: Page): (r: Page)
    ensures r.files == [] && r.results == [] && r.summary == None && r.state == Idle
    ensures r.repoUrl == p.repoUrl && r.token == p.token && r.repos == p.repos
  {
    p.(files := [], results := [], summary := None, state := Idle)
  }

  /** A finished request never leaves the page scanning: from any state
      that is not scanning, either run ends idle or done, and it is done
      exactly when the reply succeeded and the guard let it through. */
  lemma RunsSettle(p: Page, reply: ScanReply)
    requires p.state != Scanning
    ensures RunBatchScan(p, reply).state != Scanning
    ensures RunGithubScan(p, reply).state != Scanning
    ensures RunBatchScan(p, reply).state == Done <==> (|p.files| > 0 && reply.ScanOk?) || (|p.files| == 0 && p.state == Done)
  {
  }

  // ---------------------------------------------------------------------
  // The GitHub token.

  /** The page's initial token: the stored one, if any. */
  function InitialToken(store: Storage): (t: Option<string>)
    ensures t.Some? <==> TokenKey in store
  {
    if TokenKey in store then Some(store[TokenKey]) else None
  }

  /** The repository listing's outcome: a thrown request, or a status
      with the repositories of a successful body. */
  datatype ReposReply = ReposThrown | ReposAnswer(status: nat, repos: seq<string>)

  datatype Effect = Effect(page: Page, store: Storage)

  /** The listing request made whenever the token is set (not null and
      not empty): a 2xx status stores the repositories; a 401 forgets the
      token, in the page and in storage; anything else changes nothing. */
  function FetchRepos(p: Page, store: Storage, reply: ReposReply): (r: Effect)
    ensures p.token.None? || p.token.value == "" ==> r == Effect(p, store)
    ensures reply.ReposThrown? ==> r == Effect(p, store)
    ensures r.page.files == p.files && r.page.results == p.results && r.page.state == p.state
    ensures forall k | k in store && k != TokenKey :: k in r.store && r.store[k] == store[k]
    ensures r.store.Keys <= store.Keys
    ensures r.page.token != p.token ==> r.page.token == None && TokenKey !in r.store
  {
    if p.token.None? || p.token.value == "" then Effect(p, store)
    else match reply
      case ReposThrown => Effect(p, store)
      case ReposAnswer(status, repos) =>
        if 200 <= status < 300 then Effect(p.(repos := repos), store)
        else if status == 401 then Effect(p.(token := None), store - {TokenKey})
        else Effect(p, store)
  }

  /** A 401 to a set token drops it for good: the page's token is null and
      the next page load starts without one. */
  lemma UnauthorizedDropsToken(p: Page, store: Storage, repos: seq<string>)
    requires p.token.Some? && p.token.value != ""
    ensures var r := FetchRepos(p, store, ReposAnswer(401, repos));
      r.page.token == None && InitialToken(r.store) == None && r.page.repos == p.repos
  {
  }
}
