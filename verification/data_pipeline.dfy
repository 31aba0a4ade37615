/** The dataset builder `hardened_Dataset_with_Normalization`: the
    top-level functions of the `clean` and `corrupted` folders, then the
    Hugging Face samples, each normalised, with duplicates dropped by hash.

    Python's parser, `ast.unparse` and SHA-256 are inputs. A parsed file
    is its list of top-level statements; a function carries its unparsed
    text and the identifiers the normaliser meets in it; `render(text,
    names)` is the unparsed text with the identifiers renamed to `names`;
    `hash` is the digest of a text. */
module DataPipeline {
  import opened Wrappers
  import opened Strings
  import Normalizer

  const Fence: string := "```"

  datatype TopLevel =
    | FunctionDef(name: string, text: string, idents: seq<Normalizer.Identifier>)
    | OtherStatement

  datatype ParsedFile = SyntaxError | Parsed(body: seq<TopLevel>)

  /** A directory entry of a data folder. */
  datatype DataFile = DataFile(name: string, isFile: bool, parsed: ParsedFile)

  /** Where a row comes from: `<file>_<function>` for a folder function,
      the CSV's own `source` for a Hugging Face sample. */
  datatype Source = FunctionOf(file: string, func: string) | Given(text: string)

  function SourceText(s: Source): string {
    match s
    case FunctionOf(file, func) => file + "_" + func
    case Given(text) => text
  }

  /** A row of `finalData.csv`; `target` is its `label` column: 0 clean, 1 corrupted. */
  datatype Row = Row(rawCode: string, normalizedCode: string, target: int, source: Source)

  /** The builder's running state: the rows so far, the shared set of seen
      digests, and the one normaliser used for everything. */
  datatype State = State(rows: seq<Row>, seen: set<string>, norm: Normalizer.Normalizer)

  const Start: State := State([], {}, Normalizer.Initial)

  /** The state's invariant: the normaliser's own, every row's digest is
      recorded, and no two rows share a digest. */
  predicate Valid(st: State, hash: string -> string) {
    && Normalizer.Valid(st.norm)
    && (forall i | 0 <= i < |st.rows| :: hash(st.rows[i].rawCode) in st.seen)
    && (forall i, j | 0 <= i < j < |st.rows| :: hash(st.rows[i].rawCode) != hash(st.rows[j].rawCode))
  }

  lemma StartIsValid(hash: string -> string)
    ensures Valid(Start, hash)
  {
    Normalizer.InitialIsValid();
  }

  /** `r` continues `st`: its rows extend `st`'s and it has seen at least
      what `st` had seen. */
  predicate Extends(st: State, r: State) {
    |st.rows| <= |r.rows| && r.rows[..|st.rows|] == st.rows && st.seen <= r.seen
  }

  // ---------------------------------------------------------------------
  // The two folders.

  /** The row of one folder function: the function's own text, its
      normalised text, the folder's label, and `<file>_<function>`. */
  function FunctionRow(f: TopLevel, normalized: string, target: int, file: string): (row: Row)
    requires f.FunctionDef?
    ensures row.rawCode == f.text && row.normalizedCode == normalized
    ensures row.target == target && SourceText(row.source) == file + "_" + f.name
  {
    Row(f.text, normalized, target, FunctionOf(file, f.name))
  }

  /** The row as the source builds it: `ast.unparse(node)` is taken after
      the normaliser has rewritten `node` in place, so the raw column holds
      the normalised text. */
  function FunctionRowAsWritten(f: TopLevel, normalized: string, target: int, file: string): (row: Row)
    requires f.FunctionDef?
    ensures row.rawCode == row.normalizedCode
    ensures row.target == target && row.source == FunctionOf(file, f.name)
  {
    Row(normalized, normalized, target, FunctionOf(file, f.name))
  }

  /** The as-written raw column loses the function's own text whenever
      normalising changes it. */
  lemma AsWrittenRawColumnIsNormalized()
    ensures var f := FunctionDef("f", "def f(a):\n    return a", [Normalizer.Parameter("a"), Normalizer.NameUse(0)]);
      var normalized := "def f(VAR_0):\n    return VAR_1";
      && FunctionRowAsWritten(f, normalized, 0, "a.txt").rawCode != f.text
      && FunctionRow(f, normalized, 0, "a.txt").rawCode == f.text
  {
    var normalized := "def f(VAR_0):\n    return VAR_1";
    assert normalized[6] != "def f(a):\n    return a"[6];
  }

  /** One top-level statement of a parsed file: a function whose digest is
      new becomes a row and its digest is recorded; anything else is
      skipped. */
  function ProcessStatement(st: State, file: string, target: int, s: TopLevel,
                            hash: string -> string, render: (string, seq<string>) -> string): (r: State)
    requires Valid(st, hash)
    ensures Valid(r, hash) && Extends(st, r)
    ensures |r.rows| <= |st.rows| + 1
    ensures |r.rows| == |st.rows| + 1 <==> s.FunctionDef? && hash(s.text) !in st.seen
    ensures |r.rows| > |st.rows| ==> r.rows[|st.rows|].target == target && r.rows[|st.rows|].source == FunctionOf(file, s.name)
    ensures |r.rows| > |st.rows| ==> r.rows[|st.rows|].rawCode == s.text
    ensures |r.rows| > |st.rows| ==>
      && r.rows[|st.rows|].normalizedCode == render(s.text, Normalizer.Rename(st.norm, s.idents))
      && r.norm == Normalizer.Visit(st.norm, s.idents).0
    ensures |r.rows| == |st.rows| ==> r == st
  {
    if !s.FunctionDef? || hash(s.text) in st.seen then st
    else
      var v := Normalizer.Visit(st.norm, s.idents);
      var row := FunctionRow(s, render(s.text, Normalizer.Rename(st.norm, s.idents)), target, file);
      var r := State(st.rows + [row], st.seen + {hash(s.text)}, v.0);
      assert r.rows[..|st.rows|] == st.rows;
      r
  }

  /** Rows added on the way from `st` to `r` are folder rows with `target`,
      from a file whose name does not start with a dot. */
  predicate FolderRows(st: State, r: State, target: int) {
    forall i | |st.rows| <= i < |r.rows| ::
      && r.rows[i].target == target
      && r.rows[i].source.FunctionOf?
      && !StartsWith(r.rows[i].source.file, ".")
  }

  /** A file's top-level statements, in order. */
  function ProcessStatements(st: State, file: string, target: int, body: seq<TopLevel>,
                             hash: string -> string, render: (string, seq<string>) -> string): (r: State)
    requires Valid(st, hash)
    ensures Valid(r, hash) && Extends(st, r)
    ensures forall i | |st.rows| <= i < |r.rows| :: r.rows[i].target == target && r.rows[i].source.FunctionOf? && r.rows[i].source.file == file
    decreases |body|
  {
    if |body| == 0 then st
    else
      var mid := ProcessStatement(st, file, target, body[0], hash, render);
      var r := ProcessStatements(mid, file, target, body[1..], hash, render);
      assert r.rows[..|mid.rows|][..|st.rows|] == r.rows[..|st.rows|];
      r
  }

  /** The files of a folder kept for reading: regular files whose name
      does not start with a dot. */
  predicate Kept(f: DataFile) {
    f.isFile && !StartsWith(f.name, ".")
  }

  /** A folder's files, in order; a file that does not parse adds
      nothing. */
  function ProcessFiles(st: State, target: int, files: seq<DataFile>,
                        hash: string -> string, render: (string, seq<string>) -> string): (r: State)
    requires Valid(st, hash)
    ensures Valid(r, hash) && Extends(st, r)
    ensures FolderRows(st, r, target)
    ensures |files| > 0 && !(Kept(files[0]) && files[0].parsed.Parsed?) ==>
      r == ProcessFiles(st, target, files[1..], hash, render)
    decreases |files|
  {
    if |files| == 0 then st
    else
      var f := files[0];
      var mid := if Kept(f) && f.parsed.Parsed? then ProcessStatements(st, f.name, target, f.parsed.body, hash, render) else st;
      var r := ProcessFiles(mid, target, files[1..], hash, render);
      assert r.rows[..|mid.rows|][..|st.rows|] == r.rows[..|st.rows|];
      assert forall i | |st.rows| <= i < |mid.rows| :: r.rows[i] == mid.rows[i];
      r
  }

  /** Every row a folder adds comes from a kept file of the folder that
      parsed: a hidden file, a directory or a file with a syntax error
      adds nothing. */
  lemma {:induction false} RowsComeFromParsedFiles(st: State, target: int, files: seq<DataFile>,
                                                   hash: string -> string, render: (string, seq<string>) -> string)
    requires Valid(st, hash)
    ensures var r := ProcessFiles(st, target, files, hash, render);
      forall i | |st.rows| <= i < |r.rows| :: exists k | 0 <= k < |files| ::
        && Kept(files[k]) && files[k].parsed.Parsed?
        && r.rows[i].source == FunctionOf(files[k].name, r.rows[i].source.func)
    decreases |files|
  {
    if |files| > 0 {
      var f := files[0];
      var kept := Kept(f) && f.parsed.Parsed?;
      var mid := if kept then ProcessStatements(st, f.name, target, f.parsed.body, hash, render) else st;
      var r := ProcessFiles(st, target, files, hash, render);
      assert r == ProcessFiles(mid, target, files[1..], hash, render);
      RowsComeFromParsedFiles(mid, target, files[1..], hash, render);
      forall i | |st.rows| <= i < |r.rows|
        ensures exists k | 0 <= k < |files| ::
          && Kept(files[k]) && files[k].parsed.Parsed?
          && r.rows[i].source == FunctionOf(files[k].name, r.rows[i].source.func)
      {
        if i < |mid.rows| {
          assert r.rows[i] == mid.rows[i];
          assert kept;
          assert Kept(files[0]) && files[0].parsed.Parsed? && r.rows[i].source == FunctionOf(files[0].name, r.rows[i].source.func);
        } else {
          var k :| 0 <= k < |files[1..]| && Kept(files[1..][k]) && files[1..][k].parsed.Parsed?
            && r.rows[i].source == FunctionOf(files[1..][k].name, r.rows[i].source.func);
          assert files[1..][k] == files[k + 1];
        }
      }
    }
  }

  /** A folder, absent (`None`) or listed. */
  function ProcessFolder(st: State, target: int, folder: Option<seq<DataFile>>,
                         hash: string -> string, render: (string, seq<string>) -> string): (r: State)
    requires Valid(st, hash)
    ensures Valid(r, hash) && Extends(st, r)
    ensures FolderRows(st, r, target)
    ensures folder.None? ==> r == st
  {
    if folder.None? then st else ProcessFiles(st, target, folder.value, hash, render)
  }

  /** A function whose digest was seen before adds nothing: the first
      occurrence wins. */
  lemma DuplicateFunctionSkipped(st: State, file: string, target: int, s: TopLevel,
                                 hash: string -> string, render: (string, seq<string>) -> string)
    requires Valid(st, hash) && s.FunctionDef? && hash(s.text) in st.seen
    ensures ProcessStatement(st, file, target, s, hash, render) == st
  {
  }

  // ---------------------------------------------------------------------
  // The Hugging Face samples.

  /** A CSV row: the code (`None` when the cell is not a string), its label
      and its source. */
  datatype Sample = Sample(rawCode: Option<string>, target: int, source: string)

  /** Markdown fences around a sample are cut: when the trimmed code starts
      with three backticks, its first line is dropped, and its last line
      too when that starts with three backticks; the lines left are joined
      with newlines. Other code is kept as it is. */
  function StripFences(raw: string): (r: string)
    ensures !StartsWith(Trim(raw), Fence) ==> r == raw
    ensures StartsWith(Trim(raw), Fence) ==> r == Join(DropClosingFence(Split(Trim(raw), '\n')[1..]), '\n')
  {
    var t := Trim(raw);
    if !StartsWith(t, Fence) then raw
    else
      var lines := Split(t, '\n');
      OpeningLineIsFence(t);
      var a := if StartsWith(lines[0], Fence) then lines[1..] else lines;
      var b := if |a| > 0 && StartsWith(a[|a| - 1], Fence) then a[..|a| - 1] else a;
      Join(b, '\n')
  }

  /** The lines after the opening one, without the last line when that
      one is a closing fence. */
  function DropClosingFence(rest: seq<string>): (r: seq<string>)
    ensures r <= rest && |rest| - 1 <= |r|
  {
    if |rest| > 0 && StartsWith(rest[|rest| - 1], Fence) then rest[..|rest| - 1] else rest
  }

  /** Text that starts with a fence has a first line that starts with one:
      a fence holds no newline. */
  lemma OpeningLineIsFence(t: string)
    requires StartsWith(t, Fence)
    ensures StartsWith(Split(t, '\n')[0], Fence)
  {
    var first := Split(t, '\n')[0];
    SplitHead(t, '\n');
    assert t[..3] == Fence;
    assert forall i | 0 <= i < 3 :: t[i] != '\n';
    assert |first| >= 3;
    assert first[..3] == t[..3];
  }

  /** A block that opens with a fence line but is not closed keeps every
      line after the opening one. */
  lemma UnclosedFence(tag: string, body: string)
    requires '\n' !in tag
    requires |body| > 0 && !IsSpace(body[|body| - 1])
    requires !StartsWith(Split(body, '\n')[|Split(body, '\n')| - 1], Fence)
    ensures StripFences(Fence + tag + "\n" + body) == body
  {
    var first := Fence + tag;
    var text := first + ['\n'] + body;
    assert Fence + tag + "\n" + body == text;
    assert text[0] == '`' && text[|text| - 1] == body[|body| - 1];
    TrimNoSpaceEnds(text);
    assert text[..3] == Fence;
    assert '\n' !in first by {
      forall i | 0 <= i < |first|
        ensures first[i] != '\n'
      {
        if i >= 3 {
          assert first[i] == tag[i - 3];
        }
      }
    }
    SplitAround(first, body, '\n');
    SplitNoSeparator(first, '\n');
    assert Split(text, '\n')[1..] == Split(body, '\n');
  }

  /** Text that is its own trim, starts with a fence and splits into a
      fence line, some lines and a closing fence line, loses exactly those
      two lines. */
  lemma StripFenceLines(t: string, first: string, mid: seq<string>, last: string)
    requires Trim(t) == t && StartsWith(t, Fence)
    requires Split(t, '\n') == [first] + mid + [last]
    requires StartsWith(first, Fence) && StartsWith(last, Fence)
    ensures StripFences(t) == Join(mid, '\n')
  {
    var lines := Split(t, '\n');
    assert lines[0] == first;
    assert lines[1..] == mid + [last];
    assert (mid + [last])[|mid|] == last;
    assert (mid + [last])[..|mid|] == mid;
  }

  lemma SplitFenced(tag: string, body: string)
    requires '\n' !in tag
    ensures Split(Fence + tag + "\n" + body + "\n" + Fence, '\n') == [Fence + tag] + Split(body, '\n') + [Fence]
  {
    var first := Fence + tag;
    var rest := body + "\n" + Fence;
    assert Fence + tag + "\n" + body + "\n" + Fence == first + ['\n'] + rest;
    SplitAround(first, rest, '\n');
    SplitAround(body, Fence, '\n');
    assert '\n' !in first by {
      forall i | 0 <= i < |first|
        ensures first[i] != '\n'
      {
        if i >= 3 {
          assert first[i] == tag[i - 3];
        }
      }
    }
    SplitNoSeparator(first, '\n');
    SplitNoSeparator(Fence, '\n');
  }

  /** A fenced block gives back exactly the code between its fences. */
  lemma FenceRoundTrip(tag: string, body: string)
    requires '\n' !in tag
    ensures StripFences(Fence + tag + "\n" + body + "\n" + Fence) == body
  {
    var text := Fence + tag + "\n" + body + "\n" + Fence;
    assert text[0] == '`' && text[|text| - 1] == '`';
    TrimNoSpaceEnds(text);
    assert text[..3] == Fence;
    assert (Fence + tag)[..3] == Fence;
    SplitFenced(tag, body);
    StripFenceLines(text, Fence + tag, Split(body, '\n'), Fence);
  }

  /** One sample: a missing or blank code is skipped; the code is cut out
      of its fences; a seen digest is skipped; the digest is recorded
      before parsing, so a sample that does not parse adds no row but still
      blocks later copies of itself. */
  function ProcessSample(st: State, s: Sample, hash: string -> string,
                         parse: string -> Option<seq<Normalizer.Identifier>>,
                         render: (string, seq<string>) -> string): (r: State)
    requires Valid(st, hash)
    ensures Valid(r, hash) && Extends(st, r)
    ensures |r.rows| <= |st.rows| + 1
    ensures s.rawCode.None? || IsBlank(s.rawCode.value) ==> r == st
    ensures s.rawCode.Some? && !IsBlank(s.rawCode.value) ==> hash(StripFences(s.rawCode.value)) in r.seen
    ensures |r.rows| > |st.rows| ==>
      && s.rawCode.Some? && parse(StripFences(s.rawCode.value)).Some?
      && hash(StripFences(s.rawCode.value)) !in st.seen
      && r.rows[|st.rows|].rawCode == StripFences(s.rawCode.value)
      && r.rows[|st.rows|].target == s.target && r.rows[|st.rows|].source == Given(s.source)
    ensures |r.rows| > |st.rows| ==>
      var code := StripFences(s.rawCode.value);
      && r.rows[|st.rows|].normalizedCode == render(code, Normalizer.Rename(st.norm, parse(code).value))
      && r.norm == Normalizer.Visit(st.norm, parse(code).value).0
    ensures |r.rows| == |st.rows| ==> r.rows == st.rows && r.norm == st.norm
  {
    if s.rawCode.None? || IsBlank(s.rawCode.value) then st
    else
      var code := StripFences(s.rawCode.value);
      var h := hash(code);
      if h in st.seen then st
      else
        match parse(code)
        case None => st.(seen := st.seen + {h})
        case Some(idents) =>
          var v := Normalizer.Visit(st.norm, idents);
          var row := Row(code, render(code, Normalizer.Rename(st.norm, idents)), s.target, Given(s.source));
          var r := State(st.rows + [row], st.seen + {h}, v.0);
          assert r.rows[..|st.rows|] == st.rows;
          r
  }

  function ProcessSamples(st: State, samples: seq<Sample>, hash: string -> string,
                          parse: string -> Option<seq<Normalizer.Identifier>>,
                          render: (string, seq<string>) -> string): (r: State)
    requires Valid(st, hash)
    ensures Valid(r, hash) && Extends(st, r)
    decreases |samples|
  {
    if |samples| == 0 then st
    else
      var mid := ProcessSample(st, samples[0], hash, parse, render);
      var r := ProcessSamples(mid, samples[1..], hash, parse, render);
      assert r.rows[..|mid.rows|][..|st.rows|] == r.rows[..|st.rows|];
      r
  }

  /** Once a sample's code has been met, a later sample with the same code
      adds nothing, whether or not the first one parsed. */
  lemma SameCodeNeverTwice(st: State, a: Sample, b: Sample, hash: string -> string,
                           parse: string -> Option<seq<Normalizer.Identifier>>,
                           render: (string, seq<string>) -> string)
    requires Valid(st, hash) && b.rawCode == a.rawCode
    ensures var mid := ProcessSample(st, a, hash, parse, render);
      ProcessSample(mid, b, hash, parse, render) == mid
  {
  }

  // ---------------------------------------------------------------------
  // The whole build.

  /** The rows of `finalData.csv`: the `clean` folder (label 0), then the
      `corrupted` folder (label 1), then the Hugging Face samples, with one
      shared set of seen digests; an absent folder or CSV adds nothing. */
  function Build(clean: Option<seq<DataFile>>, corrupted: Option<seq<DataFile>>,
                 samples: Option<seq<Sample>>, hash: string -> string,
                 parse: string -> Option<seq<Normalizer.Identifier>>,
                 render: (string, seq<string>) -> string): (rows: seq<Row>)
    ensures forall i, j | 0 <= i < j < |rows| :: hash(rows[i].rawCode) != hash(rows[j].rawCode)
  {
    StartIsValid(hash);
    var a := ProcessFolder(Start, 0, clean, hash, render);
    var b := ProcessFolder(a, 1, corrupted, hash, render);
    var c := if samples.Some? then ProcessSamples(b, samples.value, hash, parse, render) else b;
    c.rows
  }

  /** The folder rows come first, labelled by their folder: `clean` rows 0,
      `corrupted` rows 1, none from a dot-file. */
  lemma FolderRowsLabelled(clean: Option<seq<DataFile>>, corrupted: Option<seq<DataFile>>,
                           hash: string -> string, render: (string, seq<string>) -> string)
    ensures var a := ProcessFolder(Start, 0, clean, hash, render);
      var b := ProcessFolder(a, 1, corrupted, hash, render);
      && FolderRows(Start, a, 0)
      && FolderRows(a, b, 1)
  {
    StartIsValid(hash);
  }
}
