/** The middleware's `/analyze` endpoint: input validation, the keyword
    safety net, the structural feature row handed to the model, the
    hot-reload of the model file, and the risk hierarchy.

    Parsing, the identifier normaliser and the classifier are inputs: the
    parse outcome is an `Extraction`, the model file's modification time
    is an optional real (absent when reading it fails), and the
    classifier is a function from a feature row to the probability that
    the code is malicious. */
module Middleware {
  import opened Wrappers
  import opened Strings
  import opened Seqs

  const MaxCodeLength: nat := 50000

  /** The keyword table: keyword and the description reported for it. */
  const BuzzWords: seq<(string, string)> := [
    ("eval", "Dynamic code execution (eval) is a high-risk pattern."),
    ("exec", "Direct string execution (exec) detected."),
    ("os.system", "Shell command execution through os.system."),
    ("subprocess.Popen", "Direct process spawning detected."),
    ("base64.b64decode", "Possible encoded payload obfuscation.")]

  const HighThreshold: real := 0.85
  const MediumThreshold: real := 0.40

  /** The outcome of `structuralDNAExtraction` before reindexing: a syntax
      error, another failure, or the type names of the nodes of the
      normalised tree (one per node). */
  datatype Extraction = SyntaxError | Crashed | Parsed(nodeTypes: seq<string>)

  datatype Risk = Critical | High | Medium | Low | Invalid

  /** The reason given with a verdict. */
  datatype Reason =
    | ImmediateThreat(detail: string)
    | StructuralAnomaly(probability: real)
    | Suspicious
    | StandardProfile
    | NotExecutable

  /** The endpoint's answer. A verdict's `nodesScanned` is the reply's
      `metadata.nodes_scanned`, which the syntax-error reply does not
      carry (`None`). */
  datatype Response =
    | TooLong
    | NoCode
    | AnalysisFailed
    | Verdict(malicious: bool, risk: Risk, reason: Reason, nodesScanned: Option<nat>)

  function Status(r: Response): nat {
    match r
    case TooLong => 400
    case NoCode => 400
    case AnalysisFailed => 500
    case Verdict(_, _, _, _) => 200
  }

  // ---------------------------------------------------------------------
  // Keywords.

  /** The keywords of `table` that occur in `code` (case-sensitive), in
      table order, each with its description. */
  function Triggers(table: seq<(string, string)>, code: string): (r: seq<(string, string)>)
    ensures |r| <= |table|
    ensures forall i | 0 <= i < |r| :: r[i] in table && Contains(code, r[i].0)
    ensures forall i | 0 <= i < |table| && Contains(code, table[i].0) :: table[i] in r
  {
    Filter((e: (string, string)) => Contains(code, e.0), table)
  }

  /** The triggers keep table order: those of `a + b` are those of `a`
      then those of `b`, and a single entry triggers iff its keyword
      occurs. */
  lemma TriggersInTableOrder(a: seq<(string, string)>, b: seq<(string, string)>, e: (string, string), code: string)
    ensures Triggers(a + b, code) == Triggers(a, code) + Triggers(b, code)
    ensures Triggers([e], code) == if Contains(code, e.0) then [e] else []
  {
    var occurs := (e: (string, string)) => Contains(code, e.0);
    FilterAppend(occurs, a, b);
    FilterSingleton(occurs, e);
  }

  /** The first trigger is the first keyword of the table that occurs. */
  lemma {:induction false} FirstTriggerIsFirstInTable(table: seq<(string, string)>, code: string)
    requires |Triggers(table, code)| > 0
    ensures exists k | 0 <= k < |table| ::
      && table[k] == Triggers(table, code)[0]
      && Contains(code, table[k].0)
      && forall j | 0 <= j < k :: !Contains(code, table[j].0)
  {
    if !Contains(code, table[0].0) {
      FirstTriggerIsFirstInTable(table[1..], code);
      var k :|
        && 0 <= k < |table[1..]|
        && table[1..][k] == Triggers(table[1..], code)[0]
        && Contains(code, table[1..][k].0)
        && forall j | 0 <= j < k :: !Contains(code, table[1..][j].0);
      assert table[k + 1] == table[1..][k];
      forall j | 0 <= j < k + 1
        ensures !Contains(code, table[j].0)
      {
        if j > 0 {
          assert table[j] == table[1..][j - 1];
        }
      }
    }
  }

  // ---------------------------------------------------------------------
  // Features and the model file.

  /** `reindex(columns=modelFeatures, fill_value=0)` of the node-type
      counts: one value per model column, the count of that node type
      (0 when absent); node types the model does not know are dropped. */
  function Reindex(columns: seq<string>, counts: multiset<string>): (row: seq<nat>)
    ensures |row| == |columns|
    ensures forall i | 0 <= i < |columns| :: row[i] == counts[columns[i]]
    ensures forall i | 0 <= i < |columns| && columns[i] !in counts :: row[i] == 0
  {
    seq(|columns|, i requires 0 <= i < |columns| => counts[columns[i]])
  }

  /** Only the counts of the model's own columns matter. */
  lemma ReindexIgnoresUnknownTypes(columns: seq<string>, counts: multiset<string>, extra: multiset<string>)
    requires forall t | t in extra :: t !in columns
    ensures Reindex(columns, counts + extra) == Reindex(columns, counts)
  {
    var a, b := Reindex(columns, counts + extra), Reindex(columns, counts);
    forall i | 0 <= i < |columns|
      ensures a[i] == b[i]
    {
      assert columns[i] !in extra;
    }
  }

  /** The loaded model's bookkeeping: the time stamp of the file last
      loaded, and how many loads happened. */
  datatype ModelState = ModelState(lastModelTime: real, loads: nat)

  /** `load_model_if_updated`: reload only when the file is strictly
      newer than the one loaded; a failed time read changes nothing. */
  function LoadIfUpdated(m: ModelState, mtime: Option<real>): (r: ModelState)
    ensures r.lastModelTime >= m.lastModelTime
    ensures r.loads == m.loads + 1 <==> mtime.Some? && mtime.value > m.lastModelTime
    ensures r.loads == m.loads || r.loads == m.loads + 1
    ensures r.loads == m.loads ==> r == m
    ensures r.loads > m.loads ==> r.lastModelTime == mtime.value
  {
    if mtime.Some? && mtime.value > m.lastModelTime then ModelState(mtime.value, m.loads + 1) else m
  }

  /** Reloading twice with the same file time loads it once. */
  lemma LoadIsIdempotent(m: ModelState, mtime: Option<real>)
    ensures LoadIfUpdated(LoadIfUpdated(m, mtime), mtime) == LoadIfUpdated(m, mtime)
  {
  }

  // ---------------------------------------------------------------------
  // The endpoint.

  /** The verdict for parsed code, by priority: a keyword makes it
      critical whatever the model says; otherwise the model's probability
      above 0.85 is high, above 0.40 medium, else low. */
  function RiskHierarchy(triggers: seq<(string, string)>, prob: real, nodes: nat): (r: Response)
    ensures r.Verdict? && r.nodesScanned == Some(nodes)
    ensures r.malicious <==> r.risk == Critical || r.risk == High
    ensures r.risk == Critical <==> |triggers| > 0
    ensures |triggers| > 0 ==> r.reason == ImmediateThreat(triggers[0].1)
    ensures |triggers| == 0 ==>
      && (r.risk == High <==> prob > HighThreshold)
      && (r.risk == Medium <==> MediumThreshold < prob <= HighThreshold)
      && (r.risk == Low <==> prob <= MediumThreshold)
  {
    if |triggers| > 0 then Verdict(true, Critical, ImmediateThreat(triggers[0].1), Some(nodes))
    else if prob > HighThreshold then Verdict(true, High, StructuralAnomaly(prob), Some(nodes))
    else if prob > MediumThreshold then Verdict(false, Medium, Suspicious, Some(nodes))
    else Verdict(false, Low, StandardProfile, Some(nodes))
  }

  /** `analyze`: a body over 50,000 characters is refused first, then an
      empty one; code that does not parse is reported as a harmless
      `INVALID` with status 200, even when it holds a keyword; another
      extraction failure is a 500. Only then is the model file checked for
      an update and the hierarchy applied to the reindexed feature row. */
  function Analyze(
    code: string, extraction: Extraction, columns: seq<string>,
    m: ModelState, mtime: Option<real>, maliciousProb: seq<nat> -> real): (r: (Response, ModelState))
    ensures |code| > MaxCodeLength ==> r.0 == TooLong
    ensures |code| == 0 ==> r.0 == NoCode
    ensures 0 < |code| <= MaxCodeLength && extraction.SyntaxError? ==> r.0 == Verdict(false, Invalid, NotExecutable, None)
    ensures 0 < |code| <= MaxCodeLength && extraction.Crashed? ==> r.0 == AnalysisFailed
    ensures !(0 < |code| <= MaxCodeLength && extraction.Parsed?) ==> r.1 == m
    ensures 0 < |code| <= MaxCodeLength && extraction.Parsed? ==>
      && r.1 == LoadIfUpdated(m, mtime)
      && r.0 == RiskHierarchy(Triggers(BuzzWords, code), maliciousProb(Reindex(columns, multiset(extraction.nodeTypes))), |columns|)
    ensures r.0.Verdict? && r.0.risk != Invalid ==> (r.0.malicious <==> r.0.risk == Critical || r.0.risk == High)
  {
    if |code| > MaxCodeLength then (TooLong, m)
    else if |code| == 0 then (NoCode, m)
    else
      var triggers := Triggers(BuzzWords, code);
      match extraction
      case SyntaxError => (Verdict(false, Invalid, NotExecutable, None), m)
      case Crashed => (AnalysisFailed, m)
      case Parsed(nodeTypes) =>
        var row := Reindex(columns, multiset(nodeTypes));
        (RiskHierarchy(triggers, maliciousProb(row), |columns|), LoadIfUpdated(m, mtime))
  }

  /** A keyword in the code wins over any probability the model gives. */
  lemma KeywordOverridesModel(code: string, nodeTypes: seq<string>, columns: seq<string>, m: ModelState, mtime: Option<real>, maliciousProb: seq<nat> -> real)
    requires 0 < |code| <= MaxCodeLength
    requires |Triggers(BuzzWords, code)| > 0
    ensures var r := Analyze(code, Parsed(nodeTypes), columns, m, mtime, maliciousProb).0;
      r.Verdict? && r.malicious && r.risk == Critical
  {
  }

  /** Code that does not parse is never reported malicious, keyword or
      not. */
  lemma SyntaxErrorMasksKeywords(code: string, columns: seq<string>, m: ModelState, mtime: Option<real>, maliciousProb: seq<nat> -> real)
    requires 0 < |code| <= MaxCodeLength
    ensures var r := Analyze(code, SyntaxError, columns, m, mtime, maliciousProb).0;
      r.Verdict? && !r.malicious && r.risk == Invalid && Status(r) == 200
  {
  }
}
