/** The single-snippet scanner page: the analysis request and what it does
    to the displayed result and to the audit history, the persistence of
    that history, and the typewriter reveal of the verdict message.

    The server's JSON answer is abstracted into a `Reply`; the clock (the
    item id and its time of day) is passed in. Browser storage is a map
    from key to the stored history, the JSON encoding being taken as
    exact. */
module Scanner {
  import opened Wrappers
  import opened Strings
  import opened Seqs

  const MaxCodeLength: nat := 50000
  const HistoryLimit: nat := 15
  const PreviewLength: nat := 35
  const HistoryKey: string := "sentinel_audit_v2"

  const TooLargeMessage: string := "Payload too large. Limit code to 50,000 characters."
  const OfflineMessage: string := "Intelligence Link Offline. Check Backend @ Port 5001."

  datatype Status = Waiting | Loading | Malicious | Clean | Failed

  datatype Verdict = MaliciousVerdict | CleanVerdict

  /** The result panel. */
  datatype AnalysisResult = AnalysisResult(
    status: Status, message: Option<string>, confidence: Option<real>, riskLevel: Option<string>)

  datatype HistoryItem = HistoryItem(
    id: string, timestamp: string, verdict: Verdict, riskLevel: Option<string>,
    codePreview: string, fullCode: string)

  /** The server's answer as the page reads it: whether `malicious` is
      truthy (a missing field is not), and the optional reason,
      confidence and risk level. A request that throws (no server, or a
      body that is not JSON) is `Unreachable`. */
  datatype Reply =
    | Answer(malicious: bool, reason: Option<string>, confidence: Option<real>, riskLevel: Option<string>)
    | Unreachable

  /** What one press of the scan button leaves behind: every result the
      panel was set to, in order; whether the request was sent; and the
      history afterwards. */
  datatype Analysis = Analysis(shown: seq<AnalysisResult>, requested: bool, history: seq<HistoryItem>)

  const WaitingResult: AnalysisResult := AnalysisResult(Waiting, None, None, None)
  const LoadingResult: AnalysisResult := AnalysisResult(Loading, None, None, None)
  const TooLargeResult: AnalysisResult := AnalysisResult(Failed, Some(TooLargeMessage), None, None)
  const OfflineResult: AnalysisResult := AnalysisResult(Failed, Some(OfflineMessage), None, None)

  /** The history preview of a snippet: at most 35 characters of the
      trimmed code, then an ellipsis. */
  function Preview(code: string): (r: string)
    ensures |r| <= PreviewLength + 3
    ensures r == Take(Trim(code), PreviewLength) + "..."
  {
    Take(Trim(code), PreviewLength) + "..."
  }

  function VerdictOf(malicious: bool): (v: Verdict)
    ensures v == MaliciousVerdict <==> malicious
  {
    if malicious then MaliciousVerdict else CleanVerdict
  }

  function StatusOf(v: Verdict): Status {
    match v
    case MaliciousVerdict => Malicious
    case CleanVerdict => Clean
  }

  /** The history after a new item: the item first, then the old items,
      cut to the 15 most recent. */
  function Prepend(item: HistoryItem, history: seq<HistoryItem>): (r: seq<HistoryItem>)
    ensures 1 <= |r| <= HistoryLimit
    ensures r[0] == item
    ensures r[1..] <= history
    ensures |r| == if |history| < HistoryLimit then |history| + 1 else HistoryLimit
  {
    Take([item] + history, HistoryLimit)
  }

  /** The shared part of both versions of `analyzeCode`: from the loading
      state on. */
  function Request(code: string, history: seq<HistoryItem>, reply: Reply, id: string, time: string): (r: Analysis)
    ensures r.requested && |r.shown| == 2 && r.shown[0] == LoadingResult
    ensures reply.Unreachable? ==> r.shown[1] == OfflineResult && r.history == history
    ensures reply.Answer? ==>
      && r.shown[1] == AnalysisResult(if reply.malicious then Malicious else Clean, reply.reason, reply.confidence, reply.riskLevel)
      && r.history == Prepend(HistoryItem(id, time, VerdictOf(reply.malicious), reply.riskLevel, Preview(code), code), history)
  {
    match reply
    case Unreachable => Analysis([LoadingResult, OfflineResult], true, history)
    case Answer(malicious, reason, confidence, risk) =>
      var verdict := VerdictOf(malicious);
      var item := HistoryItem(id, time, verdict, risk, Preview(code), code);
      Analysis([LoadingResult, AnalysisResult(StatusOf(verdict), reason, confidence, risk)], true, Prepend(item, history))
  }

  /** `analyzeCode` as written. Text over 50,000 characters sets the
      "too large" error, but nothing returns there: non-blank text still
      goes on to the loading state and the request. Blank text changes
      nothing else. A failed request shows the offline error and leaves
      the history alone; an answer shows its verdict, reason, confidence
      and risk and records the snippet at the head of the history. */
  function AnalyzeAsWritten(code: string, history: seq<HistoryItem>, reply: Reply, id: string, time: string): (r: Analysis)
    ensures IsBlank(code) ==>
      && !r.requested && r.history == history
      && r.shown == (if |code| > MaxCodeLength then [TooLargeResult] else [])
    ensures !IsBlank(code) ==>
      && r.requested
      && r.shown == (if |code| > MaxCodeLength then [TooLargeResult] else []) + Request(code, history, reply, id, time).shown
    ensures reply.Unreachable? ==> r.history == history
    ensures !IsBlank(code) && reply.Unreachable? ==> Last(r.shown) == OfflineResult
    ensures !IsBlank(code) && reply.Answer? ==>
      && r.history == Prepend(HistoryItem(id, time, VerdictOf(reply.malicious), reply.riskLevel, Preview(code), code), history)
      && Last(r.shown) == AnalysisResult(if reply.malicious then Malicious else Clean, reply.reason, reply.confidence, reply.riskLevel)
  {
    var warned := if |code| > MaxCodeLength then [TooLargeResult] else [];
    if Trim(code) == "" then Analysis(warned, false, history)
    else
      var rest := Request(code, history, reply, id, time);
      Analysis(warned + rest.shown, true, rest.history)
  }

  /** `analyzeCode` with the evidently intended early return: oversized
      text shows only the "too large" error, sends nothing and leaves the
      history alone; any other text behaves exactly as the code as
      written. */
  function Analyze(code: string, history: seq<HistoryItem>, reply: Reply, id: string, time: string): (r: Analysis)
    ensures |code| > MaxCodeLength ==> r == Analysis([TooLargeResult], false, history)
    ensures |code| <= MaxCodeLength ==> r == AnalyzeAsWritten(code, history, reply, id, time)
    ensures r.requested ==> |code| <= MaxCodeLength && !IsBlank(code)
  {
    if |code| > MaxCodeLength then Analysis([TooLargeResult], false, history)
    else AnalyzeAsWritten(code, history, reply, id, time)
  }

  function Last<T>(s: seq<T>): T
    requires |s| > 0
  {
    s[|s| - 1]
  }

  /** Oversized text is sent anyway as written, and an answer overwrites
      the error: the server's refusal (`{"error": …}` with no `malicious`
      field) is even recorded in the history as a clean verdict. */
  lemma OversizeIsStillSent(code: string, history: seq<HistoryItem>, id: string, time: string)
    requires |code| > MaxCodeLength && !IsBlank(code)
    ensures var r := AnalyzeAsWritten(code, history, Answer(false, None, None, None), id, time);
      && r.requested
      && Last(r.shown).status == Clean
      && r.history[0].verdict == CleanVerdict
  {
  }

  // ---------------------------------------------------------------------
  // History persistence.

  /** Browser storage: key to stored history. */
  type Storage = map<string, seq<HistoryItem>>

  /** The history the page starts with: the stored one if any, else
      empty. */
  function LoadHistory(store: Storage): (r: seq<HistoryItem>)
    ensures HistoryKey !in store ==> r == []
  {
    if HistoryKey in store then store[HistoryKey] else []
  }

  /** The write that follows every change of the history: the whole list
      under the history key, other keys untouched. */
  function SaveHistory(store: Storage, history: seq<HistoryItem>): (r: Storage)
    ensures HistoryKey in r && r[HistoryKey] == history
    ensures forall k | k in store && k != HistoryKey :: k in r && r[k] == store[k]
    ensures r.Keys == store.Keys + {HistoryKey}
  {
    store[HistoryKey := history]
  }

  /** A saved history is what the next page load starts with. */
  lemma SaveThenLoad(store: Storage, history: seq<HistoryItem>)
    ensures LoadHistory(SaveHistory(store, history)) == history
  {
  }

  /** The clear button empties the history, and so the stored copy. */
  lemma ClearEmptiesStore(store: Storage)
    ensures LoadHistory(SaveHistory(store, [])) == []
  {
  }

  /** Any number of successful scans keeps at most 15 items, newest
      first. */
  lemma {:induction false} HistoryStaysBounded(codes: seq<string>, history: seq<HistoryItem>, replies: seq<Reply>, id: string, time: string)
    requires |history| <= HistoryLimit
    requires |replies| == |codes|
    ensures |RunScans(codes, history, replies, id, time)| <= HistoryLimit
    decreases |codes|
  {
    if |codes| > 0 {
      var next := Analyze(codes[0], history, replies[0], id, time).history;
      HistoryStaysBounded(codes[1..], next, replies[1..], id, time);
    }
  }

  /** The history after scanning `codes` in turn. */
  function RunScans(codes: seq<string>, history: seq<HistoryItem>, replies: seq<Reply>, id: string, time: string): seq<HistoryItem>
    requires |replies| == |codes|
  {
    if |codes| == 0 then history
    else RunScans(codes[1..], Analyze(codes[0], history, replies[0], id, time).history, replies[1..], id, time)
  }

  // ---------------------------------------------------------------------
  // The typewriter reveal.

  /** The reveal's state: the next index and the text shown. */
  datatype Reveal = Reveal(index: nat, shown: string)

  /** One timer tick: while characters remain, show one more. */
  function Tick(text: string, s: Reveal): Reveal {
    if s.index < |text| then Reveal(s.index + 1, text[..s.index + 1]) else s
  }

  /** The state after `ticks` ticks from the reset state. */
  function Typewriter(text: string, ticks: nat): (r: Reveal)
    ensures r.index == if ticks < |text| then ticks else |text|
    ensures r.shown == text[..r.index]
  {
    if ticks == 0 then Reveal(0, "")
    else Tick(text, Typewriter(text, ticks - 1))
  }

  /** The shown text is always a prefix of the message, grows by exactly
      one character per tick until complete, and is the whole message
      after as many ticks as it has characters. */
  lemma TypewriterReveals(text: string, ticks: nat)
    ensures Typewriter(text, ticks).shown <= text
    ensures ticks < |text| ==> |Typewriter(text, ticks + 1).shown| == |Typewriter(text, ticks).shown| + 1
    ensures ticks >= |text| ==> Typewriter(text, ticks).shown == text
  {
  }
}
