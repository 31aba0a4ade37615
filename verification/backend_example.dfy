/** The reference backend shipped with the front end: `/analyze` reports
    the first pattern of its list that occurs in the code, case aside. */
module BackendExample {
  import opened Wrappers
  import BackendApp

  /** The reference backend's patterns: its list holds the same twelve,
      in the same order, as the main backend's static list. */
  const Patterns: seq<string> := BackendApp.MaliciousPatterns

  datatype Response =
    | NoCode
    | Verdict(malicious: bool, pattern: Option<string>, confidence: real)

  /** The first pattern of `patterns` occurring in `code`, case aside. */
  function FirstMatch(patterns: seq<string>, code: string): (r: Option<string>)
    ensures r.None? <==> forall i | 0 <= i < |patterns| :: !BackendApp.MatchesIgnoringCase(code, patterns[i])
    ensures r.Some? ==> exists k | 0 <= k < |patterns| ::
      && patterns[k] == r.value
      && BackendApp.MatchesIgnoringCase(code, patterns[k])
      && forall j | 0 <= j < k :: !BackendApp.MatchesIgnoringCase(code, patterns[j])
  {
    if |patterns| == 0 then None
    else if BackendApp.MatchesIgnoringCase(code, patterns[0]) then Some(patterns[0])
    else
      var r := FirstMatch(patterns[1..], code);
      assert forall i | 1 <= i < |patterns| :: patterns[i] == patterns[1..][i - 1];
      assert r.Some? ==> exists k | 1 <= k < |patterns| ::
        && patterns[k] == r.value
        && BackendApp.MatchesIgnoringCase(code, patterns[k])
        && forall j | 1 <= j < k :: !BackendApp.MatchesIgnoringCase(code, patterns[j]);
      r
  }

  /** `analyze_code`: empty code is refused; otherwise malicious, naming
      the first matching pattern, with confidence 0.85, or clean with
      confidence 0.95. */
  function AnalyzeCode(code: string): (r: Response)
    ensures code == "" <==> r == NoCode
    ensures r.Verdict? ==>
      && (r.malicious <==> r.pattern.Some?)
      && (r.malicious <==> exists i | 0 <= i < |Patterns| :: BackendApp.MatchesIgnoringCase(code, Patterns[i]))
      && r.confidence == (if r.malicious then 0.85 else 0.95)
    ensures r.Verdict? ==> r.pattern == FirstMatch(Patterns, code)
  {
    if code == "" then NoCode
    else
      var m := FirstMatch(Patterns, code);
      Verdict(m.Some?, m, if m.Some? then 0.85 else 0.95)
  }

  /** The first match is the head of the ordered list of all matches. */
  lemma {:induction false} FirstMatchIsHead(patterns: seq<string>, code: string)
    ensures var all := BackendApp.StaticMatches(patterns, code);
      FirstMatch(patterns, code) == if |all| == 0 then None else Some(all[0])
  {
    if |patterns| > 0 && !BackendApp.MatchesIgnoringCase(code, patterns[0]) {
      FirstMatchIsHead(patterns[1..], code);
    }
  }

  /** The two backends agree on non-empty code without SQL f-strings: the
      reference one calls it malicious exactly when the main one does,
      and names the main one's first reported pattern. */
  lemma AgreesWithMainBackend(code: string, sqlFString: string -> bool)
    requires code != "" && !sqlFString(code)
    ensures var mine, main := AnalyzeCode(code), BackendApp.AnalyzeCode(code, false, None, sqlFString);
      && mine.Verdict? && main.Verdict?
      && mine.malicious == main.malicious
      && (mine.malicious ==> main.reason.patterns[0] == mine.pattern.value)
  {
    FirstMatchIsHead(Patterns, code);
  }
}
