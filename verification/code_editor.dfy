/** The code editor's derived behaviour: the editor markers drawn for the
    reported vulnerabilities, the text handed back on an edit, and the
    jump to the active line. The editor widget itself is not modelled:
    what it is told to do is the result. */
module CodeEditor {
  import opened Wrappers

  const MarkerOwner: string := "soteria"
  const LastColumn: nat := 1000

  datatype Vulnerability = Vulnerability(
    line: int, pattern: string, severity: string, description: string,
    cwe: Option<string>, snippet: string)

  datatype MarkerSeverity = Error | Warning

  datatype Marker = Marker(
    message: string, severity: MarkerSeverity,
    startLine: int, startColumn: nat, endLine: int, endColumn: nat)

  /** Only the two highest risk levels are drawn as errors. */
  predicate Severe(severity: string) {
    severity == "CRITICAL" || severity == "HIGH"
  }

  /** `v.cwe` as a truthy string. */
  predicate HasCwe(v: Vulnerability) {
    v.cwe.Some? && v.cwe.value != ""
  }

  /** The marker text: the description, then ` (<cwe>)` when a CWE is
      given. */
  function MessageOf(v: Vulnerability): (m: string)
    ensures |m| >= |v.description| && m[..|v.description|] == v.description
    ensures !HasCwe(v) ==> m == v.description
    ensures HasCwe(v) ==> m[|v.description|..] == " (" + v.cwe.value + ")"
  {
    var m := v.description + (if HasCwe(v) then " (" + v.cwe.value + ")" else "");
    assert m[..|v.description|] == v.description;
    m
  }

  /** One vulnerability's marker: the whole of its line, an error iff it
      is critical or high. */
  function MarkerOf(v: Vulnerability): (k: Marker)
    ensures k.severity == Error <==> Severe(v.severity)
    ensures k.startLine == k.endLine == v.line
    ensures k.startColumn == 1 && k.endColumn == LastColumn
    ensures k.message == MessageOf(v)
  {
    Marker(MessageOf(v), if Severe(v.severity) then Error else Warning, v.line, 1, v.line, LastColumn)
  }

  /** The markers set under the `soteria` owner: one per vulnerability, in
      order; none for an empty list. */
  function Markers(vs: seq<Vulnerability>): (r: seq<Marker>)
    ensures |r| == |vs|
    ensures forall i | 0 <= i < |vs| :: r[i] == MarkerOf(vs[i])
  {
    if |vs| > 0 then seq(|vs|, i requires 0 <= i < |vs| => MarkerOf(vs[i])) else []
  }

  /** The marker effect: nothing until the editor and its model exist;
      then the markers replace the previous ones. */
  function MarkerUpdate(ready: bool, vs: seq<Vulnerability>): (r: Option<seq<Marker>>)
    ensures r.Some? <==> ready
    ensures ready && |vs| == 0 ==> r == Some([])
  {
    if ready then Some(Markers(vs)) else None
  }

  /** Marker `i` describes vulnerability `i`: the markers and the
      vulnerabilities line up one to one, and the description can be read
      back from each marker's message. */
  lemma MarkersLineUp(vs: seq<Vulnerability>, i: nat)
    requires i < |vs|
    ensures var k := Markers(vs)[i];
      && k.startLine == vs[i].line
      && k.message[..|vs[i].description|] == vs[i].description
      && (k.severity == Error <==> Severe(vs[i].severity))
  {
  }

  /** `handleEditorChange`: the editor's value, or the empty text when it
      has none. */
  function EditedText(value: Option<string>): (r: string)
    ensures value.Some? ==> r == value.value
    ensures value.None? ==> r == ""
  {
    value.GetOr("")
  }

  datatype Position = Position(line: int, column: nat)

  /** The active-line effect: with a mounted editor and a non-zero line,
      the line is centred and the cursor put at its first column;
      otherwise nothing happens. */
  function Jump(mounted: bool, activeLine: Option<int>): (r: Option<Position>)
    ensures r.Some? <==> mounted && activeLine.Some? && activeLine.value != 0
    ensures r.Some? ==> r.value == Position(activeLine.value, 1)
  {
    if mounted && activeLine.Some? && activeLine.value != 0 then Some(Position(activeLine.value, 1)) else None
  }
}
