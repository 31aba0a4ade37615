/** The knowledge-graph page: the scan history is drawn as a graph with a
    hub, one node per distinct verdict, one per distinct language and one
    per scan, plus the page's summary counts.

    The history is an input here (the page reads it from browser storage
    under `soteria_audit_v2`); colours are kept as the strings the page
    uses. */
module KnowledgeGraph {
  import opened Wrappers
  import opened Strings
  import opened Seqs

  const UnknownColor: string := "#6b7280"
  const LangColor: string := "#3b82f6"

  datatype Verdict = Malicious | Clean

  datatype HistoryItem = HistoryItem(
    id: string, timestamp: string, verdict: Verdict, riskLevel: string,
    codePreview: string, fullCode: string, language: Option<string>)

  datatype NodeKind = HubNode | ScanNode | VerdictNode | LanguageNode

  /** A node's id. The page writes ids as the strings `hub`,
      `verdict-<verdict>`, `lang-<language>` and `scan-<item id>` (see
      `IdText`); the model keeps their structure. */
  datatype NodeId = HubKey | VerdictKey(verdict: Verdict) | LanguageKey(lang: string) | ScanKey(scan: string)

  datatype GraphNode = GraphNode(
    id: NodeId, title: string, group: string, color: string, size: nat,
    kind: NodeKind, item: Option<HistoryItem>)

  /** A link colour: a node colour with a two-digit hex alpha appended
      (the page writes `color + '40'`; see `TintText`). */
  datatype Tint = Tint(base: string, alpha: string)

  datatype GraphLink = GraphLink(source: NodeId, target: NodeId, color: Tint)

  datatype Graph = Graph(nodes: seq<GraphNode>, links: seq<GraphLink>)

  function VerdictName(v: Verdict): string {
    match v
    case Malicious => "malicious"
    case Clean => "clean"
  }

  function VerdictColor(v: Verdict): string {
    match v
    case Malicious => "#ef4444"
    case Clean => "#22c55e"
  }

  /** The colour of each known risk level. */
  const RiskColors: seq<(string, string)> := [
    ("CRITICAL", "#ef4444"), ("HIGH", "#f97316"), ("MEDIUM", "#eab308"),
    ("LOW", "#22c55e"), ("INVALID", "#6b7280")]

  /** The value of the first entry of `table` with key `key`. */
  function Lookup<K(==), V>(table: seq<(K, V)>, key: K): (r: Option<V>)
    ensures r.None? <==> forall i | 0 <= i < |table| :: table[i].0 != key
    ensures r.Some? ==> exists i | 0 <= i < |table| :: table[i] == (key, r.value)
  {
    if |table| == 0 then None
    else if table[0].0 == key then Some(table[0].1)
    else
      var r := Lookup(table[1..], key);
      assert forall i | 1 <= i < |table| :: table[i] == table[1..][i - 1];
      assert r.Some? ==> exists i | 1 <= i < |table| :: table[i] == (key, r.value);
      r
  }

  /** The colour of a scan node: `RISK_COLORS[risk]`, or grey for a risk
      level the table does not list. */
  function RiskColor(risk: string): string {
    Lookup(RiskColors, risk).GetOr(UnknownColor)
  }

  /** `item.language || 'unknown'`: a missing or empty language counts as
      unknown. */
  function LanguageOf(item: HistoryItem): (l: string)
    ensures l != ""
  {
    if item.language.Some? && item.language.value != "" then item.language.value else "unknown"
  }

  /** The first character upper-cased. */
  function Capitalize(s: string): (r: string)
    ensures |r| == |s|
    ensures |s| > 0 ==> r[0] == ToUpper(s[0]) && r[1..] == s[1..]
  {
    if |s| == 0 then "" else [ToUpper(s[0])] + s[1..]
  }

  /** The colour string as the page writes it. */
  function TintText(t: Tint): string {
    t.base + t.alpha
  }

  /** The id as the page writes it. */
  function IdText(id: NodeId): string {
    match id
    case HubKey => "hub"
    case VerdictKey(v) => "verdict-" + VerdictName(v)
    case LanguageKey(l) => "lang-" + l
    case ScanKey(s) => "scan-" + s
  }

  function VerdictId(v: Verdict): NodeId { VerdictKey(v) }
  function LanguageId(lang: string): NodeId { LanguageKey(lang) }
  function ScanId(item: HistoryItem): NodeId { ScanKey(item.id) }

  const Hub: GraphNode := GraphNode(HubKey, "Your Scans", "hub", "#06b6d4", 14, HubNode, None)

  function VerdictNodeOf(v: Verdict): GraphNode {
    GraphNode(VerdictId(v), if v == Malicious then "⚠ Threats" else "✓ Clean", "verdict", VerdictColor(v), 10, VerdictNode, None)
  }

  function LanguageNodeOf(lang: string): GraphNode {
    GraphNode(LanguageId(lang), Capitalize(lang), "language", LangColor, 8, LanguageNode, None)
  }

  function ScanNodeOf(item: HistoryItem): GraphNode {
    GraphNode(ScanId(item), item.codePreview, "scan", RiskColor(item.riskLevel), 5, ScanNode, Some(item))
  }

  /** A scan node takes its risk level's colour from the table, or grey
      for a risk level the table does not list. */
  lemma ScanNodeColor(item: HistoryItem)
    ensures (forall i | 0 <= i < |RiskColors| :: RiskColors[i].0 != item.riskLevel) ==> ScanNodeOf(item).color == UnknownColor
    ensures (exists i | 0 <= i < |RiskColors| :: RiskColors[i].0 == item.riskLevel) ==> (item.riskLevel, ScanNodeOf(item).color) in RiskColors
  {
  }

  // ---------------------------------------------------------------------
  // Distinct values in first-occurrence order (the `Set` guards).


  /** Index of the first occurrence of `x` in `s`. */
  function IndexOf<T(==)>(s: seq<T>, x: T): (k: nat)
    requires x in s
    ensures k < |s| && s[k] == x
    ensures forall i | 0 <= i < k :: s[i] != x
  {
    if s[0] == x then 0 else 1 + IndexOf(s[1..], x)
  }

  /** The loop that adds a node the first time a value is met: the values
      of `xs` not in `seen`, each once, in the order they first occur (see
      `DistinctAfterMembers`). */
  function DistinctAfter<T(==)>(xs: seq<T>, seen: set<T>): seq<T>
  {
    if |xs| == 0 then []
    else if xs[0] in seen then DistinctAfter(xs[1..], seen)
    else [xs[0]] + DistinctAfter(xs[1..], seen + {xs[0]})
  }

  /** The loop keeps exactly the values not seen before, each once. */
  lemma {:induction false} DistinctAfterMembers<T(!new)>(xs: seq<T>, seen: set<T>)
    ensures var r := DistinctAfter(xs, seen);
      (forall x :: x in r <==> x in xs && x !in seen) && NoDuplicates(r)
  {
    if |xs| > 0 {
      if xs[0] in seen {
        DistinctAfterMembers(xs[1..], seen);
        assert forall x :: x in xs <==> x == xs[0] || x in xs[1..];
      } else {
        var rest := DistinctAfter(xs[1..], seen + {xs[0]});
        DistinctAfterMembers(xs[1..], seen + {xs[0]});
        var r := [xs[0]] + rest;
        assert forall i | 1 <= i < |r| :: r[i] == rest[i - 1];
        assert forall x :: x in r <==> x == xs[0] || x in rest;
        assert forall x :: x in xs <==> x == xs[0] || x in xs[1..];
      }
    }
  }

  /** The distinct values of `xs`, in order of first occurrence. */
  function Distinct<T(==)>(xs: seq<T>): seq<T>
  {
    DistinctAfter(xs, {})
  }

  /** Every value of `xs` occurs in `Distinct(xs)` exactly once, and
      nothing else does. */
  lemma DistinctMembers<T(!new)>(xs: seq<T>)
    ensures forall x :: x in Distinct(xs) <==> x in xs
    ensures NoDuplicates(Distinct(xs))
  {
    DistinctAfterMembers(xs, {});
  }

  /** Past a head that differs, the first occurrence is one further on. */
  lemma IndexOfTail<T>(xs: seq<T>, x: T)
    requires |xs| > 0 && x in xs[1..] && x != xs[0]
    ensures x in xs && IndexOf(xs, x) == 1 + IndexOf(xs[1..], x)
  {
    assert xs == [xs[0]] + xs[1..];
  }

  /** Every element of `r` occurs in `xs`, and earlier in `r` means
      first occurring earlier in `xs`. */
  predicate InFirstOccurrenceOrder<T(==)>(r: seq<T>, xs: seq<T>) {
    && (forall i | 0 <= i < |r| :: r[i] in xs)
    && (forall i, j | 0 <= i < j < |r| :: IndexOf(xs, r[i]) < IndexOf(xs, r[j]))
  }

  /** The distinct values come in the order of their first occurrence. */
  lemma {:induction false} DistinctKeepsFirstOccurrenceOrder<T(!new)>(xs: seq<T>, seen: set<T>)
    ensures InFirstOccurrenceOrder(DistinctAfter(xs, seen), xs)
  {
    if |xs| > 0 {
      var seen' := if xs[0] in seen then seen else seen + {xs[0]};
      var rest := DistinctAfter(xs[1..], seen');
      DistinctKeepsFirstOccurrenceOrder(xs[1..], seen');
      DistinctAfterMembers(xs[1..], seen');
      assert InFirstOccurrenceOrder(rest, xs[1..]);
      forall i | 0 <= i < |rest|
        ensures rest[i] in xs && IndexOf(xs, rest[i]) == 1 + IndexOf(xs[1..], rest[i])
      {
        assert rest[i] in xs[1..] && rest[i] !in seen';
        IndexOfTail(xs, rest[i]);
      }
      var r := DistinctAfter(xs, seen);
      if xs[0] in seen {
        assert r == rest;
      } else {
        assert r == [xs[0]] + rest;
        forall i, j | 0 <= i < j < |r|
          ensures IndexOf(xs, r[i]) < IndexOf(xs, r[j])
        {
          assert r[j] == rest[j - 1];
          if i > 0 {
            assert r[i] == rest[i - 1];
          } else {
            assert IndexOf(xs, r[i]) == 0;
          }
        }
      }
    }
  }

  function Verdicts(history: seq<HistoryItem>): (r: seq<Verdict>)
    ensures |r| == |history| && forall i | 0 <= i < |history| :: r[i] == history[i].verdict
  {
    seq(|history|, i requires 0 <= i < |history| => history[i].verdict)
  }

  function Languages(history: seq<HistoryItem>): (r: seq<string>)
    ensures |r| == |history| && forall i | 0 <= i < |history| :: r[i] == LanguageOf(history[i])
  {
    seq(|history|, i requires 0 <= i < |history| => LanguageOf(history[i]))
  }

  // ---------------------------------------------------------------------
  // The graph.

  function HubVerdictLink(v: Verdict): GraphLink {
    GraphLink(HubKey, VerdictId(v), Tint(VerdictColor(v), "40"))
  }

  function HubLanguageLink(lang: string): GraphLink {
    GraphLink(HubKey, LanguageId(lang), Tint(LangColor, "30"))
  }

  function VerdictLink(item: HistoryItem): GraphLink {
    GraphLink(VerdictId(item.verdict), ScanId(item), Tint(RiskColor(item.riskLevel), "30"))
  }

  function LanguageLink(item: HistoryItem): GraphLink {
    GraphLink(LanguageId(LanguageOf(item)), ScanId(item), Tint(LangColor, "20"))
  }

  /** The two links of every scan node, item by item: from its verdict
      node, then from its language node. */
  function ScanLinks(history: seq<HistoryItem>): (r: seq<GraphLink>)
    ensures |r| == 2 * |history|
  {
    if |history| == 0 then []
    else [VerdictLink(history[0]), LanguageLink(history[0])] + ScanLinks(history[1..])
  }

  lemma {:induction false} ScanLinksAt(history: seq<HistoryItem>, k: nat)
    requires k < |history|
    ensures ScanLinks(history)[2 * k] == VerdictLink(history[k])
    ensures ScanLinks(history)[2 * k + 1] == LanguageLink(history[k])
  {
    var tail := ScanLinks(history[1..]);
    assert ScanLinks(history) == [VerdictLink(history[0]), LanguageLink(history[0])] + tail;
    if k > 0 {
      ScanLinksAt(history[1..], k - 1);
      assert history[1..][k - 1] == history[k];
      assert ScanLinks(history)[2 * k] == tail[2 * (k - 1)];
      assert ScanLinks(history)[2 * k + 1] == tail[2 * (k - 1) + 1];
    }
  }

  function VerdictNodes(vs: seq<Verdict>): (r: seq<GraphNode>)
    ensures |r| == |vs| && forall i | 0 <= i < |vs| :: r[i] == VerdictNodeOf(vs[i])
  {
    seq(|vs|, i requires 0 <= i < |vs| => VerdictNodeOf(vs[i]))
  }

  function LanguageNodes(ls: seq<string>): (r: seq<GraphNode>)
    ensures |r| == |ls| && forall i | 0 <= i < |ls| :: r[i] == LanguageNodeOf(ls[i])
  {
    seq(|ls|, i requires 0 <= i < |ls| => LanguageNodeOf(ls[i]))
  }

  function ScanNodes(history: seq<HistoryItem>): (r: seq<GraphNode>)
    ensures |r| == |history| && forall k | 0 <= k < |history| :: r[k] == ScanNodeOf(history[k])
  {
    seq(|history|, k requires 0 <= k < |history| => ScanNodeOf(history[k]))
  }

  function HubVerdictLinks(vs: seq<Verdict>): (r: seq<GraphLink>)
    ensures |r| == |vs| && forall i | 0 <= i < |vs| :: r[i] == HubVerdictLink(vs[i])
  {
    seq(|vs|, i requires 0 <= i < |vs| => HubVerdictLink(vs[i]))
  }

  function HubLanguageLinks(ls: seq<string>): (r: seq<GraphLink>)
    ensures |r| == |ls| && forall i | 0 <= i < |ls| :: r[i] == HubLanguageLink(ls[i])
  {
    seq(|ls|, i requires 0 <= i < |ls| => HubLanguageLink(ls[i]))
  }

  /** The graph drawn from given verdict and language lists: the hub,
      the verdict nodes, the language nodes, then the scan nodes; the
      hub's links, then two links per scan. */
  function Assemble(vs: seq<Verdict>, ls: seq<string>, history: seq<HistoryItem>): (g: Graph)
    ensures |g.nodes| == 1 + |vs| + |ls| + |history|
    ensures |g.links| == |vs| + |ls| + 2 * |history|
  {
    Graph([Hub] + VerdictNodes(vs) + LanguageNodes(ls) + ScanNodes(history),
          HubVerdictLinks(vs) + HubLanguageLinks(ls) + ScanLinks(history))
  }

  /** `buildGraphFromHistory`: nothing for an empty history; otherwise the
      hub first, and one node per distinct verdict, per distinct language
      and per scan (see `VerdictPart`, `LanguagePart`, `ScanPart`). */
  function BuildGraph(history: seq<HistoryItem>): (g: Graph)
    ensures |history| == 0 ==> g == Graph([], [])
    ensures |history| > 0 ==>
      var v, l := |Distinct(Verdicts(history))|, |Distinct(Languages(history))|;
      && |g.nodes| == 1 + v + l + |history|
      && |g.links| == v + l + 2 * |history|
      && g.nodes[0] == Hub
  {
    if |history| == 0 then Graph([], [])
    else Assemble(Distinct(Verdicts(history)), Distinct(Languages(history)), history)
  }

  // Where each group sits in an assembled graph.

  /** Indexing into the left part of a concatenation. */
  lemma AtLeft<T>(x: seq<T>, y: seq<T>, j: nat)
    requires j < |x|
    ensures (x + y)[j] == x[j]
  {
  }

  /** Indexing into the right part of a concatenation. */
  lemma AtRight<T>(x: seq<T>, y: seq<T>, j: nat)
    requires j < |y|
    ensures (x + y)[|x| + j] == y[j]
  {
  }

  // Where each node and link sits in an assembled graph.

  lemma HubAt(vs: seq<Verdict>, ls: seq<string>, history: seq<HistoryItem>)
    ensures Assemble(vs, ls, history).nodes[0] == Hub
  {
    var front := [Hub] + VerdictNodes(vs);
    AtLeft(front + LanguageNodes(ls), ScanNodes(history), 0);
    AtLeft(front, LanguageNodes(ls), 0);
    AtLeft([Hub], VerdictNodes(vs), 0);
  }

  lemma VerdictNodeAt(vs: seq<Verdict>, ls: seq<string>, history: seq<HistoryItem>, i: nat)
    requires i < |vs|
    ensures Assemble(vs, ls, history).nodes[1 + i] == VerdictNodeOf(vs[i])
  {
    var front := [Hub] + VerdictNodes(vs);
    AtLeft(front + LanguageNodes(ls), ScanNodes(history), 1 + i);
    AtLeft(front, LanguageNodes(ls), 1 + i);
    AtRight([Hub], VerdictNodes(vs), i);
  }

  lemma LanguageNodeAt(vs: seq<Verdict>, ls: seq<string>, history: seq<HistoryItem>, i: nat)
    requires i < |ls|
    ensures Assemble(vs, ls, history).nodes[1 + |vs| + i] == LanguageNodeOf(ls[i])
  {
    var front := [Hub] + VerdictNodes(vs);
    AtLeft(front + LanguageNodes(ls), ScanNodes(history), 1 + |vs| + i);
    AtRight(front, LanguageNodes(ls), i);
  }

  lemma ScanNodeAt(vs: seq<Verdict>, ls: seq<string>, history: seq<HistoryItem>, k: nat)
    requires k < |history|
    ensures Assemble(vs, ls, history).nodes[1 + |vs| + |ls| + k] == ScanNodeOf(history[k])
  {
    AtRight([Hub] + VerdictNodes(vs) + LanguageNodes(ls), ScanNodes(history), k);
  }

  lemma HubVerdictLinkAt(vs: seq<Verdict>, ls: seq<string>, history: seq<HistoryItem>, i: nat)
    requires i < |vs|
    ensures Assemble(vs, ls, history).links[i] == HubVerdictLink(vs[i])
  {
    var front := HubVerdictLinks(vs) + HubLanguageLinks(ls);
    AtLeft(front, ScanLinks(history), i);
    AtLeft(HubVerdictLinks(vs), HubLanguageLinks(ls), i);
  }

  lemma HubLanguageLinkAt(vs: seq<Verdict>, ls: seq<string>, history: seq<HistoryItem>, i: nat)
    requires i < |ls|
    ensures Assemble(vs, ls, history).links[|vs| + i] == HubLanguageLink(ls[i])
  {
    var front := HubVerdictLinks(vs) + HubLanguageLinks(ls);
    AtLeft(front, ScanLinks(history), |vs| + i);
    AtRight(HubVerdictLinks(vs), HubLanguageLinks(ls), i);
  }

  lemma ScanLinkAt(vs: seq<Verdict>, ls: seq<string>, history: seq<HistoryItem>, j: nat)
    requires j < 2 * |history|
    ensures Assemble(vs, ls, history).links[|vs| + |ls| + j] == ScanLinks(history)[j]
  {
    AtRight(HubVerdictLinks(vs) + HubLanguageLinks(ls), ScanLinks(history), j);
  }

  // The order of the graph: after the hub come the verdict nodes (one
  // per distinct verdict, in order of first occurrence), the language
  // nodes (likewise), then one node per scan in history order; the links
  // are one from the hub to each verdict and each language node, then two
  // per scan.

  lemma VerdictPart(history: seq<HistoryItem>)
    requires |history| > 0
    ensures var g, vs := BuildGraph(history), Distinct(Verdicts(history));
      forall i | 0 <= i < |vs| :: g.nodes[1 + i] == VerdictNodeOf(vs[i])
    ensures var g, vs := BuildGraph(history), Distinct(Verdicts(history));
      forall i | 0 <= i < |vs| :: g.links[i] == HubVerdictLink(vs[i])
  {
    var vs, ls := Distinct(Verdicts(history)), Distinct(Languages(history));
    var g := BuildGraph(history);
    forall i | 0 <= i < |vs|
      ensures g.nodes[1 + i] == VerdictNodeOf(vs[i]) && g.links[i] == HubVerdictLink(vs[i])
    {
      VerdictNodeAt(vs, ls, history, i);
      HubVerdictLinkAt(vs, ls, history, i);
    }
  }

  lemma LanguagePart(history: seq<HistoryItem>)
    requires |history| > 0
    ensures var g, v, ls := BuildGraph(history), |Distinct(Verdicts(history))|, Distinct(Languages(history));
      forall i | 0 <= i < |ls| :: g.nodes[1 + v + i] == LanguageNodeOf(ls[i])
    ensures var g, v, ls := BuildGraph(history), |Distinct(Verdicts(history))|, Distinct(Languages(history));
      forall i | 0 <= i < |ls| :: g.links[v + i] == HubLanguageLink(ls[i])
  {
    var vs, ls := Distinct(Verdicts(history)), Distinct(Languages(history));
    var g := BuildGraph(history);
    forall i | 0 <= i < |ls|
      ensures g.nodes[1 + |vs| + i] == LanguageNodeOf(ls[i]) && g.links[|vs| + i] == HubLanguageLink(ls[i])
    {
      LanguageNodeAt(vs, ls, history, i);
      HubLanguageLinkAt(vs, ls, history, i);
    }
  }

  lemma ScanPart(history: seq<HistoryItem>)
    requires |history| > 0
    ensures var g, n := BuildGraph(history), |Distinct(Verdicts(history))| + |Distinct(Languages(history))|;
      forall k | 0 <= k < |history| :: g.nodes[1 + n + k] == ScanNodeOf(history[k])
    ensures var g, n := BuildGraph(history), |Distinct(Verdicts(history))| + |Distinct(Languages(history))|;
      forall j | 0 <= j < 2 * |history| :: g.links[n + j] == ScanLinks(history)[j]
  {
    var vs, ls := Distinct(Verdicts(history)), Distinct(Languages(history));
    var g := BuildGraph(history);
    var n := |vs| + |ls|;
    forall k | 0 <= k < |history|
      ensures g.nodes[1 + n + k] == ScanNodeOf(history[k])
    {
      ScanNodeAt(vs, ls, history, k);
    }
    forall j | 0 <= j < 2 * |history|
      ensures g.links[n + j] == ScanLinks(history)[j]
    {
      ScanLinkAt(vs, ls, history, j);
    }
  }

  /** `id` names some node of the graph. */
  predicate HasNode(nodes: seq<GraphNode>, id: NodeId) {
    exists i | 0 <= i < |nodes| :: nodes[i].id == id
  }

  /** Every scan link is one of the two links of some scan. */
  lemma {:induction false} ScanLinkOrigin(history: seq<HistoryItem>, link: GraphLink)
    requires link in ScanLinks(history)
    ensures exists k | 0 <= k < |history| :: link == VerdictLink(history[k]) || link == LanguageLink(history[k])
  {
    if link != VerdictLink(history[0]) && link != LanguageLink(history[0]) {
      ScanLinkOrigin(history[1..], link);
      var k :| 0 <= k < |history[1..]| && (link == VerdictLink(history[1..][k]) || link == LanguageLink(history[1..][k]));
      assert history[1..][k] == history[k + 1];
    }
  }

  /** The verdict, language and scan nodes of scan `k` are in the
      graph. */
  lemma ScanNodesPresent(history: seq<HistoryItem>, k: nat)
    requires k < |history|
    ensures var g := BuildGraph(history);
      && HasNode(g.nodes, VerdictId(history[k].verdict))
      && HasNode(g.nodes, LanguageId(LanguageOf(history[k])))
      && HasNode(g.nodes, ScanId(history[k]))
  {
    var vs, ls := Distinct(Verdicts(history)), Distinct(Languages(history));
    DistinctMembers(Verdicts(history));
    DistinctMembers(Languages(history));
    assert Verdicts(history)[k] in vs && Languages(history)[k] in ls;
    VerdictNodePresent(vs, ls, history, history[k].verdict);
    LanguageNodePresent(vs, ls, history, LanguageOf(history[k]));
    ScanNodePresent(vs, ls, history, k);
  }

  lemma VerdictNodePresent(vs: seq<Verdict>, ls: seq<string>, history: seq<HistoryItem>, v: Verdict)
    requires v in vs
    ensures HasNode(Assemble(vs, ls, history).nodes, VerdictId(v))
  {
    var i := IndexOf(vs, v);
    VerdictNodeAt(vs, ls, history, i);
    assert Assemble(vs, ls, history).nodes[1 + i].id == VerdictId(v);
  }

  lemma LanguageNodePresent(vs: seq<Verdict>, ls: seq<string>, history: seq<HistoryItem>, l: string)
    requires l in ls
    ensures HasNode(Assemble(vs, ls, history).nodes, LanguageId(l))
  {
    var i := IndexOf(ls, l);
    LanguageNodeAt(vs, ls, history, i);
    assert Assemble(vs, ls, history).nodes[1 + |vs| + i].id == LanguageId(l);
  }

  lemma ScanNodePresent(vs: seq<Verdict>, ls: seq<string>, history: seq<HistoryItem>, k: nat)
    requires k < |history|
    ensures HasNode(Assemble(vs, ls, history).nodes, ScanId(history[k]))
  {
    ScanNodeAt(vs, ls, history, k);
    assert Assemble(vs, ls, history).nodes[1 + |vs| + |ls| + k].id == ScanId(history[k]);
  }

  /** Both ends of link `j` are nodes of the graph. */
  lemma LinkEnds(history: seq<HistoryItem>, j: nat)
    requires |history| > 0 && j < |BuildGraph(history).links|
    ensures var g := BuildGraph(history);
      HasNode(g.nodes, g.links[j].source) && HasNode(g.nodes, g.links[j].target)
  {
    var vs, ls := Distinct(Verdicts(history)), Distinct(Languages(history));
    var g := BuildGraph(history);
    var v, n := |vs|, |vs| + |ls|;
    HubAt(vs, ls, history);
    assert g.nodes[0].id == HubKey;
    if j < v {
      HubVerdictLinkAt(vs, ls, history, j);
      VerdictNodePresent(vs, ls, history, vs[j]);
    } else if j < n {
      HubLanguageLinkAt(vs, ls, history, j - v);
      LanguageNodePresent(vs, ls, history, ls[j - v]);
    } else {
      ScanLinkAt(vs, ls, history, j - n);
      var link := g.links[j];
      assert link in ScanLinks(history);
      ScanLinkOrigin(history, link);
      var k :| 0 <= k < |history| && (link == VerdictLink(history[k]) || link == LanguageLink(history[k]));
      DistinctMembers(Verdicts(history));
      DistinctMembers(Languages(history));
      assert Verdicts(history)[k] in vs && Languages(history)[k] in ls;
      VerdictNodePresent(vs, ls, history, history[k].verdict);
      LanguageNodePresent(vs, ls, history, LanguageOf(history[k]));
      ScanNodePresent(vs, ls, history, k);
    }
  }

  /** Every link starts and ends at a node of the graph. */
  lemma LinksJoinNodes(history: seq<HistoryItem>)
    ensures var g := BuildGraph(history);
      forall j | 0 <= j < |g.links| :: HasNode(g.nodes, g.links[j].source) && HasNode(g.nodes, g.links[j].target)
  {
    if |history| > 0 {
      forall j | 0 <= j < |BuildGraph(history).links|
        ensures var g := BuildGraph(history);
          HasNode(g.nodes, g.links[j].source) && HasNode(g.nodes, g.links[j].target)
      {
        LinkEnds(history, j);
      }
    }
  }

  // ---------------------------------------------------------------------
  // Summary counts.

  datatype Stats = Stats(totalScans: nat, threats: nat, languages: nat)

  /** The number of malicious items: `filter(h => h.verdict === 'malicious').length`,
      that is, how often the malicious verdict occurs among the items' verdicts. */
  function CountMalicious(history: seq<HistoryItem>): (n: nat)
    ensures n <= |history|
    ensures n == 0 <==> forall i | 0 <= i < |history| :: history[i].verdict != Malicious
    ensures n == multiset(Verdicts(history))[Malicious]
  {
    if |history| == 0 then 0
    else
      var rest := CountMalicious(history[1..]);
      assert forall i | 1 <= i < |history| :: history[i] == history[1..][i - 1];
      assert Verdicts(history) == [history[0].verdict] + Verdicts(history[1..]);
      (if history[0].verdict == Malicious then 1 else 0) + rest
  }

  /** Counting splits over a concatenation of histories, as a filter's
      length does. */
  lemma {:induction false} CountMaliciousAppend(a: seq<HistoryItem>, b: seq<HistoryItem>)
    ensures CountMalicious(a + b) == CountMalicious(a) + CountMalicious(b)
  {
    var va, vb, vab := Verdicts(a), Verdicts(b), Verdicts(a + b);
    forall i | 0 <= i < |vab|
      ensures vab[i] == (va + vb)[i]
    {
      if i < |a| {
        assert (a + b)[i] == a[i];
      } else {
        assert (a + b)[i] == b[i - |a|];
      }
    }
    assert vab == va + vb;
  }

  /** The page's counters: the number of scans, of threats, and of
      distinct languages (a missing language counting as unknown). */
  function StatsOf(history: seq<HistoryItem>): (s: Stats)
    ensures s.threats <= s.totalScans == |history|
    ensures s.threats == multiset(Verdicts(history))[Malicious]
    ensures s.languages == |set l | l in Languages(history)|
    ensures s.languages <= s.totalScans
    ensures s.languages == 0 <==> |history| == 0
  {
    var ls := Distinct(Languages(history));
    DistinctMembers(Languages(history));
    NoDuplicatesCard(ls);
    assert (set l | l in ls) == (set l | l in Languages(history));
    assert |history| > 0 ==> Languages(history)[0] in ls;
    SetOfSeqBound(Languages(history));
    Stats(|history|, CountMalicious(history), |ls|)
  }

  lemma {:induction false} SetOfSeqBound<T>(s: seq<T>)
    ensures |set x | x in s| <= |s|
  {
    if |s| > 0 {
      SetOfSeqBound(s[1..]);
      assert (set x | x in s) == (set x | x in s[1..]) + {s[0]};
    }
  }

  /** The language count is the number of language nodes of the graph. */
  lemma LanguageCountMatchesGraph(history: seq<HistoryItem>)
    requires |history| > 0
    ensures StatsOf(history).languages == |BuildGraph(history).nodes| - 1 - |Distinct(Verdicts(history))| - |history|
  {
  }
}
