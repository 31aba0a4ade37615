/** The multi-language tree-sitter front end: which languages have a
    parser, the node-type census of a syntax tree, and the feature map that
    puts language-specific node types into ten shared categories.

    Tree-sitter itself is an input: a syntax tree is a `SyntaxNode`, and
    `parse(language, code)` is the parser's answer (`None` when it raises). */
module Treesitter {
  import opened Wrappers
  import opened Seqs

  /** A syntax-tree node: its type name and its children, in order. */
  datatype SyntaxNode = SyntaxNode(kind: string, children: seq<SyntaxNode>)

  /** The answer of `parse_code` and of what is built on it: an unsupported
      language raises; otherwise a value. */
  datatype Outcome<T> = UnsupportedLanguage(language: string) | Ok(value: T)

  /** The languages `_init_parsers` tries to load, in order. */
  const ParserLanguages: seq<string> := [
    "python", "java", "javascript", "c", "cpp", "c_sharp", "go", "ruby",
    "typescript", "php"]

  /** `PARSERS` after start-up: every language whose grammar loaded. */
  function Parsers(failed: set<string>): (r: set<string>)
    ensures forall l | l in r :: l in ParserLanguages && l !in failed
    ensures forall i | 0 <= i < |ParserLanguages| && ParserLanguages[i] !in failed :: ParserLanguages[i] in r
  {
    set i | 0 <= i < |ParserLanguages| && ParserLanguages[i] !in failed :: ParserLanguages[i]
  }

  /** `parse_code`: an unloaded language raises; otherwise the parser's
      answer, `None` when it fails. */
  function ParseCode(code: string, language: string, parsers: set<string>,
                     parse: (string, string) -> Option<SyntaxNode>): (r: Outcome<Option<SyntaxNode>>)
    ensures r.UnsupportedLanguage? <==> language !in parsers
    ensures r.UnsupportedLanguage? ==> r.language == language
    ensures r.Ok? ==> r.value == parse(language, code)
  {
    if language !in parsers then UnsupportedLanguage(language) else Ok(parse(language, code))
  }

  // ---------------------------------------------------------------------
  // The node census.

  /** The node types in the order `walk_tree` visits them: a node, then
      each child's subtree in turn. */
  function Walk(n: SyntaxNode): (r: seq<string>)
    ensures |r| >= 1 && r[0] == n.kind
    decreases n
  {
    [n.kind] + WalkAll(n.children)
  }

  function WalkAll(ns: seq<SyntaxNode>): seq<string>
    decreases ns
  {
    if |ns| == 0 then [] else Walk(ns[0]) + WalkAll(ns[1..])
  }

  /** The number of nodes of a tree. */
  function Size(n: SyntaxNode): nat
    decreases n
  {
    1 + SizeAll(n.children)
  }

  function SizeAll(ns: seq<SyntaxNode>): nat
    decreases ns
  {
    if |ns| == 0 then 0 else Size(ns[0]) + SizeAll(ns[1..])
  }

  /** The walk visits every node once. */
  lemma {:induction false} WalkVisitsEveryNode(n: SyntaxNode)
    ensures |Walk(n)| == Size(n)
    decreases n
  {
    WalkAllVisitsEveryNode(n.children);
  }

  lemma {:induction false} WalkAllVisitsEveryNode(ns: seq<SyntaxNode>)
    ensures |WalkAll(ns)| == SizeAll(ns)
    decreases ns
  {
    if |ns| > 0 {
      WalkVisitsEveryNode(ns[0]);
      WalkAllVisitsEveryNode(ns[1..]);
    }
  }

  /** `counter.get(k, 0)`. */
  function Get(counts: map<string, nat>, k: string): nat {
    if k in counts then counts[k] else 0
  }

  /** `node_counts[kind] += 1`. */
  function Bump(counts: map<string, nat>, kind: string): (r: map<string, nat>)
    ensures forall k :: Get(r, k) == Get(counts, k) + (if k == kind then 1 else 0)
    ensures forall k :: k in r <==> k in counts || k == kind
  {
    counts[kind := Get(counts, kind) + 1]
  }

  /** `walk_tree` on a Counter: count the node, then walk each child. */
  function Tally(counts: map<string, nat>, n: SyntaxNode): map<string, nat>
    decreases n
  {
    TallyAll(Bump(counts, n.kind), n.children)
  }

  function TallyAll(counts: map<string, nat>, ns: seq<SyntaxNode>): map<string, nat>
    decreases ns
  {
    if |ns| == 0 then counts else TallyAll(Tally(counts, ns[0]), ns[1..])
  }

  /** Walking a tree adds, to each type's count, the number of its nodes
      of that type, and adds a key exactly for the types it holds. */
  lemma {:induction false} TallyCounts(counts: map<string, nat>, n: SyntaxNode)
    ensures forall k :: Get(Tally(counts, n), k) == Get(counts, k) + multiset(Walk(n))[k]
    ensures forall k :: k in Tally(counts, n) <==> k in counts || k in Walk(n)
    decreases n
  {
    var b := Bump(counts, n.kind);
    TallyAllCounts(b, n.children);
    assert multiset(Walk(n)) == multiset{n.kind} + multiset(WalkAll(n.children));
    forall k
      ensures k in Walk(n) <==> k == n.kind || k in WalkAll(n.children)
    {
      assert Walk(n) == [n.kind] + WalkAll(n.children);
    }
  }

  lemma {:induction false} TallyAllCounts(counts: map<string, nat>, ns: seq<SyntaxNode>)
    ensures forall k :: Get(TallyAll(counts, ns), k) == Get(counts, k) + multiset(WalkAll(ns))[k]
    ensures forall k :: k in TallyAll(counts, ns) <==> k in counts || k in WalkAll(ns)
    decreases ns
  {
    if |ns| > 0 {
      var t := Tally(counts, ns[0]);
      TallyCounts(counts, ns[0]);
      TallyAllCounts(t, ns[1..]);
      assert WalkAll(ns) == Walk(ns[0]) + WalkAll(ns[1..]);
      assert multiset(WalkAll(ns)) == multiset(Walk(ns[0])) + multiset(WalkAll(ns[1..]));
    }
  }

  /** The census of one tree, as `get_node_counts` builds it. */
  function Census(root: SyntaxNode): (r: map<string, nat>)
    ensures forall k :: Get(r, k) == multiset(Walk(root))[k]
    ensures forall k :: k in r <==> k in Walk(root)
  {
    TallyCounts(map[], root);
    Tally(map[], root)
  }

  /** The counts add up to the size of the tree. */
  lemma CensusCoversTree(root: SyntaxNode)
    ensures |multiset(Walk(root))| == Size(root)
    ensures forall k | k in Census(root) :: Census(root)[k] > 0
  {
    WalkVisitsEveryNode(root);
    var r := Census(root);
    forall k | k in r
      ensures r[k] > 0
    {
      assert Get(r, k) == multiset(Walk(root))[k];
    }
  }

  /** `get_node_counts`: an unsupported language raises; a failed parse
      gives no counts; otherwise the census of the tree. */
  function NodeCounts(code: string, language: string, parsers: set<string>,
                      parse: (string, string) -> Option<SyntaxNode>): (r: Outcome<map<string, nat>>)
    ensures r.UnsupportedLanguage? <==> language !in parsers
    ensures r.Ok? && parse(language, code).None? ==> r.value == map[]
    ensures r.Ok? && parse(language, code).Some? ==>
      forall k :: Get(r.value, k) == multiset(Walk(parse(language, code).value))[k]
  {
    match ParseCode(code, language, parsers, parse)
    case UnsupportedLanguage(l) => UnsupportedLanguage(l)
    case Ok(None) => Ok(map[])
    case Ok(Some(root)) => Ok(Census(root))
  }

  // ---------------------------------------------------------------------
  // Normalised features.

  /** The ten shared categories. */
  datatype Category =
    | FunctionDefinition | ClassDefinition | VariableDeclaration | CallExpression
    | StringLiteral | ImportStatement | IfStatement | LoopStatement
    | BinaryExpression | ExceptionHandling

  /** `COMMON_MAPPINGS`: the node types each category gathers. */
  function TypesOf(c: Category): seq<string> {
    match c
    case FunctionDefinition => ["function_definition", "method_declaration", "function_declaration",
                                "arrow_function", "method_definition", "func_literal"]
    case ClassDefinition => ["class_definition", "class_declaration", "class_body"]
    case VariableDeclaration => ["assignment", "variable_declaration", "variable_declarator",
                                 "local_variable_declaration", "short_var_declaration"]
    case CallExpression => ["call", "call_expression", "method_invocation", "function_call_expression"]
    case StringLiteral => ["string", "string_literal", "interpreted_string_literal", "template_string"]
    case ImportStatement => ["import_statement", "import_declaration", "using_directive", "require"]
    case IfStatement => ["if_statement", "if_expression", "conditional_expression"]
    case LoopStatement => ["for_statement", "while_statement", "for_in_statement", "for_each_statement",
                           "range_clause", "enhanced_for_statement"]
    case BinaryExpression => ["binary_expression", "binary_operator", "comparison_operator"]
    case ExceptionHandling => ["try_statement", "catch_clause", "except_clause", "rescue"]
  }

  const Categories: set<Category> := {
    FunctionDefinition, ClassDefinition, VariableDeclaration, CallExpression,
    StringLiteral, ImportStatement, IfStatement, LoopStatement,
    BinaryExpression, ExceptionHandling}

  lemma EveryCategoryListed(c: Category)
    ensures c in Categories
  {
  }

  /** A feature name: `<language>_<type>`, `common_<category>` or
      `is_<language>`. */
  datatype FeatureKey =
    | RawKey(language: string, nodeType: string)
    | CommonKey(category: Category)
    | LanguageFlag(flagged: string)

  /** `sum(raw_counts.get(nt, 0) for nt in node_types)`. */
  function SumCounts(raw: map<string, nat>, types: seq<string>): nat {
    if |types| == 0 then 0 else Get(raw, types[0]) + SumCounts(raw, types[1..])
  }

  /** The raw counts under the language's prefix. */
  function RawFeatures(raw: map<string, nat>, language: string): (r: map<FeatureKey, nat>)
    ensures forall k | k in r :: k.RawKey? && k.language == language
    ensures forall t :: RawKey(language, t) in r <==> t in raw
    ensures forall t | t in raw :: r[RawKey(language, t)] == raw[t]
  {
    map t | t in raw :: RawKey(language, t) := raw[t]
  }

  /** The ten category totals under `common_<category>`. */
  function CommonFeatures(raw: map<string, nat>, mappings: Category -> seq<string>): (r: map<FeatureKey, nat>)
    ensures forall k | k in r :: k.CommonKey? && r[k] == SumCounts(raw, mappings(k.category))
    ensures forall c: Category :: CommonKey(c) in r
  {
    forall c: Category
      ensures c in Categories
    {
      EveryCategoryListed(c);
    }
    map c | c in Categories :: CommonKey(c) := SumCounts(raw, mappings(c))
  }

  /** `get_normalized_features` on given raw counts and category table:
      every raw count under `<language>_<type>`, the ten category totals
      (an absent type counts 0), and `is_<language>` set to 1; nothing
      else. */
  function NormalizedFeatures(raw: map<string, nat>, language: string, mappings: Category -> seq<string>): (r: map<FeatureKey, nat>)
    ensures forall t :: RawKey(language, t) in r <==> t in raw
    ensures forall t | t in raw :: r[RawKey(language, t)] == raw[t]
    ensures forall c: Category :: CommonKey(c) in r && r[CommonKey(c)] == SumCounts(raw, mappings(c))
    ensures LanguageFlag(language) in r && r[LanguageFlag(language)] == 1
    ensures forall k | k in r :: (k.RawKey? ==> k.language == language) && (k.LanguageFlag? ==> k == LanguageFlag(language))
  {
    var a, b := RawFeatures(raw, language), CommonFeatures(raw, mappings);
    (a + b)[LanguageFlag(language) := 1]
  }

  /** `get_normalized_features`: the feature map of the parsed code, built
      on the census; an unsupported language raises. */
  function Features(code: string, language: string, parsers: set<string>,
                    parse: (string, string) -> Option<SyntaxNode>): (r: Outcome<map<FeatureKey, nat>>)
    ensures r.UnsupportedLanguage? <==> language !in parsers
    ensures r.Ok? ==> LanguageFlag(language) in r.value && r.value[LanguageFlag(language)] == 1
    ensures r.Ok? ==> forall c: Category :: CommonKey(c) in r.value
    ensures r.Ok? && parse(language, code).Some? ==>
      var tree := parse(language, code).value;
      && (forall c: Category :: r.value[CommonKey(c)] == CountWhere(Walk(tree), TypesOf(c)))
      && (forall t :: RawKey(language, t) in r.value <==> t in Walk(tree))
      && (forall t | t in Walk(tree) :: r.value[RawKey(language, t)] == multiset(Walk(tree))[t])
  {
    match NodeCounts(code, language, parsers, parse)
    case UnsupportedLanguage(l) => UnsupportedLanguage(l)
    case Ok(raw) =>
      if parse(language, code).Some? then
        var tree := parse(language, code).value;
        assert raw == Census(tree);
        forall c: Category
          ensures NormalizedFeatures(raw, language, TypesOf)[CommonKey(c)] == CountWhere(Walk(tree), TypesOf(c))
        {
          CategoryTotalCountsNodes(tree, language, c);
        }
        Ok(NormalizedFeatures(raw, language, TypesOf))
      else
        Ok(NormalizedFeatures(raw, language, TypesOf))
  }

  /** A failed parse still yields the ten category totals, all zero, and
      the language flag. */
  lemma {:induction false} FailedParseGivesZeroTotals(code: string, language: string, parsers: set<string>,
                                                      parse: (string, string) -> Option<SyntaxNode>)
    requires language in parsers && parse(language, code).None?
    ensures var r := Features(code, language, parsers, parse);
      && r.Ok?
      && (forall c: Category :: r.value[CommonKey(c)] == 0)
      && (forall k | k in r.value :: !k.RawKey?)
  {
    forall c: Category
      ensures SumCounts(map[], TypesOf(c)) == 0
    {
      SumOfNothing(TypesOf(c));
    }
  }

  lemma {:induction false} SumOfNothing(types: seq<string>)
    ensures SumCounts(map[], types) == 0
  {
    if |types| > 0 {
      SumOfNothing(types[1..]);
    }
  }

  // ---------------------------------------------------------------------
  // What a category total counts.

  /** The number of positions of `w` holding one of `types`. */
  function CountWhere(w: seq<string>, types: seq<string>): nat {
    if |w| == 0 then 0 else (if w[0] in types then 1 else 0) + CountWhere(w[1..], types)
  }

  /** No category lists a node type twice. */
  lemma CategoryTypesDistinct(c: Category)
    ensures NoDuplicates(TypesOf(c))
  {
  }

  /** `SumCounts` over multiset counts. */
  function MultisetSum(m: multiset<string>, types: seq<string>): nat {
    if |types| == 0 then 0 else m[types[0]] + MultisetSum(m, types[1..])
  }

  lemma {:induction false} MultisetSumAdd(m: multiset<string>, x: string, types: seq<string>)
    requires NoDuplicates(types)
    ensures MultisetSum(m + multiset{x}, types) == MultisetSum(m, types) + (if x in types then 1 else 0)
  {
    if |types| > 0 {
      assert NoDuplicates(types[1..]) by {
        forall i, j | 0 <= i < j < |types[1..]|
          ensures types[1..][i] != types[1..][j]
        {
          assert types[1..][i] == types[i + 1] && types[1..][j] == types[j + 1];
        }
      }
      MultisetSumAdd(m, x, types[1..]);
      assert x in types <==> x == types[0] || x in types[1..];
      if x == types[0] {
        assert x !in types[1..] by {
          forall j | 0 <= j < |types[1..]|
            ensures types[1..][j] != x
          {
            assert types[1..][j] == types[j + 1];
          }
        }
      }
    }
  }

  lemma {:induction false} MultisetSumCounts(w: seq<string>, types: seq<string>)
    requires NoDuplicates(types)
    ensures MultisetSum(multiset(w), types) == CountWhere(w, types)
  {
    if |w| == 0 {
      MultisetSumEmpty(types);
    } else {
      assert w == [w[0]] + w[1..];
      assert multiset(w) == multiset(w[1..]) + multiset{w[0]};
      MultisetSumAdd(multiset(w[1..]), w[0], types);
      MultisetSumCounts(w[1..], types);
    }
  }

  lemma {:induction false} MultisetSumEmpty(types: seq<string>)
    ensures MultisetSum(multiset{}, types) == 0
  {
    if |types| > 0 {
      MultisetSumEmpty(types[1..]);
    }
  }

  lemma {:induction false} SumCountsOfCensus(root: SyntaxNode, types: seq<string>)
    ensures SumCounts(Census(root), types) == MultisetSum(multiset(Walk(root)), types)
  {
    if |types| > 0 {
      SumCountsOfCensus(root, types[1..]);
    }
  }

  /** A category total is the number of nodes of the tree whose type is one
      of the category's types. */
  lemma CategoryTotalCountsNodes(root: SyntaxNode, language: string, c: Category)
    ensures NormalizedFeatures(Census(root), language, TypesOf)[CommonKey(c)] == CountWhere(Walk(root), TypesOf(c))
  {
    CategoryTypesDistinct(c);
    SumCountsOfCensus(root, TypesOf(c));
    MultisetSumCounts(Walk(root), TypesOf(c));
  }
}
