/** Language detection for submitted code: a file-extension lookup first,
    then weighted signature scoring over the code text with the earliest
    best-scoring language winning, and a confidence that saturates at 50
    points.

    The signatures are regular expressions; the model does not interpret
    them. How many times a pattern matches a text is the parameter
    `matches(pattern, code)`, so every property below holds whatever the
    regular-expression engine reports. */
module LanguageDetector {
  import opened Wrappers
  import opened Strings

  /** The ten languages the detector knows. */
  datatype Language = Python | Java | JavaScript | TypeScript | C | Cpp | CSharp | Go | Ruby | Php

  /** The name the service reports for each language. */
  function Name(l: Language): string {
    match l
    case Python => "python"
    case Java => "java"
    case JavaScript => "javascript"
    case TypeScript => "typescript"
    case C => "c"
    case Cpp => "cpp"
    case CSharp => "c_sharp"
    case Go => "go"
    case Ruby => "ruby"
    case Php => "php"
  }

  /** Points are positive: every signature match adds to the score. */
  type Weight = w: nat | 0 < w witness 1

  /** One signature: a pattern and the points each match is worth. */
  datatype Signature = Signature(pattern: string, weight: Weight)

  /** Regular-expression match counter: how many non-overlapping matches a
      pattern has in a text. */
  type MatchCounter = (string, string) -> nat

  /** The languages in scoring order; that order breaks ties between
      equal scores. */
  const ScoringOrder: seq<Language> :=
    [TypeScript, Java, CSharp, Cpp, C, Go, Ruby, Php, JavaScript, Python]

  /** A signature table: each language's signatures. */
  type SignatureTable = Language -> seq<Signature>

  /** Each language's signatures, as in the detector's own table. The
      scoring below takes the table as a parameter: every property of it
      holds whatever the patterns and weights are. */
  function SignaturesOf(language: Language): seq<Signature>
  {
    match language
    case TypeScript => [
      Signature(@"\binterface\s+\w+\s*{", 10),
      Signature(@":\s*(string|number|boolean|any)\b", 8),
      Signature(@"\btype\s+\w+\s*=", 10),
      Signature(@"<\w+>\s*\(", 5),
      Signature(@"\basync\s+function", 3)]
    case Java => [
      Signature(@"\bpublic\s+(static\s+)?(void|class|interface)", 15),
      Signature(@"\bprivate\s+(static\s+)?(void|class)", 12),
      Signature(@"\bString\s+\w+\s*=", 10),
      Signature(@"\bSystem\.out\.print", 15),
      Signature(@"\bimport\s+java\.", 20),
      Signature(@"\bnew\s+\w+\s*\(", 5),
      Signature(@"\bextends\s+\w+", 8),
      Signature(@"\bimplements\s+\w+", 10)]
    case CSharp => [
      Signature(@"\busing\s+System", 20),
      Signature(@"\bnamespace\s+\w+", 15),
      Signature(@"\bConsole\.(Write|Read)", 15),
      Signature(@"\bvar\s+\w+\s*=", 5),
      Signature(@"\basync\s+Task", 10),
      Signature(@"\bpublic\s+partial\s+class", 12)]
    case Cpp => [
      Signature(@"#include\s*<\w+>", 15),
      Signature(@"\bstd::", 20),
      Signature(@"\bcout\s*<<", 15),
      Signature(@"\bcin\s*>>", 15),
      Signature(@"\busing\s+namespace\s+std", 20),
      Signature(@"\btemplate\s*<", 10),
      Signature(@"\bclass\s+\w+\s*:", 8),
      Signature(@"nullptr", 10)]
    case C => [
      Signature(@"#include\s*<stdio\.h>", 20),
      Signature(@"#include\s*<stdlib\.h>", 20),
      Signature(@"\bprintf\s*\(", 15),
      Signature(@"\bscanf\s*\(", 15),
      Signature(@"\bmalloc\s*\(", 12),
      Signature(@"\bfree\s*\(", 10),
      Signature(@"\bint\s+main\s*\(", 15),
      Signature(@"\bchar\s*\*", 8)]
    case Go => [
      Signature(@"\bpackage\s+\w+", 20),
      Signature(@"\bfunc\s+\w+\s*\(", 15),
      Signature(@"\bfmt\.(Print|Scan)", 15),
      Signature(@":=", 10),
      Signature(@"\bgo\s+func", 12),
      Signature(@"\bchan\s+\w+", 12),
      Signature(@"\bdefer\s+", 10)]
    case Ruby => [
      Signature(@"\bdef\s+\w+", 10),
      Signature(@"\bend\s*$", 8),
      Signature(@"\brequire\s+['""]", 15),
      Signature(@"\battr_(reader|writer|accessor)", 15),
      Signature(@"\bputs\s+", 12),
      Signature(@"\bclass\s+\w+\s*<", 10),
      Signature(@"\.each\s+do\s*\|", 12)]
    case Php => [
      Signature(@"<\?php", 25),
      Signature(@"\$\w+\s*=", 15),
      Signature(@"\becho\s+", 12),
      Signature(@"\bfunction\s+\w+\s*\(", 8),
      Signature(@"\barray\s*\(", 10),
      Signature(@"\->", 5)]
    case JavaScript => [
      Signature(@"\bconst\s+\w+\s*=", 8),
      Signature(@"\blet\s+\w+\s*=", 8),
      Signature(@"\bvar\s+\w+\s*=", 6),
      Signature(@"\bfunction\s+\w+\s*\(", 8),
      Signature(@"=>", 6),
      Signature(@"\bconsole\.(log|error|warn)", 15),
      Signature(@"\brequire\s*\(['""]", 12),
      Signature(@"\bexport\s+(default|const|function)", 12),
      Signature(@"\bimport\s+.*\s+from\s+['""]", 12)]
    case Python => [
      Signature(@"\bdef\s+\w+\s*\(", 10),
      Signature(@"\bimport\s+\w+", 10),
      Signature(@"\bfrom\s+\w+\s+import", 12),
      Signature(@"\bprint\s*\(", 8),
      Signature(@"\bclass\s+\w+\s*(\(|:)", 10),
      Signature(@"\bself\.\w+", 12),
      Signature(@"\bif\s+.*:", 5),
      Signature(@"\belif\s+", 10),
      Signature(@"\b__\w+__", 10)]
  }

  /** File-name suffixes and the language each one names, in lookup order. */
  const ExtensionMap: seq<(string, Language)> := [
    (".py", Python), (".java", Java), (".js", JavaScript), (".jsx", JavaScript),
    (".ts", TypeScript), (".tsx", TypeScript), (".c", C), (".h", C),
    (".cpp", Cpp), (".cc", Cpp), (".cxx", Cpp), (".hpp", Cpp),
    (".cs", CSharp), (".go", Go), (".rb", Ruby), (".php", Php)
  ]

  /** The tree-sitter language map, in its order. */
  const LanguageMap: seq<Language> :=
    [Python, Java, JavaScript, TypeScript, C, Cpp, CSharp, Go, Ruby, Php]

  /** The result of detection: a language name and a confidence. */
  datatype Detection = Detection(language: Language, confidence: real)

  /** `get_supported_languages`: every language exactly once, in the
      language map's order. */
  function SupportedLanguages(): (r: seq<Language>)
    ensures |r| == 10
    ensures forall i, j | 0 <= i < j < |r| :: r[i] != r[j]
    ensures forall l: Language :: l in r
  {
    EveryLanguageMapped();
    LanguageMap
  }

  lemma EveryLanguageMapped()
    ensures forall l: Language :: l in LanguageMap
  {
    forall l: Language
      ensures l in LanguageMap
    {
      match l
      case Python => assert LanguageMap[0] == l;
      case Java => assert LanguageMap[1] == l;
      case JavaScript => assert LanguageMap[2] == l;
      case TypeScript => assert LanguageMap[3] == l;
      case C => assert LanguageMap[4] == l;
      case Cpp => assert LanguageMap[5] == l;
      case CSharp => assert LanguageMap[6] == l;
      case Go => assert LanguageMap[7] == l;
      case Ruby => assert LanguageMap[8] == l;
      case Php => assert LanguageMap[9] == l;
    }
  }

  /** The points one signature list earns on `code`: each pattern's match
      count times its weight, summed. */
  function Score(sigs: seq<Signature>, code: string, matches: MatchCounter): nat
  {
    if |sigs| == 0 then 0
    else matches(sigs[0].pattern, code) * sigs[0].weight + Score(sigs[1..], code, matches)
  }

  /** A signature list scores zero exactly when none of its patterns
      matches. */
  lemma {:induction false} ScoreZeroIffNoMatch(sigs: seq<Signature>, code: string, matches: MatchCounter)
    ensures Score(sigs, code, matches) == 0 <==> forall i | 0 <= i < |sigs| :: matches(sigs[i].pattern, code) == 0
  {
    if |sigs| > 0 {
      ScoreZeroIffNoMatch(sigs[1..], code, matches);
      assert forall i | 1 <= i < |sigs| :: sigs[i] == sigs[1..][i - 1];
    }
  }

  /** Every language's score, in table order. */
  function Scores(code: string, matches: MatchCounter, table: SignatureTable): (r: seq<nat>)
    ensures |r| == |ScoringOrder|
    ensures forall i | 0 <= i < |ScoringOrder| :: r[i] == Score(table(ScoringOrder[i]), code, matches)
  {
    seq(|ScoringOrder|, i requires 0 <= i < |ScoringOrder| => Score(table(ScoringOrder[i]), code, matches))
  }

  /** Python's `max(d, key=d.get)`: the first position holding the
      largest value. */
  function FirstMax(s: seq<nat>): (k: nat)
    requires |s| > 0
    ensures k < |s|
    ensures forall j | 0 <= j < |s| :: s[j] <= s[k]
    ensures forall j | 0 <= j < k :: s[j] < s[k]
  {
    if |s| == 1 then 0
    else
      var k := FirstMax(s[..|s| - 1]);
      assert forall j | 0 <= j < |s| - 1 :: s[j] == s[..|s| - 1][j];
      if s[|s| - 1] > s[k] then |s| - 1 else k
  }

  /** `_detect_from_extension`: the language of the first suffix in the
      map that the lower-cased file name ends with. */
  function DetectFromExtension(filename: string): (r: Option<Language>)
    ensures r.None? <==> forall i | 0 <= i < |ExtensionMap| :: !EndsWith(Lower(filename), ExtensionMap[i].0)
    ensures r.Some? ==> exists i | 0 <= i < |ExtensionMap| ::
      EndsWith(Lower(filename), ExtensionMap[i].0) && r.value == ExtensionMap[i].1
  {
    FirstSuffix(Lower(filename), ExtensionMap, 0)
  }

  /** The value paired with the first suffix, from position `i` of `table`
      on, that `name` ends with. */
  function FirstSuffix<V>(name: string, table: seq<(string, V)>, i: nat): (r: Option<V>)
    requires i <= |table|
    ensures r.None? <==> forall j | i <= j < |table| :: !EndsWith(name, table[j].0)
    ensures r.Some? ==> exists j | i <= j < |table| ::
      EndsWith(name, table[j].0) && r.value == table[j].1
    decreases |table| - i
  {
    if i == |table| then None
    else if EndsWith(name, table[i].0) then Some(table[i].1)
    else FirstSuffix(name, table, i + 1)
  }

  /** No suffix in the map ends with another, so a file name matches at
      most one of them and the lookup order never matters. */
  lemma ExtensionsSuffixFree()
    ensures forall i, j | 0 <= i < |ExtensionMap| && 0 <= j < |ExtensionMap| && i != j ::
      !EndsWith(ExtensionMap[i].0, ExtensionMap[j].0)
  {
    ExtensionsAreDotted();
    ExtensionsDistinct();
    forall i, j | 0 <= i < |ExtensionMap| && 0 <= j < |ExtensionMap| && i != j
      ensures !EndsWith(ExtensionMap[i].0, ExtensionMap[j].0)
    {
      DottedSuffix(ExtensionMap[i].0, ExtensionMap[j].0);
    }
  }

  /** Text with a single dot, at its start. */
  predicate Dotted(s: string) {
    |s| > 0 && s[0] == '.' && '.' !in s[1..]
  }

  lemma ExtensionsAreDotted()
    ensures forall i | 0 <= i < |ExtensionMap| :: Dotted(ExtensionMap[i].0)
  {
  }

  lemma ExtensionsDistinct()
    ensures forall i, j | 0 <= i < j < |ExtensionMap| :: ExtensionMap[i].0 != ExtensionMap[j].0
  {
  }

  /** A dotted text ends with another only when they are equal: a shorter
      suffix would put its dot after the first character. */
  lemma DottedSuffix(a: string, b: string)
    requires Dotted(a) && Dotted(b)
    ensures EndsWith(a, b) ==> a == b
  {
    if |b| < |a| {
      var k := |a| - |b|;
      assert a[k] == a[1..][k - 1];
      assert a[k..][0] != b[0];
    }
  }

  /** The score normaliser: `min(1.0, score / 50.0)`. */
  function Confidence(score: nat): real
  {
    var x := score as real / 50.0;
    if x < 1.0 then x else 1.0
  }

  /** `detect_language`. A non-empty file name with a known suffix decides
      with full confidence, whatever the code. Otherwise the code is scored:
      all-zero scores give Python with zero confidence; any positive score
      gives the earliest best-scoring language, with a confidence in (0, 1]
      that reaches 1 exactly when the best score is 50 or more. */
  function DetectLanguage(code: string, filename: Option<string>, matches: MatchCounter, table: SignatureTable): (r: Detection)
    ensures r.language in SupportedLanguages()
    ensures 0.0 <= r.confidence <= 1.0
    ensures filename.Some? && filename.value != "" && DetectFromExtension(filename.value).Some? ==>
      r == Detection(DetectFromExtension(filename.value).value, 1.0)
    ensures !(filename.Some? && filename.value != "" && DetectFromExtension(filename.value).Some?) ==>
      var sc := Scores(code, matches, table);
      && ((forall i | 0 <= i < |sc| :: sc[i] == 0) ==> r == Detection(Python, 0.0))
      && ((exists i | 0 <= i < |sc| :: sc[i] > 0) ==>
            exists k | 0 <= k < |sc| ::
              && r.language == ScoringOrder[k]
              && (forall j | 0 <= j < |sc| :: sc[j] <= sc[k])
              && (forall j | 0 <= j < k :: sc[j] < sc[k])
              && 0.0 < r.confidence
              && (r.confidence == 1.0 <==> sc[k] >= 50)
              && (sc[k] < 50 ==> r.confidence == sc[k] as real / 50.0))
  {
    var ext := if filename.Some? && filename.value != "" then DetectFromExtension(filename.value) else None;
    if ext.Some? then
      Detection(ext.value, 1.0)
    else
      var sc := Scores(code, matches, table);
      var k := FirstMax(sc);
      if sc[k] == 0 then Detection(Python, 0.0)
      else
        Detection(ScoringOrder[k], Confidence(sc[k]))
  }

  /** The extension wins over the content: `test.py` is Python with full
      confidence even when the code is PHP. */
  lemma ExtensionPrecedence(code: string, matches: MatchCounter, table: SignatureTable)
    ensures DetectLanguage(code, Some("test.py"), matches, table) == Detection(Python, 1.0)
  {
    assert EndsWith(Lower("test.py"), ".py");
  }

  /** A known suffix in mixed case resolves through the lower-cased
      name: `Main.java` is Java with full confidence. */
  lemma MixedCaseExtension(code: string, matches: MatchCounter, table: SignatureTable)
    ensures DetectLanguage(code, Some("Main.java"), matches, table) == Detection(Java, 1.0)
  {
    var l := Lower("Main.java");
    assert l == "main.java" by {
      forall i | 0 <= i < 9
        ensures l[i] == "main.java"[i]
      {
        assert l[i] == ToLower("Main.java"[i]);
      }
    }
    JavaFile(l);
  }

  /** A lower-cased name ending in `.java` is Java: `.py`, the one
      suffix tried before it, does not match. */
  lemma JavaFile(l: string)
    requires EndsWith(l, ".java")
    ensures FirstSuffix(l, ExtensionMap, 0) == Some(Java)
  {
    assert l[|l| - 3..] == l[|l| - 5..][2..];
    assert !EndsWith(l, ".py");
  }

  /** Text on which no pattern matches (the empty text, or prose) is
      Python with zero confidence. */
  lemma NoMatchDefaultsToPython(code: string, matches: MatchCounter, table: SignatureTable)
    requires forall i, j | 0 <= i < |ScoringOrder| && 0 <= j < |table(ScoringOrder[i])| ::
      matches(table(ScoringOrder[i])[j].pattern, code) == 0
    ensures DetectLanguage(code, None, matches, table) == Detection(Python, 0.0)
  {
    var sc := Scores(code, matches, table);
    forall i | 0 <= i < |ScoringOrder|
      ensures sc[i] == 0
    {
      ScoreZeroIffNoMatch(table(ScoringOrder[i]), code, matches);
    }
  }
}
