/** The main backend's decision logic: the pattern scan of a text, the
    verdict and the roast fallback of `/analyze`, the bearer-token and
    admin guards, the signup checks, and the repository scan.

    The SQL f-string regular expression is a predicate parameter; JWT
    decoding, the user table, the LLM call, git and the file system are
    inputs; a random roast is represented by the key of the list it is
    drawn from. */
module BackendApp {
  import opened Wrappers
  import opened Strings
  import opened Seqs

  /** The static patterns, in the order they are reported. */
  const MaliciousPatterns: seq<string> := [
    "eval(", "exec(", "__import__", "os.system", "subprocess",
    "rm -rf", "DROP TABLE", "DELETE FROM", "<script>alert",
    "document.cookie", "base64.b64decode", "pickle.loads"]

  /** The label appended when the SQL f-string expression matches. */
  const SqlFStringLabel: string := "Direct SQL F-String Interpolation"

  /** The keys of the roast table, in table order. */
  const RoastKeys: seq<string> := ["eval", "exec", "sql_injection", "rm -rf", "<script>", "default"]
  const DefaultRoast: string := "default"
  const SqlRoast: string := "sql_injection"

  // ---------------------------------------------------------------------
  // The pattern scan.

  /** `p.lower() in text.lower()`. */
  predicate MatchesIgnoringCase(text: string, p: string) {
    Contains(Lower(text), Lower(p))
  }

  /** The patterns that occur in `text`, case aside, in list order. */
  function StaticMatches(patterns: seq<string>, text: string): (r: seq<string>)
    ensures |r| <= |patterns|
    ensures forall i | 0 <= i < |r| :: r[i] in patterns && MatchesIgnoringCase(text, r[i])
    ensures forall i | 0 <= i < |patterns| && MatchesIgnoringCase(text, patterns[i]) :: patterns[i] in r
    ensures |r| == 0 <==> forall i | 0 <= i < |patterns| :: !MatchesIgnoringCase(text, patterns[i])
  {
    if |patterns| == 0 then []
    else
      var rest := StaticMatches(patterns[1..], text);
      assert forall i | 1 <= i < |patterns| :: patterns[i] == patterns[1..][i - 1];
      if MatchesIgnoringCase(text, patterns[0]) then [patterns[0]] + rest else rest
  }

  /** The scan keeps list order: scanning two lists in turn is scanning
      them joined. */
  lemma {:induction false} StaticMatchesAppend(a: seq<string>, b: seq<string>, text: string)
    ensures StaticMatches(a + b, text) == StaticMatches(a, text) + StaticMatches(b, text)
  {
    if |a| > 0 {
      assert (a + b)[1..] == a[1..] + b;
      StaticMatchesAppend(a[1..], b, text);
    } else {
      assert a + b == b;
    }
  }

  /** The first match is the first pattern of the list that matches. */
  lemma {:induction false} FirstStaticMatch(patterns: seq<string>, text: string)
    requires |StaticMatches(patterns, text)| > 0
    ensures exists k | 0 <= k < |patterns| ::
      && patterns[k] == StaticMatches(patterns, text)[0]
      && MatchesIgnoringCase(text, patterns[k])
      && forall j | 0 <= j < k :: !MatchesIgnoringCase(text, patterns[j])
  {
    if !MatchesIgnoringCase(text, patterns[0]) {
      FirstStaticMatch(patterns[1..], text);
      var k :|
        && 0 <= k < |patterns[1..]|
        && patterns[1..][k] == StaticMatches(patterns[1..], text)[0]
        && MatchesIgnoringCase(text, patterns[1..][k])
        && forall j | 0 <= j < k :: !MatchesIgnoringCase(text, patterns[1..][j]);
      assert patterns[k + 1] == patterns[1..][k];
      forall j | 0 <= j < k + 1
        ensures !MatchesIgnoringCase(text, patterns[j])
      {
        if j > 0 {
          assert patterns[j] == patterns[1..][j - 1];
        }
      }
    }
  }

  /** `scan_file_content` (the second, active definition) over a pattern
      list: the static matches, then the SQL f-string label once if that
      expression matches the original text. */
  function ScanWith(patterns: seq<string>, content: string, sqlFString: string -> bool): (r: seq<string>)
    ensures |r| == |StaticMatches(patterns, content)| + (if sqlFString(content) then 1 else 0)
    ensures r[..|StaticMatches(patterns, content)|] == StaticMatches(patterns, content)
    ensures sqlFString(content) ==> r[|r| - 1] == SqlFStringLabel
    ensures |r| == 0 <==> !sqlFString(content) && forall i | 0 <= i < |patterns| :: !MatchesIgnoringCase(content, patterns[i])
  {
    var found := StaticMatches(patterns, content);
    var r := if sqlFString(content) then found + [SqlFStringLabel] else found;
    assert r[..|found|] == found;
    r
  }

  /** The scan with the backend's own pattern list. */
  function ScanFileContent(content: string, sqlFString: string -> bool): seq<string> {
    ScanWith(MaliciousPatterns, content, sqlFString)
  }

  // ---------------------------------------------------------------------
  // The roast fallback.

  /** The first key of `keys` that occurs in `s`. */
  function FirstContained(keys: seq<string>, s: string): (r: Option<string>)
    ensures r.None? <==> forall i | 0 <= i < |keys| :: !Contains(s, keys[i])
    ensures r.Some? ==> exists k | 0 <= k < |keys| ::
      && keys[k] == r.value && Contains(s, keys[k])
      && forall j | 0 <= j < k :: !Contains(s, keys[j])
  {
    if |keys| == 0 then None
    else if Contains(s, keys[0]) then Some(keys[0])
    else
      var r := FirstContained(keys[1..], s);
      assert forall i | 1 <= i < |keys| :: keys[i] == keys[1..][i - 1];
      assert r.Some? ==> exists k | 1 <= k < |keys| ::
        && keys[k] == r.value && Contains(s, keys[k])
        && forall j | 1 <= j < k :: !Contains(s, keys[j]);
      r
  }

  /** The roast list chosen for the first pattern when the LLM gives
      nothing: SQL if it names `SQL`, `DROP` or `DELETE` (case-sensitive);
      else the first table key it contains, provided some key other than
      `default` does; else the default list. */
  function RoastKey(first: string): (key: string)
    ensures Contains(first, "SQL") || Contains(first, "DROP") || Contains(first, "DELETE") ==> key == SqlRoast
    ensures key in RoastKeys
    ensures key == DefaultRoast <==>
      && !(Contains(first, "SQL") || Contains(first, "DROP") || Contains(first, "DELETE"))
      && forall i | 0 <= i < |RoastKeys| && RoastKeys[i] != DefaultRoast :: !Contains(first, RoastKeys[i])
    ensures key != DefaultRoast && key != SqlRoast ==> Contains(first, key)
    ensures !(Contains(first, "SQL") || Contains(first, "DROP") || Contains(first, "DELETE")) ==>
      key == FirstContained(RoastKeys, first).GetOr(DefaultRoast)
    ensures key == SqlRoast ==>
      Contains(first, "SQL") || Contains(first, "DROP") || Contains(first, "DELETE") || FirstContained(RoastKeys, first) == Some(SqlRoast)
  {
    if Contains(first, "SQL") || Contains(first, "DROP") || Contains(first, "DELETE") then SqlRoast
    else if exists i | 0 <= i < |RoastKeys| && RoastKeys[i] != DefaultRoast :: Contains(first, RoastKeys[i]) then
      var found := FirstContained(RoastKeys, first);
      assert forall i | 0 <= i < 5 :: RoastKeys[i] != DefaultRoast;
      assert RoastKeys[5] == DefaultRoast;
      found.GetOr(DefaultRoast)
    else DefaultRoast
  }

  /** The reason reported by `/analyze`. */
  datatype Reason =
    | PatternsFound(patterns: seq<string>)
    | NothingFound
    | LlmRoast(text: string)
    | StaticRoast(key: string)
    | CleanRoast

  datatype Risk = Critical | Low

  datatype AnalyzeResponse =
    | NoCode
    | Verdict(malicious: bool, reason: Reason, confidence: real, risk: Risk)

  /** `/analyze`: empty code is refused; otherwise the code is malicious
      iff a pattern was found, with confidence 0.95 and risk CRITICAL, or
      0.99 and LOW when clean. In roast mode a non-empty LLM answer
      replaces the reason; without one, a malicious result gets a roast
      from the list of its first pattern and a clean one a clean-code
      roast. */
  function AnalyzeCode(code: string, roastMode: bool, llm: Option<string>, sqlFString: string -> bool): (r: AnalyzeResponse)
    ensures code == "" <==> r == NoCode
    ensures r.Verdict? ==>
      && (r.malicious <==> |ScanFileContent(code, sqlFString)| > 0)
      && (r.malicious ==> r.confidence == 0.95 && r.risk == Critical)
      && (!r.malicious ==> r.confidence == 0.99 && r.risk == Low)
    ensures r.Verdict? && !roastMode ==>
      r.reason == if r.malicious then PatternsFound(ScanFileContent(code, sqlFString)) else NothingFound
    ensures r.Verdict? && roastMode && llm.Some? && llm.value != "" ==> r.reason == LlmRoast(llm.value)
    ensures r.Verdict? && roastMode && r.malicious && (llm.None? || llm.value == "") ==>
      r.reason == StaticRoast(RoastKey(ScanFileContent(code, sqlFString)[0]))
    ensures r.Verdict? && roastMode && !r.malicious && (llm.None? || llm.value == "") ==> r.reason == CleanRoast
  {
    if code == "" then NoCode
    else
      var patterns := ScanFileContent(code, sqlFString);
      var malicious := |patterns| > 0;
      var reason :=
        if !roastMode then (if malicious then PatternsFound(patterns) else NothingFound)
        else if llm.Some? && llm.value != "" then LlmRoast(llm.value)
        else if malicious then StaticRoast(RoastKey(patterns[0]))
        else CleanRoast;
      Verdict(malicious, reason, if malicious then 0.95 else 0.99, if malicious then Critical else Low)
  }

  /** The roast list of some static patterns: `eval(` and `exec(` their
      own, a SQL statement the SQL list, `rm -rf` its own. */
  lemma RoastKeysOfPatterns()
    ensures RoastKey("eval(") == "eval"
    ensures RoastKey("exec(") == "exec"
    ensures RoastKey("DROP TABLE") == SqlRoast
    ensures RoastKey("rm -rf") == "rm -rf"
  {
    RoastKeyEval();
    RoastKeyExec();
    Occurs("DROP TABLE", "DROP", 0);
    RoastKeyRm();
  }

  lemma RoastKeyEval()
    ensures RoastKey("eval(") == "eval"
  {
    NoSqlWords("eval(");
    Occurs("eval(", "eval", 0);
  }

  lemma RoastKeyExec()
    ensures RoastKey("exec(") == "exec"
  {
    NoSqlWords("exec(");
    NotContainsMissingChar("exec(", "eval", 1);
    Occurs("exec(", "exec", 0);
    assert FirstContained(RoastKeys, "exec(") == FirstContained(RoastKeys[1..], "exec(");
  }

  lemma RoastKeyRm()
    ensures RoastKey("rm -rf") == "rm -rf"
  {
    var s := "rm -rf";
    NoSqlWords(s);
    NotContainsMissingChar(s, "eval", 0);
    NotContainsMissingChar(s, "exec", 0);
    NotContainsMissingChar(s, "sql_injection", 0);
    Occurs(s, "rm -rf", 0);
    FirstContainedSkips(s, 3);
    assert RoastKeys[3..][0] == "rm -rf";
  }

  /** Keys that do not occur are passed over. */
  lemma {:induction false} FirstContainedSkips(s: string, n: nat)
    requires n <= |RoastKeys|
    requires forall i | 0 <= i < n :: !Contains(s, RoastKeys[i])
    ensures FirstContained(RoastKeys, s) == FirstContained(RoastKeys[n..], s)
  {
    var i := 0;
    while i < n
      invariant i <= n
      invariant FirstContained(RoastKeys, s) == FirstContained(RoastKeys[i..], s)
    {
      assert RoastKeys[i..][1..] == RoastKeys[i + 1..];
      i := i + 1;
    }
  }

  /** Text with neither `S` nor `D` names none of the SQL words. */
  lemma NoSqlWords(s: string)
    requires 'S' !in s && 'D' !in s
    ensures !(Contains(s, "SQL") || Contains(s, "DROP") || Contains(s, "DELETE"))
  {
    NotContainsMissingChar(s, "SQL", 0);
    NotContainsMissingChar(s, "DROP", 0);
    NotContainsMissingChar(s, "DELETE", 0);
  }

  lemma Occurs(s: string, sub: string, i: nat)
    requires OccursAt(s, sub, i)
    ensures Contains(s, sub)
  {
    ContainsOccurs(s, sub);
  }

  // ---------------------------------------------------------------------
  // Authentication guards.

  /** The token of an `Authorization` header: the second space-separated
      field of a header starting with `Bearer `, that is, the text after
      `Bearer ` up to the next space or the end; none otherwise. */
  function BearerToken(header: string): (t: Option<string>)
    ensures !StartsWith(header, "Bearer ") ==> t.None?
    ensures StartsWith(header, "Bearer ") ==>
      && t.Some? && t.value <= header[7..]
      && (7 + |t.value| == |header| || header[7 + |t.value|] == ' ')
    ensures t.Some? ==> ' ' !in t.value
  {
    if StartsWith(header, "Bearer ") then
      var fields := Split(header, ' ');
      assert header == "Bearer" + [' '] + header[7..];
      SplitAround("Bearer", header[7..], ' ');
      SplitNoSeparator("Bearer", ' ');
      SplitHead(header[7..], ' ');
      Some(fields[1])
    else None
  }

  /** `Bearer <t>` yields `t` when `t` has no space. */
  lemma BearerRoundTrip(t: string)
    requires ' ' !in t
    ensures BearerToken("Bearer " + t) == Some(t)
  {
    var header := "Bearer " + t;
    assert header[..7] == "Bearer ";
    assert header == "Bearer" + [' '] + t;
    SplitAround("Bearer", t, ' ');
    SplitNoSeparator("Bearer", ' ');
    SplitNoSeparator(t, ' ');
  }

  /** What decoding a token gives: an expired or otherwise invalid token,
      or the user id it carries. */
  datatype Decoded = Expired | InvalidToken | UserId(id: int)

  datatype User = User(id: int, name: string, email: string, isAdmin: bool)

  datatype AuthError = TokenRequired | UserNotFound | TokenExpired | TokenInvalid | AdminRequired

  function AuthStatus(e: AuthError): nat {
    if e == AdminRequired then 403 else 401
  }

  /** `token_required`: no token (no bearer header, or an empty second
      field) is refused before decoding; then an expired or invalid token,
      then a user id with no user. */
  function TokenRequiredGuard(header: string, decode: string -> Decoded, users: map<int, User>): (r: Result)
    ensures BearerToken(header).None? || BearerToken(header).value == "" ==> r == Denied(TokenRequired)
    ensures r.Granted? <==>
      && BearerToken(header).Some? && BearerToken(header).value != ""
      && decode(BearerToken(header).value).UserId?
      && decode(BearerToken(header).value).id in users
    ensures r.Granted? ==> r.user == users[decode(BearerToken(header).value).id]
    ensures r.Denied? ==> AuthStatus(r.error) == 401
  {
    var token := BearerToken(header);
    if token.None? || token.value == "" then Denied(TokenRequired)
    else match decode(token.value)
      case Expired => Denied(TokenExpired)
      case InvalidToken => Denied(TokenInvalid)
      case UserId(id) => if id in users then Granted(users[id]) else Denied(UserNotFound)
  }

  datatype Result = Denied(error: AuthError) | Granted(user: User)

  /** `admin_required`: the same checks, then a known user who is not an
      admin is refused with 403. */
  function AdminRequiredGuard(header: string, decode: string -> Decoded, users: map<int, User>): (r: Result)
    ensures r.Granted? ==> r.user.isAdmin
    ensures r.Granted? <==> TokenRequiredGuard(header, decode, users).Granted? && TokenRequiredGuard(header, decode, users).user.isAdmin
    ensures r == Denied(AdminRequired) <==> TokenRequiredGuard(header, decode, users).Granted? && !TokenRequiredGuard(header, decode, users).user.isAdmin
    ensures TokenRequiredGuard(header, decode, users).Denied? ==> r == TokenRequiredGuard(header, decode, users)
  {
    var base := TokenRequiredGuard(header, decode, users);
    if base.Granted? && !base.user.isAdmin then Denied(AdminRequired) else base
  }

  // ---------------------------------------------------------------------
  // Signup.

  datatype SignupError = FieldsRequired | PasswordTooShort | EmailTaken

  datatype SignupResult = SignupRefused(error: SignupError) | SignedUp(name: string, email: string)

  function SignupStatus(r: SignupResult): nat {
    match r
    case SignedUp(_, _) => 201
    case SignupRefused(e) => if e == EmailTaken then 409 else 400
  }

  /** The minimum password length. */
  const MinPassword: nat := 6

  /** `signup`: the name is trimmed and the email trimmed and lower-cased
      first; then, in order, a missing field (400), a password under six
      characters (400) and a registered email (409) refuse it. The
      password itself is not trimmed. */
  function Signup(name: string, email: string, password: string, registered: set<string>): (r: SignupResult)
    ensures Trim(name) == "" || Lower(Trim(email)) == "" || password == "" ==> r == SignupRefused(FieldsRequired)
    ensures r.SignedUp? <==>
      && Trim(name) != "" && Lower(Trim(email)) != "" && |password| >= MinPassword
      && Lower(Trim(email)) !in registered
    ensures r.SignedUp? ==> r.name == Trim(name) && r.email == Lower(Trim(email))
    ensures Trim(name) != "" && Lower(Trim(email)) != "" && 0 < |password| < MinPassword ==>
      r == SignupRefused(PasswordTooShort)
    ensures Trim(name) != "" && Lower(Trim(email)) != "" && |password| >= MinPassword && Lower(Trim(email)) in registered ==>
      r == SignupRefused(EmailTaken)
    ensures Trim(name) != "" && Lower(Trim(email)) != "" && |password| >= MinPassword && Lower(Trim(email)) !in registered ==>
      r == SignedUp(Trim(name), Lower(Trim(email)))
  {
    var n := Trim(name);
    var e := Lower(Trim(email));
    if n == "" || e == "" || password == "" then SignupRefused(FieldsRequired)
    else if |password| < MinPassword then SignupRefused(PasswordTooShort)
    else if e in registered then SignupRefused(EmailTaken)
    else SignedUp(n, e)
  }

  /** A registered email with a short password is refused for the
      password, not the email: the length check comes first. */
  lemma ShortPasswordReportedBeforeTakenEmail(name: string, email: string, password: string, registered: set<string>)
    requires Trim(name) != "" && Lower(Trim(email)) != "" && Lower(Trim(email)) in registered
    requires 0 < |password| < MinPassword
    ensures Signup(name, email, password, registered) == SignupRefused(PasswordTooShort)
  {
  }

  // ---------------------------------------------------------------------
  // The repository scan.

  /** One file met by the walk of the clone: the walked directory (an
      absolute path under the clone), the file name, its path relative to
      the clone, and its text (none when it cannot be read). */
  datatype RepoFile = RepoFile(root: string, name: string, relPath: string, content: Option<string>)

  /** Files in a directory whose path contains `.git` anywhere (so also
      `.github`), and files whose name starts with a dot, are skipped. */
  predicate Skipped(f: RepoFile) {
    Contains(f.root, ".git") || StartsWith(f.name, ".")
  }

  /** A file whose scan is reported: not skipped, readable, and with at
      least one match. */
  predicate Reported(f: RepoFile, patterns: seq<string>, sqlFString: string -> bool) {
    !Skipped(f) && f.content.Some? && |ScanWith(patterns, f.content.value, sqlFString)| > 0
  }

  /** A file's entry: its relative path and its matches. */
  function Report(f: RepoFile, patterns: seq<string>, sqlFString: string -> bool): (string, seq<string>) {
    (f.relPath, ScanWith(patterns, f.content.GetOr(""), sqlFString))
  }

  /** The entries of the result, in walk order: one per reported file
      (see `RepoResultsSound`, `RepoResultsComplete`). */
  function RepoResults(files: seq<RepoFile>, patterns: seq<string>, sqlFString: string -> bool): (r: seq<(string, seq<string>)>)
    ensures |r| <= |files|
  {
    Map(f => Report(f, patterns, sqlFString), Filter(f => Reported(f, patterns, sqlFString), files))
  }

  /** Every entry is the report of a file that matched, so it lists at
      least one match. */
  lemma RepoResultsSound(files: seq<RepoFile>, patterns: seq<string>, sqlFString: string -> bool, i: nat)
    requires i < |RepoResults(files, patterns, sqlFString)|
    ensures exists k | 0 <= k < |files| ::
      Reported(files[k], patterns, sqlFString) && RepoResults(files, patterns, sqlFString)[i] == Report(files[k], patterns, sqlFString)
    ensures |RepoResults(files, patterns, sqlFString)[i].1| > 0
  {
    var kept := Filter(f => Reported(f, patterns, sqlFString), files);
    assert kept[i] in files;
    var k :| 0 <= k < |files| && files[k] == kept[i];
  }

  /** Every file that matched has its entry. */
  lemma RepoResultsComplete(files: seq<RepoFile>, patterns: seq<string>, sqlFString: string -> bool, k: nat)
    requires k < |files| && Reported(files[k], patterns, sqlFString)
    ensures Report(files[k], patterns, sqlFString) in RepoResults(files, patterns, sqlFString)
  {
    var kept := Filter(f => Reported(f, patterns, sqlFString), files);
    assert files[k] in kept;
    var j :| 0 <= j < |kept| && kept[j] == files[k];
    assert RepoResults(files, patterns, sqlFString)[j] == Report(files[k], patterns, sqlFString);
  }

  /** The result is empty iff no file matched. */
  lemma RepoResultsEmpty(files: seq<RepoFile>, patterns: seq<string>, sqlFString: string -> bool)
    ensures |RepoResults(files, patterns, sqlFString)| == 0 <==>
      forall k | 0 <= k < |files| :: !Reported(files[k], patterns, sqlFString)
  {
    if |RepoResults(files, patterns, sqlFString)| > 0 {
      RepoResultsSound(files, patterns, sqlFString, 0);
    }
    forall k | 0 <= k < |files| && Reported(files[k], patterns, sqlFString)
      ensures |RepoResults(files, patterns, sqlFString)| > 0
    {
      RepoResultsComplete(files, patterns, sqlFString, k);
    }
  }

  datatype RepoResponse =
    | NoRepoUrl
    | CloneFailed
    | RepoVerdict(malicious: bool, results: seq<(string, seq<string>)>, highRisk: bool)

  /** `scan_repo`: a missing URL is refused (400), a failed clone is a
      500, otherwise the verdict lists the report of every matching file
      in walk order, and the repository is malicious and high risk iff
      some scanned file matched. */
  function ScanRepo(repoUrl: Option<string>, walk: Option<seq<RepoFile>>, sqlFString: string -> bool): (r: RepoResponse)
    ensures repoUrl.None? || repoUrl.value == "" ==> r == NoRepoUrl
    ensures repoUrl.Some? && repoUrl.value != "" && walk.None? ==> r == CloneFailed
    ensures repoUrl.Some? && repoUrl.value != "" && walk.Some? ==>
      r.RepoVerdict? && r.results == RepoResults(walk.value, MaliciousPatterns, sqlFString)
    ensures r.RepoVerdict? ==>
      && r.highRisk == r.malicious
      && (r.malicious <==> exists k | 0 <= k < |walk.value| :: Reported(walk.value[k], MaliciousPatterns, sqlFString))
  {
    if repoUrl.None? || repoUrl.value == "" then NoRepoUrl
    else if walk.None? then CloneFailed
    else
      var results := RepoResults(walk.value, MaliciousPatterns, sqlFString);
      RepoResultsEmpty(walk.value, MaliciousPatterns, sqlFString);
      RepoVerdict(|results| > 0, results, |results| > 0)
  }

  /** Anything under a `.github` directory is never scanned. */
  lemma GithubDirectoryIsSkipped(prefix: string, suffix: string, name: string, relPath: string, content: Option<string>)
    ensures Skipped(RepoFile(prefix + ".github" + suffix, name, relPath, content))
  {
    var root := prefix + ".github" + suffix;
    assert root[|prefix|..|prefix| + 4] == ".git";
    assert OccursAt(root, ".git", |prefix|);
    ContainsOccurs(root, ".git");
  }
}
