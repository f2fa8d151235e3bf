/** lib/rules/no-packagejson-import.js: imports of package.json, which break
    NativeScript ESM bundles, and reads of `.version` from such an import.

    `Check` routes on the file extension, scans the text line by line for five
    import forms (skipping comment lines), then scans the whole text for
    version reads and reports each on a line no earlier issue is on.
    `CheckBundle` counts literal package.json references in built output. */
module PackageJsonImport {
  import opened Wrappers
  import opened Text
  import opened Decimal
  import opened Issues
  import opened Oracle

  /** The (lower-cased) extensions the rule looks at. */
  const SourceExtensions: seq<string> := [".ts", ".js", ".tsx", ".jsx", ".mjs", ".cjs"]

  /** The (lower-cased) receivers of `.version` taken to be a package.json import. */
  const VersionReceivers: seq<string> := ["package", "pkg", "packagejson", "packageinfo", "appinfo"]

  predicate IsSourcePath(filePath: string)
  {
    Lower(Extname(filePath)) in SourceExtensions
  }

  /** A line whose trimmed text starts like a comment. */
  predicate IsCommentLine(line: string)
  {
    var t := Trim(line);
    StartsWith(t, "//") || StartsWith(t, "*") || StartsWith(t, "/*")
  }

  /** `content.split('\n')`. */
  function Lines(content: string): seq<string>
  {
    Split(content, '\n')
  }

  /** The severity each rule of this file reports with; None for rules this
      file does not report. */
  function ExpectedSeverity(rule: RuleId): Option<Severity>
  {
    if rule == NoPackageJsonImport || rule == NoPackageJsonDynamicImport then Some(High)
    else if rule == NoPackageJsonRequire then Some(Warn)
    else if rule == PackageJsonVersionAccess then Some(Info)
    else None
  }

  /** The five import forms looked for on each line, in scan order. */
  datatype ImportForm = StarForm | DefaultForm | NamedForm | RequireForm | DynamicForm {

    function Regex(): Pattern
    {
      match this
      case StarForm => ImportStar
      case DefaultForm => ImportDefault
      case NamedForm => ImportNamed
      case RequireForm => RequireCall
      case DynamicForm => DynamicImportCall
    }

    function Rule(): RuleId
    {
      match this
      case RequireForm => NoPackageJsonRequire
      case DynamicForm => NoPackageJsonDynamicImport
      case _ => NoPackageJsonImport
    }

    function Level(): Severity
    {
      if RequireForm? then Warn else High
    }

    /** The capture group holding the imported path. */
    function PathGroup(): nat
    {
      if StarForm? || DefaultForm? then 2 else 1
    }

    function Message(path: string): string
    {
      Opening() + path + Closing()
    }

    /** The message text before the imported path ... */
    function Opening(): string
    {
      match this
      case StarForm => ImportOpening
      case DefaultForm => ImportOpening
      case NamedForm => NamedOpening
      case RequireForm => RequireOpening
      case DynamicForm => DynamicOpening
    }

    /** ... and after it. */
    function Closing(): string
    {
      match this
      case StarForm => StarClosing
      case DefaultForm => DefaultClosing
      case NamedForm => DefaultClosing
      case RequireForm => RequireClosing
      case DynamicForm => DynamicClosing
    }
  }

  const ImportOpening := "Import of '"
  const NamedOpening := "Named import from '"
  const RequireOpening := "require('"
  const DynamicOpening := "Dynamic import of '"
  const StarClosing := "' will fail in NativeScript ESM bundles. Use build-time constants instead."
  const DefaultClosing := "' will fail in NativeScript ESM bundles."
  const RequireClosing := "') may fail in ESM bundles. Consider build-time constants."
  const DynamicClosing := "' will fail in NativeScript bundles."

  /** The issue for one match of `form` on line `lineNum`, at the match's
      1-based column, naming the captured path. */
  function FormNote(form: ImportForm, m: Match, lineNum: nat): (x: Issue)
    ensures x.rule == form.Rule() && x.severity == form.Level()
    ensures x.column == Some(m.index + 1) && LineIssueOn(x, lineNum)
  {
    Issue(form.Level(), form.Rule(), form.Message(Capture(m, form.PathGroup())),
          Some(lineNum), Some(m.index + 1), None)
  }

  /** `note` applied to each entry of `xs`, in order. */
  function Each<T>(xs: seq<T>, note: T -> Issue): (r: seq<Issue>)
    ensures |r| == |xs| && forall i | 0 <= i < |xs| :: r[i] == note(xs[i])
  {
    seq(|xs|, i requires 0 <= i < |xs| => note(xs[i]))
  }

  /** An issue is among the notes exactly when it is the note of an entry. */
  lemma EachMember<T>(xs: seq<T>, note: T -> Issue, x: Issue)
    ensures x in Each(xs, note) <==> exists a | a in xs :: x == note(a)
  {
    if x in Each(xs, note) {
      var i :| 0 <= i < |xs| && Each(xs, note)[i] == x;
      assert xs[i] in xs;
    }
    if exists a | a in xs :: x == note(a) {
      var a :| a in xs && x == note(a);
      var i :| 0 <= i < |xs| && xs[i] == a;
      assert Each(xs, note)[i] == x;
    }
  }

  /** The issue of each match of `form` on line `lineNum`. */
  function FormNoter(form: ImportForm, lineNum: nat): Match -> Issue
  {
    m => FormNote(form, m, lineNum)
  }

  /** One issue per match of `form` on line `lineNum`, in match order. */
  function FormIssues(form: ImportForm, ms: seq<Match>, lineNum: nat): (r: seq<Issue>)
    ensures |r| == |ms|
    ensures forall i | 0 <= i < |r| :: r[i].column == Some(ms[i].index + 1)
    ensures forall x | x in r :: x.rule == form.Rule() && x.severity == form.Level() && LineIssueOn(x, lineNum)
  {
    Each(ms, FormNoter(form, lineNum))
  }

  /** Well-formed per-line issue: positioned on `lineNum` at a column >= 1,
      with a severity matching its rule. */
  predicate LineIssueOn(x: Issue, lineNum: nat)
  {
    && x.line == Some(lineNum)
    && x.column.Some? && x.column.value >= 1
    && x.rule != PackageJsonVersionAccess
    && ExpectedSeverity(x.rule) == Some(x.severity)
  }

  /** The issues of one line: none on a comment line, else the matches of the
      five forms, star imports first. */
  function LineIssues(re: Engine, line: string, lineNum: nat): (r: seq<Issue>)
    ensures IsCommentLine(line) ==> r == []
    ensures !IsCommentLine(line) ==>
      |r| == |re(ImportStar, line)| + |re(ImportDefault, line)| + |re(ImportNamed, line)|
             + |re(RequireCall, line)| + |re(DynamicImportCall, line)|
    ensures forall x | x in r :: LineIssueOn(x, lineNum)
  {
    if IsCommentLine(line) then []
    else
      var r := FormIssues(StarForm, re(ImportStar, line), lineNum)
             + FormIssues(DefaultForm, re(ImportDefault, line), lineNum)
             + FormIssues(NamedForm, re(ImportNamed, line), lineNum)
             + FormIssues(RequireForm, re(RequireCall, line), lineNum)
             + FormIssues(DynamicForm, re(DynamicImportCall, line), lineNum);
      r
  }

  /** The issues `per` gives each of the lines `k..`, numbered from 1, in line
      order. */
  function Gather(lines: seq<string>, k: nat, per: (string, nat) -> seq<Issue>): seq<Issue>
    decreases |lines| - k
  {
    if k >= |lines| then [] else per(lines[k], k + 1) + Gather(lines, k + 1, per)
  }

  /** When `per` numbers every issue with its line, the gathered issues are
      exactly those each line yields. */
  lemma {:induction false} GatherHas(lines: seq<string>, k: nat, per: (string, nat) -> seq<Issue>, x: Issue)
    requires forall line: string, n: nat, y | y in per(line, n) :: y.line == Some(n)
    ensures x in Gather(lines, k, per) <==>
      x.line.Some? && k < x.line.value <= |lines| && x in per(lines[x.line.value - 1], x.line.value)
    decreases |lines| - k
  {
    if k < |lines| {
      GatherHas(lines, k + 1, per, x);
    }
  }

  /** The issues of `xs` numbered with line `n`, in order. */
  function OnLine(xs: seq<Issue>, n: nat): seq<Issue>
  {
    if xs == [] then [] else (if xs[0].line == Some(n) then [xs[0]] else []) + OnLine(xs[1..], n)
  }

  lemma {:induction false} OnLineAppend(a: seq<Issue>, b: seq<Issue>, n: nat)
    ensures OnLine(a + b, n) == OnLine(a, n) + OnLine(b, n)
  {
    if a == [] {
      assert a + b == b;
    } else {
      assert (a + b)[1..] == a[1..] + b;
      OnLineAppend(a[1..], b, n);
    }
  }

  /** Issues all numbered `m` are all kept when `n` is `m`, and none otherwise. */
  lemma {:induction false} OnLineUniform(xs: seq<Issue>, m: nat, n: nat)
    requires forall y | y in xs :: y.line == Some(m)
    ensures OnLine(xs, n) == if n == m then xs else []
  {
    if xs != [] {
      assert xs[0] in xs;
      assert forall y | y in xs[1..] :: y in xs;
      OnLineUniform(xs[1..], m, n);
      assert [xs[0]] + xs[1..] == xs;
    }
  }

  /** Read line by line, the gathered issues are, for each line of the file,
      exactly that line's issues in their own order, and nothing for any
      other number. */
  lemma {:induction false} GatherByLine(lines: seq<string>, k: nat, per: (string, nat) -> seq<Issue>, n: nat)
    requires forall line: string, l: nat, y | y in per(line, l) :: y.line == Some(l)
    ensures OnLine(Gather(lines, k, per), n) == if k < n <= |lines| then per(lines[n - 1], n) else []
    decreases |lines| - k
  {
    if k < |lines| {
      OnLineAppend(per(lines[k], k + 1), Gather(lines, k + 1, per), n);
      OnLineUniform(per(lines[k], k + 1), k + 1, n);
      GatherByLine(lines, k + 1, per, n);
    }
  }

  /** Line numbers never decrease along `xs`. */
  predicate LinesInOrder(xs: seq<Issue>)
  {
    forall i, j | 0 <= i < j < |xs| && xs[i].line.Some? && xs[j].line.Some? :: xs[i].line.value <= xs[j].line.value
  }

  /** The gathered issues come line by line: their numbers never decrease. */
  lemma {:induction false} GatherInOrder(lines: seq<string>, k: nat, per: (string, nat) -> seq<Issue>)
    requires forall line: string, l: nat, y | y in per(line, l) :: y.line == Some(l)
    ensures LinesInOrder(Gather(lines, k, per))
    decreases |lines| - k
  {
    if k < |lines| {
      var h := per(lines[k], k + 1);
      var t := Gather(lines, k + 1, per);
      GatherInOrder(lines, k + 1, per);
      forall j | 0 <= j < |t|
        ensures t[j].line.Some? && t[j].line.value > k + 1
      {
        GatherHas(lines, k + 1, per, t[j]);
      }
      var g := h + t;
      assert g == Gather(lines, k, per);
      forall i, j | 0 <= i < j < |g| && g[i].line.Some? && g[j].line.Some?
        ensures g[i].line.value <= g[j].line.value
      {
        if j < |h| {
          assert g[i] == h[i] && h[i] in h && g[j] == h[j] && h[j] in h;
        } else if i < |h| {
          assert g[i] == h[i] && h[i] in h && g[j] == t[j - |h|];
        } else {
          assert g[i] == t[i - |h|] && g[j] == t[j - |h|];
        }
      }
    }
  }

  /** The per-line issue function of the scan. */
  function LineScanner(re: Engine): (string, nat) -> seq<Issue>
  {
    (line: string, n: nat) => LineIssues(re, line, n)
  }

  lemma LineScannerOn(re: Engine)
    ensures forall line: string, n: nat, y | y in LineScanner(re)(line, n) :: y.line == Some(n)
  {
  }

  /** The issues of lines `k..` (line numbers are 1-based). Every issue sits on
      a line in range that is not a comment line. */
  function ScanLines(re: Engine, lines: seq<string>, k: nat): (r: seq<Issue>)
    ensures forall x | x in r ::
      && x.line.Some? && k < x.line.value <= |lines|
      && LineIssueOn(x, x.line.value)
      && !IsCommentLine(lines[x.line.value - 1])
  {
    var r := Gather(lines, k, LineScanner(re));
    assert forall x | x in r :: x.line.Some? && k < x.line.value <= |lines|
                                && x in LineIssues(re, lines[x.line.value - 1], x.line.value) by {
      forall x | x in r
        ensures x.line.Some? && k < x.line.value <= |lines| && x in LineIssues(re, lines[x.line.value - 1], x.line.value)
      {
        LineScannerOn(re);
        GatherHas(lines, k, LineScanner(re), x);
      }
    }
    r
  }

  /** The per-line scan, read line by line: each line of the file contributes
      exactly its own issues, once each and in their order, and the lines
      come in file order. */
  lemma ScanLinesByLine(re: Engine, lines: seq<string>, n: nat)
    ensures OnLine(ScanLines(re, lines, 0), n) == if 1 <= n <= |lines| then LineIssues(re, lines[n - 1], n) else []
    ensures LinesInOrder(ScanLines(re, lines, 0))
  {
    LineScannerOn(re);
    GatherByLine(lines, 0, LineScanner(re), n);
    GatherInOrder(lines, 0, LineScanner(re));
  }

  /** `x` is the issue of some match of `form` on `line`, numbered `lineNum`. */
  predicate FromForm(re: Engine, line: string, lineNum: nat, form: ImportForm, x: Issue)
  {
    exists m | m in re(form.Regex(), line) :: x == FormNote(form, m, lineNum)
  }

  /** `x` is the issue of some match of some import form on the non-comment
      line `line`, numbered `lineNum`. */
  predicate FromLine(re: Engine, line: string, lineNum: nat, x: Issue)
  {
    && !IsCommentLine(line)
    && (|| FromForm(re, line, lineNum, StarForm, x) || FromForm(re, line, lineNum, DefaultForm, x)
        || FromForm(re, line, lineNum, NamedForm, x) || FromForm(re, line, lineNum, RequireForm, x)
        || FromForm(re, line, lineNum, DynamicForm, x))
  }

  /** The issue of a form match on a non-comment line is one of that line's. */
  lemma MatchFromLine(re: Engine, line: string, lineNum: nat, form: ImportForm, m: Match)
    requires !IsCommentLine(line) && m in re(form.Regex(), line)
    ensures FromLine(re, line, lineNum, FormNote(form, m, lineNum))
  {
    assert FromForm(re, line, lineNum, form, FormNote(form, m, lineNum));
    match form
    case StarForm =>
    case DefaultForm =>
    case NamedForm =>
    case RequireForm =>
    case DynamicForm =>
  }

  /** An issue is among a form's issues on a line exactly when it is the issue
      of one of that form's matches there. */
  lemma FormIssuesMember(re: Engine, line: string, lineNum: nat, form: ImportForm, x: Issue)
    ensures x in FormIssues(form, re(form.Regex(), line), lineNum) <==> FromForm(re, line, lineNum, form, x)
  {
    EachMember(re(form.Regex(), line), FormNoter(form, lineNum), x);
  }

  /** The issues of a line are exactly the issues of the matches of the five
      forms on it, and none on a comment line. */
  lemma LineIssuesMember(re: Engine, line: string, lineNum: nat, x: Issue)
    ensures x in LineIssues(re, line, lineNum) <==> FromLine(re, line, lineNum, x)
  {
    if !IsCommentLine(line) {
      FormIssuesMember(re, line, lineNum, StarForm, x);
      FormIssuesMember(re, line, lineNum, DefaultForm, x);
      FormIssuesMember(re, line, lineNum, NamedForm, x);
      FormIssuesMember(re, line, lineNum, RequireForm, x);
      FormIssuesMember(re, line, lineNum, DynamicForm, x);
    }
  }

  /** The per-line scan of lines `k..` holds exactly the issues each of those
      lines yields, numbered by the line. */
  lemma ScanLinesHas(re: Engine, lines: seq<string>, k: nat, x: Issue)
    ensures x in ScanLines(re, lines, k) <==>
      x.line.Some? && k < x.line.value <= |lines| && x in LineIssues(re, lines[x.line.value - 1], x.line.value)
  {
    LineScannerOn(re);
    GatherHas(lines, k, LineScanner(re), x);
  }

  /** The per-line scan of lines `k..` reports exactly the issues of the form
      matches on those lines that are not comment lines, each numbered by its
      line: both every match is reported and every issue has its match. */
  lemma ScanLinesMember(re: Engine, lines: seq<string>, k: nat, x: Issue)
    ensures x in ScanLines(re, lines, k) <==>
      x.line.Some? && k < x.line.value <= |lines| && FromLine(re, lines[x.line.value - 1], x.line.value, x)
  {
    ScanLinesHas(re, lines, k, x);
    if x.line.Some? && k < x.line.value <= |lines| {
      LineIssuesMember(re, lines[x.line.value - 1], x.line.value, x);
    }
  }

  /** `content.substring(0, index).split('\n').length`: the 1-based line of
      a position, which is one more than the newlines before it. */
  function LineAt(content: string, index: nat): (l: nat)
    ensures l == CountChar(content[..Min(index, |content|)], '\n') + 1
    ensures 1 <= l <= |Lines(content)|
  {
    CountCharPrefix(content, '\n', Min(index, |content|));
    |Split(content[..Min(index, |content|)], '\n')|
  }

  /** The text gate before version reads are looked for. */
  predicate VersionGate(content: string)
  {
    Contains(content, ".version") && (Contains(content, "package") || Contains(content, "pkg"))
  }

  /** A `.version` read whose receiver names a package.json import. */
  predicate Qualifies(m: Match)
  {
    Lower(Capture(m, 1)) in VersionReceivers
  }

  /** Some issue of `issues` is on line `l`. */
  predicate Flagged(issues: seq<Issue>, l: nat)
  {
    exists x | x in issues :: x.line == Some(l)
  }

  const VersionMessage := "Accessing version from package.json variable. Ensure this is injected at build-time."

  function VersionIssue(l: nat): Issue
  {
    Issue(Info, PackageJsonVersionAccess, VersionMessage, Some(l), None, None)
  }

  /** Appends to `acc`, for each qualifying match in turn, a version issue on
      its line unless an issue already recorded is on that line. */
  function VersionScan(content: string, ms: seq<Match>, acc: seq<Issue>): (r: seq<Issue>)
    ensures |acc| <= |r| && r[..|acc|] == acc
    ensures forall x | x in r ::
      x in acc || (x.line.Some? && x == VersionIssue(x.line.value) && 1 <= x.line.value <= |Lines(content)|)
    ensures forall i | |acc| <= i < |r| :: r[i].line.Some? && r[i] == VersionIssue(r[i].line.value)
    decreases |ms|
  {
    if |ms| == 0 then acc
    else
      var l := LineAt(content, ms[0].index);
      var next := if Qualifies(ms[0]) && !Flagged(acc, l) then acc + [VersionIssue(l)] else acc;
      VersionScan(content, ms[1..], next)
  }

  /** Every issue of the rule is on a line that exists, with the severity of
      its rule; the per-line issues also have a column >= 1 and are never on a
      comment line. */
  predicate WellPlaced(x: Issue, lines: seq<string>)
  {
    && x.line.Some? && 1 <= x.line.value <= |lines|
    && ExpectedSeverity(x.rule) == Some(x.severity)
    && (x.rule != PackageJsonVersionAccess ==>
          x.column.Some? && x.column.value >= 1 && !IsCommentLine(lines[x.line.value - 1]))
  }

  lemma VersionIssuePlaced(l: nat, lines: seq<string>)
    requires 1 <= l <= |lines|
    ensures WellPlaced(VersionIssue(l), lines)
  {
  }

  /** Version issues appended to well-placed issues leave them well placed. */
  lemma VersionScanPlaced(content: string, ms: seq<Match>, acc: seq<Issue>)
    requires forall x | x in acc :: WellPlaced(x, Lines(content))
    ensures forall x | x in VersionScan(content, ms, acc) :: WellPlaced(x, Lines(content))
  {
    forall x | x in VersionScan(content, ms, acc)
      ensures WellPlaced(x, Lines(content))
    {
      if x !in acc {
        VersionIssuePlaced(x.line.value, Lines(content));
      }
    }
  }

  /** The rule's `check`. */
  function Check(re: Engine, content: string, filePath: string): (r: seq<Issue>)
    ensures !IsSourcePath(filePath) ==> r == []
    ensures forall x | x in r :: WellPlaced(x, Lines(content))
  {
    if !IsSourcePath(filePath) then []
    else
      var perLine := ScanLines(re, Lines(content), 0);
      assert forall x | x in perLine :: WellPlaced(x, Lines(content));
      if VersionGate(content) then
        var r := VersionScan(content, re(VersionAccess, content), perLine);
        VersionScanPlaced(content, re(VersionAccess, content), perLine);
        r
      else perLine
  }

  /** Every form match on a non-comment line is among the per-line issues. */
  lemma LineMatchScanned(re: Engine, lines: seq<string>, j: nat, form: ImportForm, m: Match)
    requires j < |lines| && !IsCommentLine(lines[j]) && m in re(form.Regex(), lines[j])
    ensures FormNote(form, m, j + 1) in ScanLines(re, lines, 0)
  {
    var x := FormNote(form, m, j + 1);
    MatchFromLine(re, lines[j], j + 1, form, m);
    ScanLinesMember(re, lines, 0, x);
  }

  /** For a source file, the rule's result starts with the per-line issues;
      the version scan only appends. */
  lemma CheckKeepsLines(re: Engine, content: string, filePath: string)
    requires IsSourcePath(filePath)
    ensures |ScanLines(re, Lines(content), 0)| <= |Check(re, content, filePath)|
    ensures Check(re, content, filePath)[..|ScanLines(re, Lines(content), 0)|] == ScanLines(re, Lines(content), 0)
  {
    var perLine := ScanLines(re, Lines(content), 0);
    if VersionGate(content) {
      assert Check(re, content, filePath) == VersionScan(content, re(VersionAccess, content), perLine);
    } else {
      assert Check(re, content, filePath) == perLine;
    }
  }

  /** The per-line issues of a source file all reach the rule's result. */
  lemma PerLineInCheck(re: Engine, content: string, filePath: string, x: Issue)
    requires IsSourcePath(filePath) && x in ScanLines(re, Lines(content), 0)
    ensures x in Check(re, content, filePath)
  {
    var perLine := ScanLines(re, Lines(content), 0);
    var r := Check(re, content, filePath);
    CheckKeepsLines(re, content, filePath);
    var i :| 0 <= i < |perLine| && perLine[i] == x;
    assert r[..|perLine|][i] == x;
  }

  /** Every match of an import form on a non-comment line of a source file
      is reported, on that line and at the match's 1-based column. */
  lemma ImportMatchReported(re: Engine, content: string, filePath: string, j: nat, form: ImportForm, m: Match)
    requires IsSourcePath(filePath) && j < |Lines(content)| && !IsCommentLine(Lines(content)[j])
    requires m in re(form.Regex(), Lines(content)[j])
    ensures FormNote(form, m, j + 1) in Check(re, content, filePath)
  {
    LineMatchScanned(re, Lines(content), j, form, m);
    PerLineInCheck(re, content, filePath, FormNote(form, m, j + 1));
  }

  /** Every issue of the rule other than a version read is the issue of an
      import-form match on its own line, which is not a comment line. */
  lemma ImportIssueFromMatch(re: Engine, content: string, filePath: string, x: Issue)
    requires x in Check(re, content, filePath) && x.rule != PackageJsonVersionAccess
    ensures x.line.Some? && 1 <= x.line.value <= |Lines(content)|
    ensures FromLine(re, Lines(content)[x.line.value - 1], x.line.value, x)
  {
    var perLine := ScanLines(re, Lines(content), 0);
    if VersionGate(content) {
      assert x in perLine || x.rule == PackageJsonVersionAccess;
    }
    ScanLinesMember(re, Lines(content), 0, x);
  }

  /** Issue `i` of `r` is on the line of a qualifying match of `ms`, and no
      issue before it is on that line. */
  predicate FreshVersionLine(content: string, ms: seq<Match>, r: seq<Issue>, i: nat)
    requires i < |r|
  {
    && r[i].line.Some?
    && (exists m | m in ms :: Qualifies(m) && r[i].line == Some(LineAt(content, m.index)))
    && !Flagged(r[..i], r[i].line.value)
  }

  /** Each version issue `VersionScan` adds comes from a qualifying match on
      its line, and no issue before it is on that line. */
  lemma {:induction false} VersionScanSound(content: string, ms: seq<Match>, acc: seq<Issue>)
    ensures forall i | |acc| <= i < |VersionScan(content, ms, acc)| ::
      FreshVersionLine(content, ms, VersionScan(content, ms, acc), i)
    decreases |ms|
  {
    if |ms| > 0 {
      var r := VersionScan(content, ms, acc);
      var l := LineAt(content, ms[0].index);
      var next := if Qualifies(ms[0]) && !Flagged(acc, l) then acc + [VersionIssue(l)] else acc;
      assert r == VersionScan(content, ms[1..], next);
      VersionScanSound(content, ms[1..], next);
      forall i | |acc| <= i < |r|
        ensures FreshVersionLine(content, ms, r, i)
      {
        if i < |next| {
          assert r[i] == next[i] == VersionIssue(l);
          assert r[..i] == acc;
          assert ms[0] in ms;
        } else {
          assert FreshVersionLine(content, ms[1..], r, i);
          var m :| m in ms[1..] && Qualifies(m) && r[i].line == Some(LineAt(content, m.index));
          assert m in ms;
        }
      }
    }
  }

  /** Every qualifying match's line carries some issue once `VersionScan`
      is done: either one recorded before, or the version issue it added. */
  lemma {:induction false} VersionScanComplete(content: string, ms: seq<Match>, acc: seq<Issue>)
    ensures var r := VersionScan(content, ms, acc);
      forall m | m in ms && Qualifies(m) :: Flagged(r, LineAt(content, m.index))
    decreases |ms|
  {
    if |ms| > 0 {
      var r := VersionScan(content, ms, acc);
      var l := LineAt(content, ms[0].index);
      var next := if Qualifies(ms[0]) && !Flagged(acc, l) then acc + [VersionIssue(l)] else acc;
      VersionScanComplete(content, ms[1..], next);
      forall m | m in ms && Qualifies(m)
        ensures Flagged(r, LineAt(content, m.index))
      {
        if m == ms[0] {
          assert Flagged(next, l) by {
            if Flagged(acc, l) {
              var x :| x in acc && x.line == Some(l);
              assert x in next;
            } else {
              assert next[|acc|] == VersionIssue(l);
            }
          }
          var x :| x in next && x.line == Some(l);
          assert x in r[..|next|];
        } else {
          assert m in ms[1..];
        }
      }
    }
  }

  /** If issue `i` of `r` is a version-access issue, it is on the line of a
      qualifying match of `ms`, and no issue before it is on that line. */
  predicate DistinctVersionLine(content: string, ms: seq<Match>, r: seq<Issue>, i: nat)
    requires i < |r|
  {
    r[i].rule == PackageJsonVersionAccess ==>
      && (exists m | m in ms :: Qualifies(m) && r[i].line == Some(LineAt(content, m.index)))
      && forall j | 0 <= j < i :: r[j].line != r[i].line
  }

  /** The version issues appended after the per-line issues are the only
      ones, and each is on a line no earlier issue is on. */
  lemma VersionAfterLines(content: string, ms: seq<Match>, perLine: seq<Issue>)
    requires forall x | x in perLine :: x.rule != PackageJsonVersionAccess
    ensures forall i | 0 <= i < |VersionScan(content, ms, perLine)| ::
      DistinctVersionLine(content, ms, VersionScan(content, ms, perLine), i)
  {
    var r := VersionScan(content, ms, perLine);
    VersionScanSound(content, ms, perLine);
    forall i | 0 <= i < |r|
      ensures DistinctVersionLine(content, ms, r, i)
    {
      if i < |perLine| {
        assert r[i] == perLine[i];
        assert perLine[i] in perLine;
      } else {
        assert FreshVersionLine(content, ms, r, i);
        forall j | 0 <= j < i
          ensures r[j].line != r[i].line
        {
          assert r[j] in r[..i];
        }
      }
    }
  }

  /** A version-access issue of `check` is only reported when the text
      mentions `.version` and `package` or `pkg`, comes from a `.version`
      read with a package.json-like receiver on its line, and no issue
      reported before it is on the same line. */
  lemma VersionAccessSound(re: Engine, content: string, filePath: string)
    ensures forall i | 0 <= i < |Check(re, content, filePath)| ::
      && (Check(re, content, filePath)[i].rule == PackageJsonVersionAccess ==> VersionGate(content))
      && DistinctVersionLine(content, re(VersionAccess, content), Check(re, content, filePath), i)
  {
    var r := Check(re, content, filePath);
    if IsSourcePath(filePath) {
      var perLine := ScanLines(re, Lines(content), 0);
      if VersionGate(content) {
        assert r == VersionScan(content, re(VersionAccess, content), perLine);
        VersionAfterLines(content, re(VersionAccess, content), perLine);
      } else {
        assert r == perLine;
        forall i | 0 <= i < |r|
          ensures r[i].rule != PackageJsonVersionAccess
        {
          assert r[i] in perLine;
        }
      }
    }
  }

  /** Every `.version` read with a package.json-like receiver in a source file
      that passes the text gate ends up with an issue on its line. */
  lemma VersionAccessComplete(re: Engine, content: string, filePath: string)
    requires IsSourcePath(filePath) && VersionGate(content)
    ensures forall m | m in re(VersionAccess, content) && Qualifies(m) ::
      Flagged(Check(re, content, filePath), LineAt(content, m.index))
  {
    VersionScanComplete(content, re(VersionAccess, content), ScanLines(re, Lines(content), 0));
  }

  // ---------------------------------------------------------------------------
  // checkBundle
  // ---------------------------------------------------------------------------

  /** The URL-encoded reference; its pattern ignores case, so it is counted in
      the lower-cased text. */
  const EncodedRef := "%2fpackage.json"
  const PathRef := "/package.json"
  const AliasRef := "~/package.json"
  const QuotedRef := "\"package.json\""

  /** The summed match counts of the four reference patterns. */
  function BundleReferenceCount(bundle: string): nat
  {
    Count(Lower(bundle), EncodedRef) + Count(bundle, PathRef)
    + Count(bundle, AliasRef) + Count(bundle, QuotedRef)
  }

  /** Some reference pattern occurs in the bundle. */
  predicate HasBundleReference(bundle: string)
  {
    Contains(Lower(bundle), EncodedRef) || Contains(bundle, PathRef)
    || Contains(bundle, AliasRef) || Contains(bundle, QuotedRef)
  }

  const BundlePrefix := "Bundle contains "
  const BundleSuffix := " " + "reference(s) to package.json. This will cause runtime errors."

  /** `checkBundle`: at most one issue, an `error`, present exactly when some
      reference pattern occurs, whose message reports the summed count. */
  function CheckBundle(bundle: string, bundlePath: string): (r: seq<Issue>)
    ensures |r| <= 1
    ensures |r| == 1 <==> HasBundleReference(bundle)
    ensures |r| == 1 ==>
      && r[0].severity == Error && r[0].rule == BundleContainsPackageJsonRef
      && ReadCount(BundlePrefix, r[0].message) == Some(BundleReferenceCount(bundle))
  {
    var n := BundleReferenceCount(bundle);
    if n > 0 then
      var message := BundlePrefix + Show(n) + BundleSuffix;
      assert BundleSuffix[0] == ' ';
      CountRoundTrip(BundlePrefix, n, BundleSuffix);
      [Note(Error, BundleContainsPackageJsonRef, message)]
    else []
  }

  /** The NativeScript alias `~/package.json` also contains the direct path,
      so each bundle that holds it counts at least two references. */
  lemma BundleAliasCountedTwice(bundle: string)
    requires Contains(bundle, AliasRef)
    ensures BundleReferenceCount(bundle) >= 2
  {
    assert AliasRef[1..1 + |PathRef|] == PathRef;
    ContainsInner(bundle, AliasRef, PathRef, 1);
  }
}
