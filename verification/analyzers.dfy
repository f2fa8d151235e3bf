/** lib/analyzers.js, `basicTextChecks`: the checks every source file gets
    before the rule modules run. It reports, in this order: one `no-var`
    issue when the word `var` occurs, one `no-eval` issue for an `eval(` or
    `new Function(` call, one `insecure-http` issue per `http://` URL (local
    ones included) when the text mentions `http://` or `https://`, one
    `hardcoded-credentials` issue per credential assignment and one
    `log-sensitive` issue per console call that mentions a token, password
    or secret. */
module BasicChecks {
  import opened Wrappers
  import opened Text
  import opened Issues
  import opened Oracle

  function RuleSeverity(rule: RuleId): Option<Severity>
  {
    if rule == NoEval || rule == InsecureHttp || rule == HardcodedCredentials then Some(High)
    else if rule == NoVar || rule == LogSensitive then Some(Warn)
    else None
  }

  /** Every issue carries its rule's severity and no position. */
  predicate Conforms(x: Issue)
  {
    RuleSeverity(x.rule) == Some(x.severity) && x.line == None && x.column == None
  }

  /** What the basic patterns find in one file. */
  datatype Findings = Findings(
    varKeyword: bool,
    evalCall: bool,
    mentionsScheme: bool,        // `http://` or `https://` occurs
    httpUrls: seq<string>,       // every `http://...` run, in order
    credentials: nat,            // credential assignments
    sensitiveLogs: nat)          // console calls naming a token, password or secret

  function Scan(re: Engine, content: string): Findings
  {
    Findings(
      Test(re, VarKeyword, content),
      Test(re, EvalCall, content) || Test(re, NewFunctionCall, content),
      Contains(content, "http://") || Contains(content, "https://"),
      Texts(re, HttpUrl, content),
      |re(CredentialAssignment, content)|,
      |re(ConsoleSensitive, content)|)
  }

  const VarMessage := "Avoid using var; prefer let/const"
  const EvalMessage := "Use of eval/Function is dangerous"
  const HttpPrefix := "Insecure http URL found: "
  const CredentialMessage := "Possible hardcoded credential or token"
  const LogMessage := "Logging may expose sensitive data"

  function HttpMessage(url: string): string
  {
    HttpPrefix + url
  }

  function HttpNote(url: string): (x: Issue)
    ensures x.rule == InsecureHttp && x.message == HttpMessage(url) && Conforms(x)
  {
    Note(High, InsecureHttp, HttpMessage(url))
  }

  /** One issue per URL, in order, with no exemption for local hosts. */
  function HttpIssues(urls: seq<string>): (r: seq<Issue>)
    ensures |r| == |urls|
    ensures forall i | 0 <= i < |r| :: r[i] == HttpNote(urls[i])
  {
    seq(|urls|, i requires 0 <= i < |urls| => HttpNote(urls[i]))
  }

  /** The section of the report that belongs to `rule`: issues of that rule
      only. */
  function Section(f: Findings, rule: RuleId): (r: seq<Issue>)
    ensures forall x | x in r :: x.rule == rule && Conforms(x)
  {
    if rule == NoVar then FlagIf(f.varKeyword, Note(Warn, NoVar, VarMessage))
    else if rule == NoEval then FlagIf(f.evalCall, Note(High, NoEval, EvalMessage))
    else if rule == InsecureHttp then (if f.mentionsScheme then HttpIssues(f.httpUrls) else [])
    else if rule == HardcodedCredentials then
      seq(f.credentials, _ => Note(High, HardcodedCredentials, CredentialMessage))
    else if rule == LogSensitive then seq(f.sensitiveLogs, _ => Note(Warn, LogSensitive, LogMessage))
    else []
  }

  /** The rule whose section comes `i`-th in the report, counting from 0
      (the first and the last stand for every earlier and later position). */
  function RuleAt(i: int): RuleId
  {
    if i <= 0 then NoVar
    else if i == 1 then NoEval
    else if i == 2 then InsecureHttp
    else if i == 3 then HardcodedCredentials
    else LogSensitive
  }

  /** The rules of `basicTextChecks`, in report order. */
  function Order(): seq<RuleId>
  {
    seq(5, RuleAt)
  }

  function Sections(f: Findings): RuleId -> seq<Issue>
  {
    k => Section(f, k)
  }

  lemma SectionsSound(f: Findings)
    ensures SectionsByRule(Sections(f)) && Distinct(Order())
  {
    OrderDistinct();
  }

  lemma OrderDistinct()
    ensures Distinct(Order())
  {
  }

  /** The sections in report order. */
  function Report(f: Findings): seq<Issue>
  {
    Assemble(Sections(f), Order())
  }

  /** `basicTextChecks`: every issue carries its rule's severity and no
      position. */
  function Check(re: Engine, content: string): (r: seq<Issue>)
    ensures forall x | x in r :: Conforms(x)
  {
    var f := Scan(re, content);
    var r := Report(f);
    assert forall x | x in r :: Conforms(x) by {
      forall x | x in r
        ensures Conforms(x)
      {
        SectionsSound(f);
        AssembleMember(Sections(f), Order(), x);
      }
    }
    r
  }

  /** The report holds as many issues of a listed rule as its section, and
      none of any other rule. */
  lemma ReportCount(f: Findings, rule: RuleId)
    ensures CountRule(Report(f), rule) == if rule in Order() then |Section(f, rule)| else 0
  {
    SectionsSound(f);
    AssembleCount(Sections(f), Order(), rule);
  }

  /** The report holds an issue exactly when its rule is listed and its
      rule's section holds it. */
  lemma ReportMember(f: Findings, x: Issue)
    ensures x in Report(f) <==> x.rule in Order() && x in Section(f, x.rule)
  {
    SectionsSound(f);
    AssembleMember(Sections(f), Order(), x);
  }

  /** The counting checks report once per match; `no-var` and `no-eval`
      report at most once. */
  lemma SectionCounts(f: Findings)
    ensures |Section(f, NoVar)| == if f.varKeyword then 1 else 0
    ensures |Section(f, NoEval)| == if f.evalCall then 1 else 0
    ensures |Section(f, HardcodedCredentials)| == f.credentials
    ensures |Section(f, LogSensitive)| == f.sensitiveLogs
  {
  }

  /** The basic URL check names a URL exactly when a scheme is mentioned and
      the URL was found; local hosts are not exempt. */
  lemma HttpFlagged(f: Findings, url: string)
    ensures (exists x | x in Section(f, InsecureHttp) :: x.message == HttpMessage(url))
            <==> f.mentionsScheme && url in f.httpUrls
  {
    var r := Section(f, InsecureHttp);
    if exists x | x in r :: x.message == HttpMessage(url) {
      var x :| x in r && x.message == HttpMessage(url);
      var i :| 0 <= i < |r| && r[i] == x;
      assert HttpPrefix + f.httpUrls[i] + "" == HttpPrefix + url + "";
      SandwichInjective(HttpPrefix, f.httpUrls[i], url, "");
    }
    if f.mentionsScheme && url in f.httpUrls {
      var i :| 0 <= i < |f.httpUrls| && f.httpUrls[i] == url;
      assert r[i].message == HttpMessage(url);
    }
  }
}

/** lib/analyzers.js, `analyzeFile`: one file's report.

    The file's lower-cased base name picks the branch, first match wins:
    Gradle files (`build.gradle`, `gradle-wrapper.properties`), then
    `package.json`, then Android manifests (`androidmanifest.xml`,
    `manifestxml`); each of these runs its one rule, and a rule that throws
    contributes nothing. Every other file is a source file: the basic
    checks, the variables, methods, imports, security, NativeScript,
    performance and code-quality rules (a throwing rule contributes
    nothing), the TypeScript ESLint issues for `.ts`/`.tsx` files when that
    analyzer is available, the compiler diagnostics when TypeScript is
    available, and then the NativeScript rule a second time, outside any
    `try`: its issues appear twice, and when it throws the whole analysis
    is rejected. The summary counts the issues per severity name. */
module Analyzers {
  import opened Wrappers
  import opened Text
  import opened Issues
  import opened Oracle
  import BasicChecks
  import Variables
  import Methods
  import Security
  import AndroidManifest

  /** A rule module whose source is not part of this model: its `check`,
      called as `check(content, filePath)`. */
  type Rule = (string, string) -> RuleResult

  /** A TypeScript compiler diagnostic: flattened message text and code. */
  datatype Diagnostic = Diagnostic(message: string, code: int)

  /** What `analyzeFile` takes from outside the modelled code: the rule
      modules not modelled here, and, for this file, the TypeScript ESLint
      issues (None when that analyzer or ESLint is unavailable; its own
      errors already read as no issues) and the compiler diagnostics (None
      when TypeScript is unavailable or fails). */
  datatype Environment = Environment(
    gradle: Rule,
    packageJson: Rule,
    imports: Rule,
    nativescript: Rule,
    performance: Rule,
    codeQuality: Rule,
    eslint: Option<seq<Issue>>,
    diagnostics: Option<seq<Diagnostic>>)

  /** `report.meta`: what the TypeScript tools produced, when they did. */
  datatype Meta = Meta(tsEslint: Option<seq<Issue>>, tsc: Option<seq<Diagnostic>>)

  datatype FileReport = FileReport(file: string, ext: string, issues: seq<Issue>, meta: Meta,
                                   summary: map<string, nat>)

  /** The promise `analyzeFile` returns: a report, or a rejection. */
  datatype Analysis = Analyzed(report: FileReport) | Rejected

  datatype FileKind = GradleFile | PackageJsonFile | ManifestFile | SourceFile

  /** The lower-cased base name the branches test. */
  function FileName(filePath: string): string
  {
    Lower(Basename(filePath))
  }

  /** `/build\.gradle|gradle-wrapper\.properties/` on the file name. */
  predicate GradleName(name: string)
  {
    Contains(name, "build.gradle") || Contains(name, "gradle-wrapper.properties")
  }

  /** `/androidmanifest\.xml|manifestxml/` on the file name. */
  predicate ManifestName(name: string)
  {
    Contains(name, "androidmanifest.xml") || Contains(name, "manifestxml")
  }

  /** The branch a file takes: the first of the Gradle, `package.json` and
      manifest tests its name passes, else the source-file branch. */
  function Classify(filePath: string): (k: FileKind)
    ensures k == GradleFile <==> GradleName(FileName(filePath))
    ensures k == PackageJsonFile <==> !GradleName(FileName(filePath)) && FileName(filePath) == "package.json"
    ensures k == ManifestFile <==>
      && !GradleName(FileName(filePath)) && FileName(filePath) != "package.json"
      && ManifestName(FileName(filePath))
  {
    var name := FileName(filePath);
    if GradleName(name) then GradleFile
    else if name == "package.json" then PackageJsonFile
    else if ManifestName(name) then ManifestFile
    else SourceFile
  }

  function TscIssue(d: Diagnostic): Issue
  {
    Issue(Error, Tsc, d.message, None, None, Some(d.code))
  }

  function TscIssues(ds: seq<Diagnostic>): (r: seq<Issue>)
    ensures |r| == |ds|
    ensures forall i | 0 <= i < |r| :: r[i].rule == Tsc && r[i].severity == Error
                                    && r[i].message == ds[i].message && r[i].code == Some(ds[i].code)
  {
    seq(|ds|, i requires 0 <= i < |ds| => TscIssue(ds[i]))
  }

  /** The summary's keys are the severity names that occur, each counted,
      and the counts add up to the number of issues. */
  ghost predicate Summarized(r: FileReport)
  {
    && r.summary.Keys == SeveritiesOf(r.issues)
    && (forall sev | sev in r.summary :: r.summary[sev] == CountSeverity(r.issues, sev))
    && Total(r.summary) == |r.issues|
  }

  /** A report with its summary. */
  function Finish(filePath: string, ext: string, issues: seq<Issue>, meta: Meta): (r: FileReport)
    ensures r.issues == issues && Summarized(r)
  {
    SummaryTotal(issues);
    FileReport(filePath, ext, issues, meta, Summarize(issues))
  }

  /** What every rule and tool yields for one file. The NativeScript rule is
      called twice by `analyzeFile`; being a function of its arguments, it
      yields the same both times. */
  datatype Outputs = Outputs(
    gradle: RuleResult,
    packageJson: RuleResult,
    manifest: RuleResult,
    basic: seq<Issue>,
    variables: seq<Issue>,
    methods: seq<Issue>,
    imports: RuleResult,
    security: seq<Issue>,
    nativescript: RuleResult,
    performance: RuleResult,
    codeQuality: RuleResult,
    eslint: Option<seq<Issue>>,
    diagnostics: Option<seq<Diagnostic>>)

  /** Runs every rule and tool on the file. */
  function Run(re: Engine, env: Environment, filePath: string, content: string): Outputs
  {
    Outputs(
      env.gradle(content, filePath),
      env.packageJson(content, filePath),
      AndroidManifest.Check(re, content, filePath),
      BasicChecks.Check(re, content),
      Variables.Check(re, content, filePath),
      Methods.Check(re, content, filePath),
      env.imports(content, filePath),
      Security.Check(re, content, filePath),
      env.nativescript(content, filePath),
      env.performance(content, filePath),
      env.codeQuality(content, filePath),
      env.eslint,
      env.diagnostics)
  }

  /** The issues of a source file up to the TypeScript tools: the basic
      checks, then the rule modules, a throwing one contributing nothing. */
  function RuleIssues(o: Outputs): seq<Issue>
  {
    o.basic + o.variables + o.methods + Caught(o.imports) + o.security
    + Caught(o.nativescript) + Caught(o.performance) + Caught(o.codeQuality)
  }

  /** The ESLint issues this file gets: only `.ts` and `.tsx` files, and only
      when the analyzer is available; an empty result is not recorded. */
  function EslintIssues(o: Outputs, ext: string): (r: Option<seq<Issue>>)
    ensures r.Some? ==> |r.value| > 0 && o.eslint == r && (ext == ".ts" || ext == ".tsx")
    ensures (ext == ".ts" || ext == ".tsx") && o.eslint.Some? && |o.eslint.value| > 0 ==> r == o.eslint
  {
    if (ext == ".ts" || ext == ".tsx") && o.eslint.Some? && |o.eslint.value| > 0 then o.eslint else None
  }

  /** The issues the TypeScript tools add. */
  function ToolIssues(o: Outputs, ext: string): seq<Issue>
  {
    var eslint := EslintIssues(o, ext);
    (if eslint.Some? then eslint.value else [])
    + (if o.diagnostics.Some? then TscIssues(o.diagnostics.value) else [])
  }

  /** `analyzeFile` once every rule and tool has run, for a file of kind `k`
      with lower-cased extension `ext`. */
  function Dispatch(k: FileKind, filePath: string, ext: string, o: Outputs): (a: Analysis)
    ensures a.Analyzed? ==> Summarized(a.report)
  {
    match k
    case GradleFile => Analyzed(Finish(filePath, ext, Caught(o.gradle), Meta(None, None)))
    case PackageJsonFile => Analyzed(Finish(filePath, ext, Caught(o.packageJson), Meta(None, None)))
    case ManifestFile => Analyzed(Finish(filePath, ext, Caught(o.manifest), Meta(None, None)))
    case SourceFile =>
      match o.nativescript
      case Threw => Rejected
      case Returned(ns) =>
        Analyzed(Finish(filePath, ext, RuleIssues(o) + ToolIssues(o, ext) + ns,
                        Meta(EslintIssues(o, ext), o.diagnostics)))
  }

  /** `analyzeFile` once every rule and tool has run. */
  function Analyze(filePath: string, o: Outputs): Analysis
  {
    Dispatch(Classify(filePath), filePath, Lower(Extname(filePath)), o)
  }

  function AnalyzeFile(re: Engine, env: Environment, filePath: string, content: string): Analysis
  {
    Analyze(filePath, Run(re, env, filePath, content))
  }

  // ---------------------------------------------------------------------------
  // Properties
  // ---------------------------------------------------------------------------

  /** Only a source file can be rejected, and exactly when the NativeScript
      rule throws. */
  lemma RejectedExactly(filePath: string, o: Outputs)
    ensures Analyze(filePath, o).Rejected? <==> Classify(filePath) == SourceFile && o.nativescript.Threw?
  {
  }

  /** The summary's keys are the severity names that occur, each counted, and
      the counts add up to the number of issues. */
  lemma SummaryAgrees(filePath: string, o: Outputs)
    requires Analyze(filePath, o).Analyzed?
    ensures var r := Analyze(filePath, o).report;
      && r.summary.Keys == SeveritiesOf(r.issues)
      && (forall sev | sev in r.summary :: r.summary[sev] == CountSeverity(r.issues, sev))
      && Total(r.summary) == |r.issues|
  {
    assert Summarized(Analyze(filePath, o).report);
  }

  /** A Gradle, `package.json` or manifest file is handled by its own rule
      alone, before any source-code rule runs: its issues are that rule's,
      or none when that rule throws, and its report records no TypeScript
      results. */
  lemma ConfigFileOwnRule(filePath: string, o: Outputs)
    requires Classify(filePath) != SourceFile
    ensures Analyze(filePath, o).Analyzed?
    ensures Analyze(filePath, o).report.meta == Meta(None, None)
    ensures Classify(filePath) == GradleFile ==> Analyze(filePath, o).report.issues == Caught(o.gradle)
    ensures Classify(filePath) == PackageJsonFile ==> Analyze(filePath, o).report.issues == Caught(o.packageJson)
    ensures Classify(filePath) == ManifestFile ==> Analyze(filePath, o).report.issues == Caught(o.manifest)
  {
  }

  /** A manifest whose rule throws gets a report with no issues and an empty
      summary. */
  lemma ManifestThrowEmpties(filePath: string, o: Outputs)
    requires Classify(filePath) == ManifestFile && o.manifest.Threw?
    ensures Analyze(filePath, o).Analyzed?
    ensures Analyze(filePath, o).report.issues == []
    ensures Analyze(filePath, o).report.summary == map[]
  {
  }

  /** The report depends on the rule outputs only through the issue lists
      they contribute. */
  lemma DispatchByContribution(k: FileKind, filePath: string, ext: string, o1: Outputs, o2: Outputs)
    requires o1.gradle == o2.gradle && o1.packageJson == o2.packageJson && o1.manifest == o2.manifest
    requires o1.nativescript == o2.nativescript && o1.eslint == o2.eslint && o1.diagnostics == o2.diagnostics
    requires RuleIssues(o1) == RuleIssues(o2)
    ensures Dispatch(k, filePath, ext, o1) == Dispatch(k, filePath, ext, o2)
  {
    assert ToolIssues(o1, ext) == ToolIssues(o2, ext);
    assert EslintIssues(o1, ext) == EslintIssues(o2, ext);
  }

  /** `DispatchByContribution` lifted to `Analyze`. */
  lemma AnalyzeByContribution(filePath: string, o1: Outputs, o2: Outputs)
    requires o1.gradle == o2.gradle && o1.packageJson == o2.packageJson && o1.manifest == o2.manifest
    requires o1.nativescript == o2.nativescript && o1.eslint == o2.eslint && o1.diagnostics == o2.diagnostics
    requires RuleIssues(o1) == RuleIssues(o2)
    ensures Analyze(filePath, o1) == Analyze(filePath, o2)
  {
    DispatchByContribution(Classify(filePath), filePath, Lower(Extname(filePath)), o1, o2);
  }

  /** A rule module that throws contributes exactly what a rule that returns
      no issues would: the imports rule, ... */
  lemma ImportsThrowIsSilent(filePath: string, o: Outputs)
    ensures Analyze(filePath, o.(imports := Threw)) == Analyze(filePath, o.(imports := Returned([])))
  {
    AnalyzeByContribution(filePath, o.(imports := Threw), o.(imports := Returned([])));
  }

  /** ... the performance rule, ... */
  lemma PerformanceThrowIsSilent(filePath: string, o: Outputs)
    ensures Analyze(filePath, o.(performance := Threw)) == Analyze(filePath, o.(performance := Returned([])))
  {
    AnalyzeByContribution(filePath, o.(performance := Threw), o.(performance := Returned([])));
  }

  /** ... and the code-quality rule. */
  lemma CodeQualityThrowIsSilent(filePath: string, o: Outputs)
    ensures Analyze(filePath, o.(codeQuality := Threw)) == Analyze(filePath, o.(codeQuality := Returned([])))
  {
    AnalyzeByContribution(filePath, o.(codeQuality := Threw), o.(codeQuality := Returned([])));
  }

  /** Each compiler diagnostic becomes one `error` issue of rule `tsc`. */
  lemma DiagnosticInTools(o: Outputs, ext: string, d: Diagnostic)
    requires o.diagnostics.Some? && d in o.diagnostics.value
    ensures Issue(Error, Tsc, d.message, None, None, Some(d.code)) in ToolIssues(o, ext)
  {
    var ds := o.diagnostics.value;
    var i :| 0 <= i < |ds| && ds[i] == d;
    assert TscIssues(ds)[i] == Issue(Error, Tsc, d.message, None, None, Some(d.code));
  }

  /** Every compiler diagnostic of a source file is reported as an `error`
      issue of rule `tsc` carrying the diagnostic's message and code, and
      the diagnostics are recorded in the report's meta. */
  lemma DiagnosticReported(filePath: string, o: Outputs, d: Diagnostic)
    requires Classify(filePath) == SourceFile && o.nativescript.Returned?
    requires o.diagnostics.Some? && d in o.diagnostics.value
    ensures Analyze(filePath, o).Analyzed?
    ensures Analyze(filePath, o).report.meta.tsc == o.diagnostics
    ensures Issue(Error, Tsc, d.message, None, None, Some(d.code)) in Analyze(filePath, o).report.issues
  {
    var ext := Lower(Extname(filePath));
    DiagnosticInTools(o, ext, d);
    assert Analyze(filePath, o) == Dispatch(SourceFile, filePath, ext, o);
  }

  /** The NativeScript rule's issues are reported twice: every rule is
      counted at least twice as often in the report as in that rule's
      result. */
  lemma NativeScriptTwice(filePath: string, o: Outputs, rule: RuleId)
    requires Classify(filePath) == SourceFile && o.nativescript.Returned?
    ensures Analyze(filePath, o).Analyzed?
    ensures CountRule(Analyze(filePath, o).report.issues, rule) >= 2 * CountRule(o.nativescript.issues, rule)
  {
    var ns := o.nativescript.issues;
    var a := o.basic + o.variables + o.methods + Caught(o.imports) + o.security;
    var r2 := a + ns + Caught(o.performance);
    var r3 := r2 + Caught(o.codeQuality);
    var tools := ToolIssues(o, Lower(Extname(filePath)));
    assert Analyze(filePath, o).report.issues == r3 + tools + ns;
    CountRuleAppend(r3 + tools, ns, rule);
    CountRuleAppend(r3, tools, rule);
    CountRuleAppend(r2, Caught(o.codeQuality), rule);
    CountRuleAppend(a + ns, Caught(o.performance), rule);
    CountRuleAppend(a, ns, rule);
  }
}
