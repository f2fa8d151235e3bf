/** lib/rules/security.js: security heuristics on source files.

    The rule's `check` reports, in this order: the five kinds of hard-coded
    secret, insecure storage, unencrypted file writes, each plain-HTTP URL
    that is not local, remote HTTP URLs in string literals, network use
    without SSL configuration, user input without validation, DOM writes
    open to XSS, eval-like calls, logging of sensitive data, each regular
    expression literal with nested quantifiers, missing certificate pinning,
    permission requests without error handling, and stringified objects
    near logging. Every check but the URL and regex ones reports at most
    once. The secret and sensitive-logging patterns carry the `g` flag but
    are fresh objects on every call, so their single `test` starts at the
    beginning of the text. */
module Security {
  import opened Wrappers
  import opened Text
  import opened Issues
  import opened Oracle

  function RuleSeverity(rule: RuleId): Option<Severity>
  {
    if rule == HardcodedApiKey || rule == HardcodedPassword || rule == HardcodedToken
       || rule == HardcodedSecret || rule == HardcodedKey || rule == InsecureStorageApi
       || rule == InsecureHttp || rule == HttpRemoteUrl || rule == PotentialXss
       || rule == CodeInjectionEval || rule == LogSensitiveData then Some(High)
    else if rule == UnencryptedFileWrite || rule == NoInputValidation || rule == RegexDos
       || rule == PermissionNoErrorHandling || rule == StringifyLogging then Some(Warn)
    else if rule == VerifySslConfig || rule == NoSslPinning then Some(Info)
    else None
  }

  /** Every issue carries its rule's severity and no position. */
  predicate Conforms(x: Issue)
  {
    RuleSeverity(x.rule) == Some(x.severity) && x.line == None && x.column == None
  }

  /** The literal texts the rule looks for with plain substring tests
      (case-sensitive, as in the source). */
  const Markers: set<string> := {
    "SecureStorage", "encrypt", "cipher",
    "fetch", "axios", "HttpClient", "XMLHttpRequest",
    "https:", "tls", "ssl", "certificate", "secure",
    "routeParams", "navigationContext", "query.", "request.body", "FormData", "formData.",
    "document.getElementById", "document.querySelector", "innerHTML", "innerText",
    "validate(", "sanitize(", "escape(", "trim()",
    "sanitize", "escape", "validate",
    "http.request", "pin", "verify",
    "requestPermission", "android.permission", "NSLocationWhenInUseUsageDescription",
    "catch", "onError",
    "console", "debug", "log"
  }

  // ---------------------------------------------------------------------------
  // What the patterns find
  // ---------------------------------------------------------------------------

  /** A regular-expression literal found in the text, and whether it shows a
      nested quantifier. */
  datatype RegexLit = RegexLit(text: string, nested: bool)

  /** What the rule's patterns find in one file. `mentioned` holds the
      markers that occur in it. */
  datatype Findings = Findings(
    mentioned: set<string>,
    secrets: set<SecretKind>,        // the secret kinds whose pattern matches
    storageSet: bool,
    fileWrite: bool,
    httpUrls: seq<string>,           // every `http://...` run, in order
    remoteHttp: bool,
    coreModulesHttp: bool,
    lengthComparison: bool,
    domWrite: bool,
    evalLike: bool,
    sensitiveLog: bool,
    regexes: seq<RegexLit>,
    fetchOrHttps: bool,
    tryBlock: bool,
    errorHandler: bool,
    stringify: bool)

  function Scan(re: Engine, content: string): Findings
  {
    var rs := Texts(re, RegexLiteral, content);
    Findings(
      (set t | t in Markers && Contains(content, t) :: t),
      (set k: SecretKind | Test(re, Secret(k), content) :: k),
      Test(re, StorageSet, content),
      Test(re, FileWriteCall, content),
      Texts(re, HttpUrl, content),
      Test(re, RemoteHttpLiteral, content),
      Test(re, CoreModulesHttp, content),
      Test(re, LengthComparison, content),
      Test(re, DomWrite, content),
      Test(re, EvalLike, content),
      Test(re, SensitiveLog, content),
      seq(|rs|, i requires 0 <= i < |rs| =>
        RegexLit(rs[i], Test(re, NestedQuantifierBrace, rs[i]) || Test(re, NestedQuantifierGroup, rs[i]))),
      Test(re, FetchOrHttpsCall, content),
      Test(re, TryBlock, content),
      Test(re, ErrorHandlerWords, content),
      Test(re, StringifyCall, content))
  }

  // ---------------------------------------------------------------------------
  // Conditions
  // ---------------------------------------------------------------------------

  function SecretRule(k: SecretKind): RuleId
  {
    match k
    case ApiKeySecret => HardcodedApiKey
    case PasswordSecret => HardcodedPassword
    case TokenSecret => HardcodedToken
    case ClientSecret => HardcodedSecret
    case SigningKeySecret => HardcodedKey
  }

  /** A URL the network check exempts: it names the local host. */
  predicate IsLocalUrl(url: string)
  {
    Contains(url, "localhost") || Contains(url, "127.0.0.1")
  }

  predicate MakesRequests(f: Findings)
  {
    "fetch" in f.mentioned || "axios" in f.mentioned || "HttpClient" in f.mentioned
    || "XMLHttpRequest" in f.mentioned || f.coreModulesHttp
  }

  predicate ConfiguresTransport(f: Findings)
  {
    "https:" in f.mentioned || "tls" in f.mentioned || "ssl" in f.mentioned
    || "certificate" in f.mentioned || "secure" in f.mentioned
  }

  predicate ReadsUserInput(f: Findings)
  {
    "routeParams" in f.mentioned || "navigationContext" in f.mentioned || "query." in f.mentioned
    || "request.body" in f.mentioned || "FormData" in f.mentioned || "formData." in f.mentioned
    || "document.getElementById" in f.mentioned || "document.querySelector" in f.mentioned
    || "innerHTML" in f.mentioned || "innerText" in f.mentioned
  }

  predicate Validates(f: Findings)
  {
    "validate(" in f.mentioned || "sanitize(" in f.mentioned || "escape(" in f.mentioned
    || "trim()" in f.mentioned || f.lengthComparison
  }

  predicate Sanitizes(f: Findings)
  {
    "sanitize" in f.mentioned || "escape" in f.mentioned || "validate" in f.mentioned
  }

  predicate CallsOut(f: Findings)
  {
    f.fetchOrHttps || "http.request" in f.mentioned || f.coreModulesHttp
  }

  predicate Pins(f: Findings)
  {
    "certificate" in f.mentioned || "ssl" in f.mentioned || "tls" in f.mentioned
    || "pin" in f.mentioned || "secure" in f.mentioned || "verify" in f.mentioned
  }

  predicate RequestsPermission(f: Findings)
  {
    "requestPermission" in f.mentioned || "android.permission" in f.mentioned
    || "NSLocationWhenInUseUsageDescription" in f.mentioned
  }

  predicate HandlesErrors(f: Findings)
  {
    f.tryBlock || "catch" in f.mentioned || f.errorHandler || "onError" in f.mentioned
  }

  predicate Logs(f: Findings)
  {
    "console" in f.mentioned || "debug" in f.mentioned || "log" in f.mentioned
  }

  /** When each of the single-issue checks reports; false for every other
      rule. */
  predicate Raised(f: Findings, rule: RuleId)
  {
    if rule == HardcodedApiKey then ApiKeySecret in f.secrets
    else if rule == HardcodedPassword then PasswordSecret in f.secrets
    else if rule == HardcodedToken then TokenSecret in f.secrets
    else if rule == HardcodedSecret then ClientSecret in f.secrets
    else if rule == HardcodedKey then SigningKeySecret in f.secrets
    else if rule == InsecureStorageApi then f.storageSet && "SecureStorage" !in f.mentioned
    else if rule == UnencryptedFileWrite then
      f.fileWrite && !("encrypt" in f.mentioned || "cipher" in f.mentioned || "SecureStorage" in f.mentioned)
    else if rule == HttpRemoteUrl then f.remoteHttp
    else if rule == VerifySslConfig then MakesRequests(f) && !ConfiguresTransport(f)
    else if rule == NoInputValidation then ReadsUserInput(f) && !Validates(f)
    else if rule == PotentialXss then ReadsUserInput(f) && f.domWrite && !Sanitizes(f)
    else if rule == CodeInjectionEval then f.evalLike
    else if rule == LogSensitiveData then f.sensitiveLog
    else if rule == NoSslPinning then CallsOut(f) && !Pins(f)
    else if rule == PermissionNoErrorHandling then RequestsPermission(f) && !HandlesErrors(f)
    else if rule == StringifyLogging then f.stringify && Logs(f)
    else false
  }

  // ---------------------------------------------------------------------------
  // Messages
  // ---------------------------------------------------------------------------

  const HttpPrefix := "Insecure HTTP URL found: "
  const HttpSuffix := " - use HTTPS"

  function HttpMessage(url: string): string
  {
    HttpPrefix + url + HttpSuffix
  }

  const RegexPrefix := "Regex may be vulnerable to ReDoS attack: "

  function RegexMessage(text: string): string
  {
    RegexPrefix + text
  }

  /** The fixed message of each single-issue check. */
  function FlagMessage(rule: RuleId): string
  {
    if rule == HardcodedApiKey then "Hardcoded API key detected"
    else if rule == HardcodedPassword then "Hardcoded password detected"
    else if rule == HardcodedToken then "Hardcoded authentication token detected"
    else if rule == HardcodedSecret then "Hardcoded secret detected"
    else if rule == HardcodedKey then "Hardcoded cryptographic key detected"
    else if rule == InsecureStorageApi then
      "Use of insecure storage API (localStorage/AsyncStorage); prefer @nativescript-community/secure-storage"
    else if rule == UnencryptedFileWrite then
      "File written without apparent encryption; verify sensitive data is protected"
    else if rule == HttpRemoteUrl then "Remote HTTP URLs detected - always use HTTPS for external APIs"
    else if rule == VerifySslConfig then
      "Network requests found; verify HTTPS and SSL certificate validation are configured"
    else if rule == NoInputValidation then "User input accessed without obvious validation/sanitization"
    else if rule == PotentialXss then "Direct DOM manipulation with user input detected - risk of XSS"
    else if rule == CodeInjectionEval then "Use of eval/Function() is dangerous and allows code injection"
    else if rule == LogSensitiveData then "Logging may expose sensitive data (passwords, tokens, secrets)"
    else if rule == NoSslPinning then "Consider implementing SSL certificate pinning for sensitive APIs"
    else if rule == PermissionNoErrorHandling then
      "Permission requests should have error handling for denied permissions"
    else "Be careful when stringifying and logging objects - may expose sensitive data"
  }

  // ---------------------------------------------------------------------------
  // The report
  // ---------------------------------------------------------------------------

  /** One issue of `rule`, with the rule's severity, when `cond` holds. */
  function Flag(cond: bool, rule: RuleId, message: string): (r: seq<Issue>)
    requires RuleSeverity(rule).Some?
    ensures |r| == if cond then 1 else 0
    ensures forall x | x in r :: x.rule == rule && x.message == message && Conforms(x)
  {
    FlagIf(cond, Note(RuleSeverity(rule).value, rule, message))
  }

  function HttpNote(url: string): (x: Issue)
    ensures x.rule == InsecureHttp && x.message == HttpMessage(url) && Conforms(x)
  {
    Note(High, InsecureHttp, HttpMessage(url))
  }

  function RegexNote(text: string): (x: Issue)
    ensures x.rule == RegexDos && x.message == RegexMessage(text) && Conforms(x)
  {
    Note(Warn, RegexDos, RegexMessage(text))
  }

  /** One issue per URL that does not name the local host, in order. */
  function HttpIssues(urls: seq<string>): (r: seq<Issue>)
    ensures |r| <= |urls|
    ensures forall x | x in r :: x.rule == InsecureHttp && Conforms(x)
  {
    Notes(urls, (u: string) => !IsLocalUrl(u), HttpNote)
  }

  /** One issue per regular-expression literal with a nested quantifier, in
      order. */
  function RegexIssues(rs: seq<RegexLit>): (r: seq<Issue>)
    ensures |r| <= |rs|
    ensures forall x | x in r :: x.rule == RegexDos && Conforms(x)
  {
    Notes(rs, (r: RegexLit) => r.nested, (r: RegexLit) => RegexNote(r.text))
  }

  /** The section of the report that belongs to `rule`: issues of that rule
      only. */
  function Section(f: Findings, rule: RuleId): (r: seq<Issue>)
    ensures forall x | x in r :: x.rule == rule && Conforms(x)
  {
    if rule == InsecureHttp then HttpIssues(f.httpUrls)
    else if rule == RegexDos then RegexIssues(f.regexes)
    else if RuleSeverity(rule).Some? then Flag(Raised(f, rule), rule, FlagMessage(rule))
    else []
  }

  /** The rule whose section comes `i`-th in the report, counting from 0
      (the first and the last stand for every earlier and later position). */
  function RuleAt(i: int): RuleId
  {
    if i <= 0 then HardcodedApiKey
    else if i == 1 then HardcodedPassword
    else if i == 2 then HardcodedToken
    else if i == 3 then HardcodedSecret
    else if i == 4 then HardcodedKey
    else if i == 5 then InsecureStorageApi
    else if i == 6 then UnencryptedFileWrite
    else if i == 7 then InsecureHttp
    else if i == 8 then HttpRemoteUrl
    else if i == 9 then VerifySslConfig
    else if i == 10 then NoInputValidation
    else if i == 11 then PotentialXss
    else if i == 12 then CodeInjectionEval
    else if i == 13 then LogSensitiveData
    else if i == 14 then RegexDos
    else if i == 15 then NoSslPinning
    else if i == 16 then PermissionNoErrorHandling
    else StringifyLogging
  }

  /** Where `rule`'s section comes in the report, or -1 for a rule this
      file does not report: the inverse of `RuleAt`. */
  function Position(rule: RuleId): int
  {
    match rule
    case HardcodedApiKey => 0
    case HardcodedPassword => 1
    case HardcodedToken => 2
    case HardcodedSecret => 3
    case HardcodedKey => 4
    case InsecureStorageApi => 5
    case UnencryptedFileWrite => 6
    case InsecureHttp => 7
    case HttpRemoteUrl => 8
    case VerifySslConfig => 9
    case NoInputValidation => 10
    case PotentialXss => 11
    case CodeInjectionEval => 12
    case LogSensitiveData => 13
    case RegexDos => 14
    case NoSslPinning => 15
    case PermissionNoErrorHandling => 16
    case StringifyLogging => 17
    case _ => -1
  }

  /** The rules of this file, in report order. */
  function Order(): seq<RuleId>
  {
    seq(18, RuleAt)
  }

  function Sections(f: Findings): RuleId -> seq<Issue>
  {
    k => Section(f, k)
  }

  lemma SectionsSound(f: Findings)
    ensures SectionsByRule(Sections(f)) && Distinct(Order())
  {
    OrderDistinct();
  }

  lemma OrderDistinct()
    ensures Distinct(Order())
  {
    PositionInverts();
    DistinctByPosition(Order(), Position);
  }

  /** `Position` undoes `RuleAt` on every position of the report. */
  lemma PositionInverts()
    ensures forall i | 0 <= i < 18 :: Position(RuleAt(i)) == i
  {
  }

  /** The sections in report order. */
  function Report(f: Findings): seq<Issue>
  {
    Assemble(Sections(f), Order())
  }

  /** The rule's `check`: every issue carries its rule's severity and no
      position. */
  function Check(re: Engine, content: string, filePath: string): (r: seq<Issue>)
    ensures forall x | x in r :: Conforms(x)
  {
    var f := Scan(re, content);
    var r := Report(f);
    assert forall x | x in r :: Conforms(x) by {
      forall x | x in r
        ensures Conforms(x)
      {
        SectionsSound(f);
        AssembleMember(Sections(f), Order(), x);
      }
    }
    r
  }

  // ---------------------------------------------------------------------------
  // Properties
  // ---------------------------------------------------------------------------

  /** The report holds as many issues of a listed rule as its section, and
      none of any other rule. */
  lemma ReportCount(f: Findings, rule: RuleId)
    ensures CountRule(Report(f), rule) == if rule in Order() then |Section(f, rule)| else 0
  {
    SectionsSound(f);
    AssembleCount(Sections(f), Order(), rule);
  }

  /** The report holds an issue exactly when its rule is listed and its
      rule's section holds it. */
  lemma ReportMember(f: Findings, x: Issue)
    ensures x in Report(f) <==> x.rule in Order() && x in Section(f, x.rule)
  {
    SectionsSound(f);
    AssembleMember(Sections(f), Order(), x);
  }

  /** The section of a single-issue check holds one issue, with the check's
      message, exactly when the check is raised. */
  lemma FlagSection(f: Findings, rule: RuleId)
    requires rule in Order() && rule != InsecureHttp && rule != RegexDos
    ensures |Section(f, rule)| == if Raised(f, rule) then 1 else 0
    ensures forall x | x in Section(f, rule) :: x.message == FlagMessage(rule)
  {
  }

  /** Each secret kind is raised exactly when its pattern matches. */
  lemma SecretRaised(f: Findings, k: SecretKind)
    ensures SecretRule(k) in Order()
    ensures Raised(f, SecretRule(k)) <==> k in f.secrets
  {
    match k
    case ApiKeySecret => assert Order()[0] == SecretRule(k);
    case PasswordSecret => assert Order()[1] == SecretRule(k);
    case TokenSecret => assert Order()[2] == SecretRule(k);
    case ClientSecret => assert Order()[3] == SecretRule(k);
    case SigningKeySecret => assert Order()[4] == SecretRule(k);
  }

  /** An insecure-HTTP issue names a URL exactly when the URL was found and
      names neither `localhost` nor `127.0.0.1`. */
  lemma HttpFlagged(urls: seq<string>, url: string)
    ensures (exists x | x in HttpIssues(urls) :: x.message == HttpMessage(url))
            <==> url in urls && !IsLocalUrl(url)
  {
    forall a, b | HttpMessage(a) == HttpMessage(b)
      ensures a == b
    {
      SandwichInjective(HttpPrefix, a, b, HttpSuffix);
    }
    NotesNamed(urls, (u: string) => !IsLocalUrl(u), HttpNote, (u: string) => u, HttpMessage, url);
  }

  /** A ReDoS issue quotes a regex literal exactly when some literal with that
      text shows a nested quantifier. */
  lemma RegexFlagged(rs: seq<RegexLit>, text: string)
    ensures (exists x | x in RegexIssues(rs) :: x.message == RegexMessage(text))
            <==> exists r | r in rs :: r.text == text && r.nested
  {
    forall a, b | RegexMessage(a) == RegexMessage(b)
      ensures a == b
    {
      PrefixInjective(RegexPrefix, a, b);
    }
    NotesNamed(rs, (r: RegexLit) => r.nested, (r: RegexLit) => RegexNote(r.text), (r: RegexLit) => r.text,
               RegexMessage, text);
  }

  /** A `SecureStorage` mention silences both storage checks. */
  lemma SecureStorageSilences(f: Findings)
    requires "SecureStorage" in f.mentioned
    ensures !Raised(f, InsecureStorageApi) && !Raised(f, UnencryptedFileWrite)
  {
  }

  /** A `secure` mention silences both transport checks. */
  lemma SecureMentionSilences(f: Findings)
    requires "secure" in f.mentioned
    ensures !Raised(f, VerifySslConfig) && !Raised(f, NoSslPinning)
  {
  }

  /** Both input checks need user input to be read; the XSS check also needs
      a DOM write and no sanitising call, and is independent of the
      validation check. */
  lemma InputChecksNeedInput(f: Findings)
    ensures Raised(f, NoInputValidation) ==> ReadsUserInput(f)
    ensures Raised(f, PotentialXss) <==> ReadsUserInput(f) && f.domWrite && !Sanitizes(f)
  {
  }
}
