/** The record every lint rule produces, and the per-severity summary that
    `analyzeFile` folds a file's issues into (lib/analyzers.js). */
module Issues {
  import opened Wrappers

  /** Issue severities. The shown rules use `high`, `error`, `warn` and
      `info`; rule modules outside this model may use any other name. */
  datatype Severity = High | Error | Warn | Info | Other(name: string) {
    function Name(): string
    {
      match this
      case High => "high"
      case Error => "error"
      case Warn => "warn"
      case Info => "info"
      case Other(n) => n
    }
  }

  /** Stable rule identifiers. `Named` stands for the identifiers of rule
      modules outside this model. */
  datatype RuleId =
    // lib/rules/no-packagejson-import.js
    | NoPackageJsonImport | NoPackageJsonRequire | NoPackageJsonDynamicImport
    | PackageJsonVersionAccess | BundleContainsPackageJsonRef
    // lib/analyzers.js
    | NoVar | NoEval | InsecureHttp | HardcodedCredentials | LogSensitive | Tsc
    // lib/rules/variables.js
    | TooManyConsole | NoAny | MagicNumber | TodoComment | EmptyCatch | HardcodedStrings
    // lib/rules/methods.js
    | AsyncNoAwait | UnusedFunc | PromiseNoCatch
    // lib/rules/android-manifest.js
    | AndroidExportedComponent | AndroidDangerousPermission | AndroidLaunchMode
    | AndroidSchemeValidation | AndroidCleartextTraffic | AndroidDebuggable
    | AndroidNoMinSdk | AndroidNoTargetSdk | AndroidProviderUnprotected
    | AndroidReceiverUnprotected | AndroidServiceUnprotected | AndroidBackupEnabled
    | AndroidMissingQueries
    // lib/rules/security.js
    | HardcodedApiKey | HardcodedPassword | HardcodedToken | HardcodedSecret | HardcodedKey
    | InsecureStorageApi | UnencryptedFileWrite | HttpRemoteUrl | VerifySslConfig
    | NoInputValidation | PotentialXss | CodeInjectionEval | LogSensitiveData | RegexDos
    | NoSslPinning | PermissionNoErrorHandling | StringifyLogging
    // rule modules outside this model
    | Named(id: string)
  {
    /** The identifier as it appears in the report. */
    function Name(): string
    {
      match this
      case NoPackageJsonImport => "no-packagejson-import"
      case NoPackageJsonRequire => "no-packagejson-require"
      case NoPackageJsonDynamicImport => "no-packagejson-dynamic-import"
      case PackageJsonVersionAccess => "packagejson-version-access"
      case BundleContainsPackageJsonRef => "bundle-contains-packagejson-ref"
      case NoVar => "no-var"
      case NoEval => "no-eval"
      case InsecureHttp => "insecure-http"
      case HardcodedCredentials => "hardcoded-credentials"
      case LogSensitive => "log-sensitive"
      case Tsc => "tsc"
      case TooManyConsole => "too-many-console"
      case NoAny => "no-any"
      case MagicNumber => "magic-number"
      case TodoComment => "todo-comment"
      case EmptyCatch => "empty-catch"
      case HardcodedStrings => "hardcoded-strings"
      case AsyncNoAwait => "async-no-await"
      case UnusedFunc => "unused-func"
      case PromiseNoCatch => "promise-no-catch"
      case AndroidExportedComponent => "android-exported-component"
      case AndroidDangerousPermission => "android-dangerous-permission"
      case AndroidLaunchMode => "android-launch-mode"
      case AndroidSchemeValidation => "android-scheme-validation"
      case AndroidCleartextTraffic => "android-cleartext-traffic"
      case AndroidDebuggable => "android-debuggable"
      case AndroidNoMinSdk => "android-no-min-sdk"
      case AndroidNoTargetSdk => "android-no-target-sdk"
      case AndroidProviderUnprotected => "android-provider-unprotected"
      case AndroidReceiverUnprotected => "android-receiver-unprotected"
      case AndroidServiceUnprotected => "android-service-unprotected"
      case AndroidBackupEnabled => "android-backup-enabled"
      case AndroidMissingQueries => "android-missing-queries"
      case HardcodedApiKey => "hardcoded-api-key"
      case HardcodedPassword => "hardcoded-password"
      case HardcodedToken => "hardcoded-token"
      case HardcodedSecret => "hardcoded-secret"
      case HardcodedKey => "hardcoded-key"
      case InsecureStorageApi => "insecure-storage-api"
      case UnencryptedFileWrite => "unencrypted-file-write"
      case HttpRemoteUrl => "http-remote-url"
      case VerifySslConfig => "verify-ssl-config"
      case NoInputValidation => "no-input-validation"
      case PotentialXss => "potential-xss"
      case CodeInjectionEval => "code-injection-eval"
      case LogSensitiveData => "log-sensitive-data"
      case RegexDos => "regex-dos"
      case NoSslPinning => "no-ssl-pinning"
      case PermissionNoErrorHandling => "permission-no-error-handling"
      case StringifyLogging => "stringify-logging"
      case Named(id) => id
    }
  }

  /** One finding. `line` and `column` are 1-based and only set by the rules
      that locate their finding; `code` is only set on compiler
      diagnostics. */
  datatype Issue = Issue(severity: Severity, rule: RuleId, message: string,
                         line: Option<nat>, column: Option<nat>, code: Option<int>)

  /** An issue without a position. */
  function Note(severity: Severity, rule: RuleId, message: string): Issue
  {
    Issue(severity, rule, message, None, None, None)
  }

  /** A one-issue list when `cond` holds, else the empty list. */
  function FlagIf(cond: bool, issue: Issue): (r: seq<Issue>)
    ensures |r| <= 1
  {
    if cond then [issue] else []
  }

  /** What calling a rule module yields: its issue list, or a thrown
      exception. */
  datatype RuleResult = Returned(issues: seq<Issue>) | Threw

  /** `try { issues.push(...rule.check(...)) } catch (e) {}`: the issues a
      guarded call contributes. */
  function Caught(r: RuleResult): (issues: seq<Issue>)
    ensures r.Threw? ==> issues == []
    ensures r.Returned? ==> issues == r.issues
  {
    match r
    case Returned(list) => list
    case Threw => []
  }

  // ---------------------------------------------------------------------------
  // Counting issues by rule
  // ---------------------------------------------------------------------------

  /** The number of issues of `issues` that carry `rule`: positive exactly
      when one does. */
  function CountRule(issues: seq<Issue>, rule: RuleId): (n: nat)
    ensures n <= |issues|
  {
    if |issues| == 0 then 0
    else (if issues[0].rule == rule then 1 else 0) + CountRule(issues[1..], rule)
  }

  /** Some issue carries `rule` exactly when the count is positive. */
  lemma {:induction false} CountRulePositive(issues: seq<Issue>, rule: RuleId)
    ensures CountRule(issues, rule) > 0 <==> exists x | x in issues :: x.rule == rule
  {
    if |issues| > 0 {
      CountRulePositive(issues[1..], rule);
      assert forall x | x in issues[1..] :: x in issues;
      assert forall x | x in issues && x != issues[0] :: x in issues[1..];
    }
  }

  lemma {:induction false} CountRuleAppend(a: seq<Issue>, b: seq<Issue>, rule: RuleId)
    ensures CountRule(a + b, rule) == CountRule(a, rule) + CountRule(b, rule)
  {
    if |a| == 0 {
      assert a + b == b;
    } else {
      assert (a + b)[1..] == a[1..] + b;
      CountRuleAppend(a[1..], b, rule);
    }
  }

  /** Issues that all carry one rule are all counted for that rule and none
      for any other. */
  lemma {:induction false} CountRuleUniform(issues: seq<Issue>, own: RuleId, rule: RuleId)
    requires forall x | x in issues :: x.rule == own
    ensures CountRule(issues, rule) == if rule == own then |issues| else 0
  {
    if |issues| > 0 {
      assert issues[0] in issues;
      assert forall x | x in issues[1..] :: x in issues;
      CountRuleUniform(issues[1..], own, rule);
    }
  }

  /** Issues whose messages are an injective function of a list of values
      name a value exactly when the list holds it. */
  lemma NamedByMessage(issues: seq<Issue>, vals: seq<string>, message: string -> string, v: string)
    requires |issues| == |vals|
    requires forall i | 0 <= i < |vals| :: issues[i].message == message(vals[i])
    requires forall a, b | message(a) == message(b) :: a == b
    ensures (exists x | x in issues :: x.message == message(v)) <==> v in vals
  {
    if exists x | x in issues :: x.message == message(v) {
      var x :| x in issues && x.message == message(v);
      var i :| 0 <= i < |issues| && issues[i] == x;
      assert vals[i] in vals;
    }
    if v in vals {
      var i :| 0 <= i < |vals| && vals[i] == v;
      assert issues[i] in issues;
    }
  }

  /** The messages of `issues`, in order. */
  function Messages(issues: seq<Issue>): seq<string>
  {
    seq(|issues|, i requires 0 <= i < |issues| => issues[i].message)
  }

  /** With the same correspondence, the issues naming `v` are as many as the
      times `v` occurs in the list. */
  lemma {:induction false} MessageCount(issues: seq<Issue>, vals: seq<string>, message: string -> string, v: string)
    requires |issues| == |vals|
    requires forall i | 0 <= i < |vals| :: issues[i].message == message(vals[i])
    requires forall a, b | message(a) == message(b) :: a == b
    ensures multiset(Messages(issues))[message(v)] == multiset(vals)[v]
  {
    if vals != [] {
      MessageCount(issues[1..], vals[1..], message, v);
      assert Messages(issues) == [issues[0].message] + Messages(issues[1..]);
      assert vals == [vals[0]] + vals[1..];
    }
  }

  /** The notes `note(a)` of the entries `a` of `xs` that `keep` selects, in
      list order: how a rule reports one issue per offending finding. */
  function Notes<T>(xs: seq<T>, keep: T -> bool, note: T -> Issue): (r: seq<Issue>)
    ensures |r| <= |xs|
    ensures forall x | x in r :: exists a | a in xs :: keep(a) && x == note(a)
  {
    if xs == [] then []
    else
      var rest := Notes(xs[1..], keep, note);
      assert forall a | a in xs[1..] :: a in xs;
      (if keep(xs[0]) then [note(xs[0])] else []) + rest
  }

  /** When each note's message names its finding through an injective
      `message`, a note names `v` exactly when some selected finding has that
      name. */
  lemma {:induction false} NotesNamed<T>(xs: seq<T>, keep: T -> bool, note: T -> Issue,
                                         name: T -> string, message: string -> string, v: string)
    requires forall a :: note(a).message == message(name(a))
    requires forall a, b | message(a) == message(b) :: a == b
    ensures (exists x | x in Notes(xs, keep, note) :: x.message == message(v))
            <==> exists a | a in xs :: keep(a) && name(a) == v
  {
    if xs != [] {
      NotesNamed(xs[1..], keep, note, name, message, v);
      var head := if keep(xs[0]) then [note(xs[0])] else [];
      assert Notes(xs, keep, note) == head + Notes(xs[1..], keep, note);
      assert xs[0] in xs;
      assert forall a | a in xs[1..] :: a in xs;
      assert forall a | a in xs && a != xs[0] :: a in xs[1..];
    }
  }

  // ---------------------------------------------------------------------------
  // Reports assembled from one section per rule
  // ---------------------------------------------------------------------------

  /** Every section holds issues of its own rule only. */
  ghost predicate SectionsByRule(section: RuleId -> seq<Issue>)
  {
    forall k, x | x in section(k) :: x.rule == k
  }

  /** No rule is listed twice. */
  predicate Distinct(ks: seq<RuleId>)
  {
    forall i, j | 0 <= i < j < |ks| :: ks[i] != ks[j]
  }

  /** A list is free of repeats when some function maps each entry back to
      its position. */
  lemma DistinctByPosition(ks: seq<RuleId>, position: RuleId -> int)
    requires forall i | 0 <= i < |ks| :: position(ks[i]) == i
    ensures Distinct(ks)
  {
  }

  /** The sections of the rules `ks`, in that order. */
  function Assemble(section: RuleId -> seq<Issue>, ks: seq<RuleId>): seq<Issue>
  {
    if ks == [] then [] else section(ks[0]) + Assemble(section, ks[1..])
  }

  /** An assembled report holds an issue exactly when the section of its
      rule does and that rule is listed. */
  lemma {:induction false} AssembleMember(section: RuleId -> seq<Issue>, ks: seq<RuleId>, x: Issue)
    requires SectionsByRule(section)
    ensures x in Assemble(section, ks) <==> x.rule in ks && x in section(x.rule)
  {
    if ks != [] {
      AssembleMember(section, ks[1..], x);
      assert ks == [ks[0]] + ks[1..];
    }
  }

  /** An assembled report holds, for each listed rule, exactly as many issues
      of that rule as its section, and none of any rule not listed. */
  lemma {:induction false} AssembleCount(section: RuleId -> seq<Issue>, ks: seq<RuleId>, rule: RuleId)
    requires SectionsByRule(section)
    requires Distinct(ks)
    ensures CountRule(Assemble(section, ks), rule) == if rule in ks then |section(rule)| else 0
  {
    if ks != [] {
      assert Distinct(ks[1..]);
      AssembleCount(section, ks[1..], rule);
      CountRuleAppend(section(ks[0]), Assemble(section, ks[1..]), rule);
      CountRuleUniform(section(ks[0]), ks[0], rule);
      assert ks == [ks[0]] + ks[1..];
      assert ks[0] !in ks[1..];
    }
  }

  // ---------------------------------------------------------------------------
  // Severity summary
  // ---------------------------------------------------------------------------

  /** The number of issues whose severity is named `sev`. */
  function CountSeverity(issues: seq<Issue>, sev: string): nat
  {
    if |issues| == 0 then 0
    else (if issues[0].severity.Name() == sev then 1 else 0) + CountSeverity(issues[1..], sev)
  }

  lemma {:induction false} CountSeverityLast(issues: seq<Issue>, sev: string)
    requires |issues| > 0
    ensures CountSeverity(issues, sev)
         == CountSeverity(issues[..|issues| - 1], sev) + (if issues[|issues| - 1].severity.Name() == sev then 1 else 0)
  {
    if |issues| > 1 {
      assert issues[1..][..|issues| - 2] == issues[..|issues| - 1][1..];
      CountSeverityLast(issues[1..], sev);
    }
  }

  lemma {:induction false} CountSeverityAbsent(issues: seq<Issue>, sev: string)
    requires sev !in SeveritiesOf(issues)
    ensures CountSeverity(issues, sev) == 0
  {
    if |issues| > 0 {
      assert issues[0] in issues;
      assert SeveritiesOf(issues[1..]) <= SeveritiesOf(issues);
      CountSeverityAbsent(issues[1..], sev);
    }
  }

  /** The names of the severities that occur in `issues`. */
  function SeveritiesOf(issues: seq<Issue>): set<string>
  {
    set x | x in issues :: x.severity.Name()
  }

  /** `acc[sev] = (acc[sev] || 0) + 1`. */
  function Bump(acc: map<string, nat>, sev: string): map<string, nat>
  {
    acc[sev := if sev in acc then acc[sev] + 1 else 1]
  }

  /** `issues.reduce(...)` into an object keyed by severity name: the keys
      are exactly the severity names that occur, each mapped to its count. */
  function Summarize(issues: seq<Issue>): (m: map<string, nat>)
    ensures m.Keys == SeveritiesOf(issues)
    ensures forall sev | sev in m :: m[sev] == CountSeverity(issues, sev)
    decreases |issues|
  {
    if |issues| == 0 then map[]
    else
      var init := issues[..|issues| - 1];
      var last := issues[|issues| - 1];
      assert issues == init + [last];
      var m := Bump(Summarize(init), last.severity.Name());
      assert SeveritiesOf(issues) == SeveritiesOf(init) + {last.severity.Name()};
      forall sev | sev in m
        ensures m[sev] == CountSeverity(issues, sev)
      {
        CountSeverityLast(issues, sev);
        if sev !in SeveritiesOf(init) {
          CountSeverityAbsent(init, sev);
        }
      }
      m
  }

  /** The sum of a summary's counts. */
  ghost function Total(m: map<string, nat>): nat
    decreases |m|
  {
    if m == map[] then 0
    else
      var k :| k in m;
      m[k] + Total(m - {k})
  }

  /** `Total` does not depend on which key it takes first. */
  lemma {:induction false} TotalRemove(m: map<string, nat>, k: string)
    requires k in m
    ensures Total(m) == m[k] + Total(m - {k})
    decreases |m|
  {
    var j :| j in m && Total(m) == m[j] + Total(m - {j});
    if j != k {
      var mj := m - {j};
      var mk := m - {k};
      assert mj.Keys == m.Keys - {j};
      assert mk.Keys == m.Keys - {k};
      TotalRemove(mj, k);
      TotalRemove(mk, j);
      assert mj - {k} == mk - {j};
    }
  }

  lemma TotalBump(m: map<string, nat>, sev: string)
    ensures Total(Bump(m, sev)) == Total(m) + 1
  {
    var b := Bump(m, sev);
    TotalRemove(b, sev);
    assert b - {sev} == m - {sev};
    if sev in m {
      TotalRemove(m, sev);
    } else {
      assert m - {sev} == m;
    }
  }

  /** The counts of a summary add up to the number of issues. */
  lemma {:induction false} SummaryTotal(issues: seq<Issue>)
    ensures Total(Summarize(issues)) == |issues|
    decreases |issues|
  {
    if |issues| > 0 {
      SummaryTotal(issues[..|issues| - 1]);
      TotalBump(Summarize(issues[..|issues| - 1]), issues[|issues| - 1].severity.Name());
    }
  }
}
