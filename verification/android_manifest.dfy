/** lib/rules/android-manifest.js: security checks on AndroidManifest.xml.

    The rule's `check` reports, in this order: exported components without
    an `android:exported="false"` nearby, requested dangerous permissions, a
    risky launch mode, intent schemes without path validation, cleartext
    traffic, a debuggable build, missing SDK declarations, content providers,
    broadcast receivers and services without protection, enabled backups,
    and plugins used without a `<queries>` element.

    Two behaviours of the source are kept as written. Each matched component
    tag is judged by the 500 characters after the FIRST occurrence of its
    text, so all matches with the same text get the same verdict. And the
    launch-mode issue quotes the first `android:launchMode` value in the
    file, which need not be the risky one. The rule's throw, when the risky
    launch mode matches but no value can be read, cannot happen with the
    source's two patterns (every risky match is also a value match); the
    model keeps it as the case of an engine where the two disagree. */
module AndroidManifest {
  import opened Wrappers
  import opened Text
  import opened Issues
  import opened Oracle

  function RuleSeverity(rule: RuleId): Option<Severity>
  {
    if rule == AndroidExportedComponent || rule == AndroidCleartextTraffic
       || rule == AndroidDebuggable || rule == AndroidProviderUnprotected then Some(High)
    else if rule == AndroidDangerousPermission || rule == AndroidSchemeValidation || rule == AndroidNoMinSdk
       || rule == AndroidReceiverUnprotected || rule == AndroidServiceUnprotected then Some(Warn)
    else if rule == AndroidLaunchMode || rule == AndroidNoTargetSdk || rule == AndroidBackupEnabled
       || rule == AndroidMissingQueries then Some(Info)
    else None
  }

  /** Every issue carries its rule's severity and no position. */
  predicate Conforms(x: Issue)
  {
    RuleSeverity(x.rule) == Some(x.severity) && x.line == None && x.column == None
  }

  /** The permissions the rule treats as dangerous, in report order. */
  const DangerousPermissions: seq<string> := [
    "android.permission.RECORD_AUDIO",
    "android.permission.CAMERA",
    "android.permission.ACCESS_FINE_LOCATION",
    "android.permission.ACCESS_COARSE_LOCATION",
    "android.permission.READ_CONTACTS",
    "android.permission.READ_CALENDAR",
    "android.permission.WRITE_EXTERNAL_STORAGE",
    "android.permission.READ_EXTERNAL_STORAGE",
    "android.permission.CALL_PHONE",
    "android.permission.SEND_SMS"
  ]

  /** The number of characters after a component tag searched for
      `android:exported="false"`. */
  const WindowSize := 500

  // ---------------------------------------------------------------------------
  // What the patterns find
  // ---------------------------------------------------------------------------

  /** `content.substring(content.indexOf(tag), content.indexOf(tag) + 500)`. */
  function Window(content: string, tag: string): (w: string)
    ensures |w| <= WindowSize
  {
    var i := IndexOf(content, tag);
    JsSubstring(content, i, i + WindowSize)
  }

  /** A matched component tag (as written in the file, in any case) and
      whether its window marks it `android:exported="false"`. */
  datatype Component = Component(tag: string, unexported: bool)

  /** The literal texts the rule looks for with plain substring tests. */
  const Markers: set<string> := {
    "android:scheme",
    "android:pathPattern",
    "android:pathPrefix",
    "android:mimeType",
    "uses-sdk",
    "android:minSdkVersion",
    "android:targetSdkVersion",
    "android:permission",
    "android:readPermission",
    "android:writePermission",
    "<intent-filter",
    "nativescript-permissions",
    "camera",
    "geolocation",
    "<provider",
    "<receiver",
    "<service",
    "<queries>"
  }

  /** What the rule's patterns find in one manifest. `mentioned` holds the
      markers that occur in the file. */
  datatype Findings = Findings(
    mentioned: set<string>,
    components: seq<Component>,
    requested: set<string>,          // dangerous permissions whose pattern matches
    riskyLaunchMode: bool,
    launchMode: Option<string>,      // the first `android:launchMode` value
    dataHost: bool,
    cleartext: bool,
    debuggable: bool,
    exportedFalse: bool,             // `exported="false"` anywhere
    allowBackup: bool)

  function Scan(re: Engine, content: string): Findings
  {
    var tags := Texts(re, ComponentTag, content);
    var modes := re(LaunchModeValue, content);
    Findings(
      (set t | t in Markers && Contains(content, t) :: t),
      seq(|tags|, i requires 0 <= i < |tags| => Component(tags[i], Test(re, ExportedFalse, Window(content, tags[i])))),
      (set p | p in DangerousPermissions && Test(re, DangerousPermission(p), content) :: p),
      Test(re, RiskyLaunchMode, content),
      if |modes| == 0 then None else Some(Capture(modes[0], 1)),
      Test(re, DataHost, content),
      Test(re, CleartextTrue, content),
      Test(re, DebuggableTrue, content),
      Test(re, LooseExportedFalse, content),
      Test(re, AllowBackupTrue, content))
  }

  // ---------------------------------------------------------------------------
  // The report
  // ---------------------------------------------------------------------------

  const ExportedSuffix := " component may be exported without protection; set android:exported=\"false\" or add intent-filter"

  function ExportedMessage(tag: string): string
  {
    tag + ExportedSuffix
  }

  const PermissionPrefix := "Dangerous permission '"
  const PermissionSuffix := "' requested; ensure runtime permission checks in code"

  function PermissionMessage(permission: string): string
  {
    PermissionPrefix + permission + PermissionSuffix
  }

  lemma PermissionMessageInjective(a: string, b: string)
    requires PermissionMessage(a) == PermissionMessage(b)
    ensures a == b
  {
    SandwichInjective(PermissionPrefix, a, b, PermissionSuffix);
  }

  const LaunchModePrefix := "Launch mode '"
  const LaunchModeSuffix := "' may cause intent hijacking; verify security implications"

  function LaunchModeMessage(mode: string): string
  {
    LaunchModePrefix + mode + LaunchModeSuffix
  }

  /** One issue of `rule`, with the rule's severity, when `cond` holds. */
  function Flag(cond: bool, rule: RuleId, message: string): (r: seq<Issue>)
    requires RuleSeverity(rule).Some?
    ensures |r| == if cond then 1 else 0
    ensures forall x | x in r :: x.rule == rule && x.message == message && Conforms(x)
  {
    FlagIf(cond, Note(RuleSeverity(rule).value, rule, message))
  }

  const SchemeMessage := "Intent scheme defined without path validation; add android:pathPrefix or android:pathPattern"
  const CleartextMessage := "Cleartext (HTTP) traffic allowed; enforce HTTPS for security"
  const DebuggableMessage := "android:debuggable=\"true\" in release manifest; remove for production"
  const MinSdkMessage := "minSdkVersion not defined in manifest; define in build.gradle instead"
  const TargetSdkMessage := "targetSdkVersion not explicitly set; define in build.gradle (preferably 33+)"
  const ProviderMessage := "ContentProvider exposed without permission protection; add android:permission or android:readPermission"
  const ReceiverMessage := "BroadcastReceiver may be unprotected; add android:permission or restrict with intent-filter"
  const ServiceMessage := "Service may be exposed; add android:permission or set android:exported=\"false\""
  const BackupMessage := "android:allowBackup=\"true\" allows app data backup; set to false for sensitive data or use BackupAgent with proper selection"
  const QueriesMessage := "Plugins used but <queries> element not defined; add for Android 11+ compatibility"

  function ExportedNote(tag: string): (x: Issue)
    ensures x.rule == AndroidExportedComponent && x.message == ExportedMessage(tag) && Conforms(x)
  {
    Note(High, AndroidExportedComponent, ExportedMessage(tag))
  }

  function PermissionNote(permission: string): (x: Issue)
    ensures x.rule == AndroidDangerousPermission && x.message == PermissionMessage(permission) && Conforms(x)
  {
    Note(Warn, AndroidDangerousPermission, PermissionMessage(permission))
  }

  function LaunchModeNote(mode: string): (x: Issue)
    ensures x.rule == AndroidLaunchMode && x.message == LaunchModeMessage(mode) && Conforms(x)
  {
    Note(Info, AndroidLaunchMode, LaunchModeMessage(mode))
  }

  /** One issue per matched component whose window lacks
      `android:exported="false"`, in match order. */
  function ExportedIssues(cs: seq<Component>): (r: seq<Issue>)
    ensures |r| <= |cs|
    ensures forall x | x in r :: x.rule == AndroidExportedComponent && Conforms(x)
  {
    Notes(cs, (c: Component) => !c.unexported, (c: Component) => ExportedNote(c.tag))
  }

  /** One issue per listed permission that is requested, in list order. */
  function PermissionIssues(perms: seq<string>, requested: set<string>): (r: seq<Issue>)
    ensures |r| <= |perms|
    ensures forall x | x in r :: x.rule == AndroidDangerousPermission && Conforms(x)
  {
    Notes(perms, (p: string) => p in requested, PermissionNote)
  }

  /** An intent scheme or data host is declared. */
  predicate DeclaresScheme(f: Findings)
  {
    "android:scheme" in f.mentioned || f.dataHost
  }

  predicate ValidatesPath(f: Findings)
  {
    "android:pathPattern" in f.mentioned || "android:pathPrefix" in f.mentioned
    || "android:mimeType" in f.mentioned
  }

  predicate DeclaresMinSdk(f: Findings)
  {
    "uses-sdk" in f.mentioned || "android:minSdkVersion" in f.mentioned
  }

  predicate DeclaresTargetSdk(f: Findings)
  {
    "uses-sdk" in f.mentioned || "android:targetSdkVersion" in f.mentioned
  }

  predicate ProviderProtected(f: Findings)
  {
    "android:permission" in f.mentioned || "android:readPermission" in f.mentioned
    || "android:writePermission" in f.mentioned
  }

  predicate ReceiverProtected(f: Findings)
  {
    "android:permission" in f.mentioned || "<intent-filter" in f.mentioned
  }

  predicate ServiceProtected(f: Findings)
  {
    "android:permission" in f.mentioned || f.exportedFalse
  }

  /** A plugin that needs package visibility is mentioned. */
  predicate UsesPlugins(f: Findings)
  {
    "nativescript-permissions" in f.mentioned || "camera" in f.mentioned
    || "geolocation" in f.mentioned
  }

  /** One issue when a risky launch mode is set and a launch-mode value can
      be read. */
  function LaunchModeIssues(f: Findings): (r: seq<Issue>)
    ensures forall x | x in r :: x.rule == AndroidLaunchMode && Conforms(x)
  {
    if f.riskyLaunchMode && f.launchMode.Some? then [LaunchModeNote(f.launchMode.value)] else []
  }

  /** When each of the single-issue checks reports, after the source's
      conditions; false for every other rule. */
  predicate Raised(f: Findings, rule: RuleId)
  {
    if rule == AndroidSchemeValidation then DeclaresScheme(f) && !ValidatesPath(f)
    else if rule == AndroidCleartextTraffic then f.cleartext
    else if rule == AndroidDebuggable then f.debuggable
    else if rule == AndroidNoMinSdk then !DeclaresMinSdk(f)
    else if rule == AndroidNoTargetSdk then !DeclaresTargetSdk(f)
    else if rule == AndroidProviderUnprotected then "<provider" in f.mentioned && !ProviderProtected(f)
    else if rule == AndroidReceiverUnprotected then "<receiver" in f.mentioned && !ReceiverProtected(f)
    else if rule == AndroidServiceUnprotected then "<service" in f.mentioned && !ServiceProtected(f)
    else if rule == AndroidBackupEnabled then f.allowBackup
    else if rule == AndroidMissingQueries then "<queries>" !in f.mentioned && UsesPlugins(f)
    else false
  }

  /** The fixed message of each single-issue check. */
  function FlagMessage(rule: RuleId): string
  {
    if rule == AndroidSchemeValidation then SchemeMessage
    else if rule == AndroidCleartextTraffic then CleartextMessage
    else if rule == AndroidDebuggable then DebuggableMessage
    else if rule == AndroidNoMinSdk then MinSdkMessage
    else if rule == AndroidNoTargetSdk then TargetSdkMessage
    else if rule == AndroidProviderUnprotected then ProviderMessage
    else if rule == AndroidReceiverUnprotected then ReceiverMessage
    else if rule == AndroidServiceUnprotected then ServiceMessage
    else if rule == AndroidBackupEnabled then BackupMessage
    else QueriesMessage
  }

  /** The section of the report that belongs to `rule`: issues of that rule
      only. */
  function Section(f: Findings, rule: RuleId): (r: seq<Issue>)
    ensures forall x | x in r :: x.rule == rule && Conforms(x)
  {
    if rule == AndroidExportedComponent then ExportedIssues(f.components)
    else if rule == AndroidDangerousPermission then PermissionIssues(DangerousPermissions, f.requested)
    else if rule == AndroidLaunchMode then LaunchModeIssues(f)
    else if RuleSeverity(rule).Some? then Flag(Raised(f, rule), rule, FlagMessage(rule))
    else []
  }

  /** The rule whose section comes `i`-th in the report, counting from 0
      (the first and the last stand for every earlier and later position). */
  function RuleAt(i: int): RuleId
  {
    if i <= 0 then AndroidExportedComponent
    else if i == 1 then AndroidDangerousPermission
    else if i == 2 then AndroidLaunchMode
    else if i == 3 then AndroidSchemeValidation
    else if i == 4 then AndroidCleartextTraffic
    else if i == 5 then AndroidDebuggable
    else if i == 6 then AndroidNoMinSdk
    else if i == 7 then AndroidNoTargetSdk
    else if i == 8 then AndroidProviderUnprotected
    else if i == 9 then AndroidReceiverUnprotected
    else if i == 10 then AndroidServiceUnprotected
    else if i == 11 then AndroidBackupEnabled
    else AndroidMissingQueries
  }

  /** Where `rule`'s section comes in the report, or -1 for a rule this
      file does not report: the inverse of `RuleAt`. */
  function Position(rule: RuleId): int
  {
    match rule
    case AndroidExportedComponent => 0
    case AndroidDangerousPermission => 1
    case AndroidLaunchMode => 2
    case AndroidSchemeValidation => 3
    case AndroidCleartextTraffic => 4
    case AndroidDebuggable => 5
    case AndroidNoMinSdk => 6
    case AndroidNoTargetSdk => 7
    case AndroidProviderUnprotected => 8
    case AndroidReceiverUnprotected => 9
    case AndroidServiceUnprotected => 10
    case AndroidBackupEnabled => 11
    case AndroidMissingQueries => 12
    case _ => -1
  }

  /** The rules of this file, in report order. */
  function Order(): seq<RuleId>
  {
    seq(13, RuleAt)
  }

  function Sections(f: Findings): RuleId -> seq<Issue>
  {
    k => Section(f, k)
  }

  lemma SectionsSound(f: Findings)
    ensures SectionsByRule(Sections(f)) && Distinct(Order())
  {
    OrderDistinct();
  }

  lemma OrderDistinct()
    ensures Distinct(Order())
  {
    PositionInverts();
    DistinctByPosition(Order(), Position);
  }

  /** `Position` undoes `RuleAt` on every position of the report. */
  lemma PositionInverts()
    ensures forall i | 0 <= i < 13 :: Position(RuleAt(i)) == i
  {
  }

  /** The sections in report order. */
  function Report(f: Findings): seq<Issue>
  {
    Assemble(Sections(f), Order())
  }

  /** The launch-mode check reads `match[1]` of a match that does not exist:
      a risky launch mode without a readable value makes the rule throw. */
  predicate Throws(f: Findings)
  {
    f.riskyLaunchMode && f.launchMode.None?
  }

  /** The rule's `check`: it throws exactly as described by `Throws`, and
      otherwise every issue carries its rule's severity and no position. */
  function Check(re: Engine, content: string, filePath: string): (r: RuleResult)
    ensures r.Threw? <==> Test(re, RiskyLaunchMode, content) && |re(LaunchModeValue, content)| == 0
    ensures r.Returned? ==> forall x | x in r.issues :: Conforms(x)
  {
    var f := Scan(re, content);
    if Throws(f) then Threw
    else
      var r := Report(f);
      assert forall x | x in r :: Conforms(x) by {
        forall x | x in r
          ensures Conforms(x)
        {
          SectionsSound(f);
          AssembleMember(Sections(f), Order(), x);
        }
      }
      Returned(r)
  }

  // ---------------------------------------------------------------------------
  // Properties
  // ---------------------------------------------------------------------------

  /** The report holds as many issues of a listed rule as its section, and
      none of any other rule. */
  lemma ReportCount(f: Findings, rule: RuleId)
    ensures CountRule(Report(f), rule) == if rule in Order() then |Section(f, rule)| else 0
  {
    SectionsSound(f);
    AssembleCount(Sections(f), Order(), rule);
  }

  /** The report holds an issue exactly when its rule is listed and its
      rule's section holds it. */
  lemma ReportMember(f: Findings, x: Issue)
    ensures x in Report(f) <==> x.rule in Order() && x in Section(f, x.rule)
  {
    SectionsSound(f);
    AssembleMember(Sections(f), Order(), x);
  }

  /** The window after a tag starts at the tag's first occurrence and holds at
      most 500 characters; for a tag that does not occur (a match the text
      does not contain) it is the first 499 characters. */
  lemma WindowStart(content: string, tag: string)
    ensures Contains(content, tag) ==>
      var i := IndexOf(content, tag);
      Window(content, tag) == content[i..Min(i + WindowSize, |content|)]
      && forall j: nat | j < i :: !OccursAt(content, tag, j)
    ensures !Contains(content, tag) ==> Window(content, tag) == content[..Min(WindowSize - 1, |content|)]
  {
    var i := IndexOf(content, tag);
    if Contains(content, tag) {
      assert 0 <= i <= |content|;
    }
  }

  /** Matches with the same text share one window, so they are all flagged
      or all passed. */
  lemma SameTagSameVerdict(re: Engine, content: string, i: nat, j: nat)
    requires i < |Scan(re, content).components| && j < |Scan(re, content).components|
    requires Scan(re, content).components[i].tag == Scan(re, content).components[j].tag
    ensures Scan(re, content).components[i].unexported == Scan(re, content).components[j].unexported
  {
  }

  /** One exported-component issue names a tag exactly when some matched
      component with that text lacks `android:exported="false"` in its
      window. */
  lemma ExportedFlagged(cs: seq<Component>, tag: string)
    ensures (exists x | x in ExportedIssues(cs) :: x.message == ExportedMessage(tag))
            <==> exists c | c in cs :: c.tag == tag && !c.unexported
  {
    forall a, b | ExportedMessage(a) == ExportedMessage(b)
      ensures a == b
    {
      SuffixInjective(a, b, ExportedSuffix);
    }
    NotesNamed(cs, (c: Component) => !c.unexported, (c: Component) => ExportedNote(c.tag),
               (c: Component) => c.tag, ExportedMessage, tag);
  }

  /** A dangerous-permission issue names a permission exactly when it is one
      of the listed dangerous permissions and its pattern matches. */
  lemma PermissionFlagged(perms: seq<string>, requested: set<string>, p: string)
    ensures (exists x | x in PermissionIssues(perms, requested) :: x.message == PermissionMessage(p))
            <==> p in perms && p in requested
  {
    forall a, b | PermissionMessage(a) == PermissionMessage(b)
      ensures a == b
    {
      PermissionMessageInjective(a, b);
    }
    NotesNamed(perms, (q: string) => q in requested, PermissionNote, (q: string) => q, PermissionMessage, p);
  }

  /** The launch-mode issue, when present, quotes the first launch-mode value
      of the file, whether or not that value is the risky one. */
  lemma LaunchModeSection(f: Findings)
    ensures |Section(f, AndroidLaunchMode)| == if f.riskyLaunchMode && f.launchMode.Some? then 1 else 0
    ensures forall x | x in Section(f, AndroidLaunchMode) :: x.message == LaunchModeMessage(f.launchMode.value)
  {
  }

  /** When the value pattern reads a launch mode wherever the risky pattern
      matches, as the two patterns of the source always do, the rule returns,
      and a risky launch mode is reported quoting the first value read. */
  lemma LaunchModeReported(re: Engine, content: string, filePath: string)
    requires Test(re, RiskyLaunchMode, content) ==> |re(LaunchModeValue, content)| > 0
    ensures Check(re, content, filePath).Returned?
    ensures Test(re, RiskyLaunchMode, content) ==>
      LaunchModeNote(Capture(re(LaunchModeValue, content)[0], 1)) in Check(re, content, filePath).issues
  {
    var f := Scan(re, content);
    if Test(re, RiskyLaunchMode, content) {
      assert f.riskyLaunchMode && f.launchMode == Some(Capture(re(LaunchModeValue, content)[0], 1));
      LaunchModeInReport(f);
    }
  }

  /** A risky launch mode with a readable value puts its issue in the report. */
  lemma LaunchModeInReport(f: Findings)
    requires f.riskyLaunchMode && f.launchMode.Some?
    ensures LaunchModeNote(f.launchMode.value) in Report(f)
  {
    var x := LaunchModeNote(f.launchMode.value);
    assert Section(f, AndroidLaunchMode) == [x];
    assert Order()[2] == AndroidLaunchMode;
    ReportMember(f, x);
  }

  /** The section of a single-issue check holds one issue, with the check's
      message, exactly when the check is raised. */
  lemma FlagSection(f: Findings, rule: RuleId)
    requires rule in Order() && rule != AndroidExportedComponent
    requires rule != AndroidDangerousPermission && rule != AndroidLaunchMode
    ensures |Section(f, rule)| == if Raised(f, rule) then 1 else 0
    ensures forall x | x in Section(f, rule) :: x.message == FlagMessage(rule)
  {
  }

  /** A `uses-sdk` element silences both SDK checks; without it, each is
      raised exactly when its own attribute is missing. */
  lemma SdkChecks(f: Findings)
    ensures "uses-sdk" in f.mentioned ==> !Raised(f, AndroidNoMinSdk) && !Raised(f, AndroidNoTargetSdk)
    ensures "uses-sdk" !in f.mentioned ==>
      && (Raised(f, AndroidNoMinSdk) <==> "android:minSdkVersion" !in f.mentioned)
      && (Raised(f, AndroidNoTargetSdk) <==> "android:targetSdkVersion" !in f.mentioned)
  {
  }

  /** An `android:permission` attribute anywhere silences the provider,
      receiver and service checks together. */
  lemma PermissionAttributeProtects(f: Findings)
    requires "android:permission" in f.mentioned
    ensures !Raised(f, AndroidProviderUnprotected)
    ensures !Raised(f, AndroidReceiverUnprotected)
    ensures !Raised(f, AndroidServiceUnprotected)
  {
  }

  /** Each component check is only raised when its tag occurs. */
  lemma ComponentChecksNeedTag(f: Findings)
    ensures Raised(f, AndroidProviderUnprotected) ==> "<provider" in f.mentioned
    ensures Raised(f, AndroidReceiverUnprotected) ==> "<receiver" in f.mentioned
    ensures Raised(f, AndroidServiceUnprotected) ==> "<service" in f.mentioned
  {
  }
}
