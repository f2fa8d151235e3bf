# NativeScript lint core, modelled in Dafny

This project models the heuristic lint pipeline of a NativeScript project
analyzer. Every rule is a pure function from a file's text and path to a list of
issues. `analyzeFile` picks a rule set from the file's base name, concatenates
the issues the rules return, and folds them into a count per severity.

The model covers:

- `lib/rules/no-packagejson-import.js`: the source-file extension gate, the
  per-line scan for the five package.json import forms with comment-line
  skipping and 1-based line/column numbers, the version-access scan that does
  not re-flag a line already flagged, and `checkBundle`'s reference count.
- `lib/analyzers.js`: `basicTextChecks`, and `analyzeFile`'s file-name dispatch
  (Gradle, then `package.json`, then Android manifest, else source file), its
  `try`/`catch` around each rule, the second NativeScript pass outside any
  `try`, and the severity summary.
- `lib/rules/variables.js`, `lib/rules/methods.js`,
  `lib/rules/android-manifest.js` and `lib/rules/security.js`: every check of
  each rule, in report order, with their thresholds, exception lists,
  path exclusions and "A present and B absent" gates.

How the model is built:

- Regular expressions. Every non-literal JavaScript regular expression is an
  abstract match oracle, `Oracle.Engine = (Pattern, string) -> seq<Match>`. A
  `Match` is the match index plus its capture groups. A missing group reads as
  the empty string.
- Literal tests. Patterns that are plain literals, or alternations of
  literals only tested for presence, are concrete substring tests or counts
  on `seq<char>`, made on the ASCII-lowered text when the pattern ignores
  case (as for the test-path check of the variables rule and the encoded
  `%2Fpackage.json` reference); so are `includes`, `indexOf` and
  `substring`. Alternations whose matched text is used (the component tags
  of the manifest rule) remain oracles.
- Rule shape. Each rule module follows the same layout:
  - `Scan` collects what the patterns find into a `Findings` record;
  - `Section(f, rule)` is the issues of one rule;
  - the report is the sections concatenated in the rule's source order.
  The generic lemmas `Issues.AssembleCount` and `Issues.AssembleMember` lift
  per-section facts to the whole report.
- Throwing rules. A rule that throws is `RuleResult.Threw`. The Android
  manifest rule would throw if a risky launch mode were found but no
  `android:launchMode` value could be read (it reads `match[1]` of a null
  match). With the source's two patterns this cannot happen, since every
  risky match is also a value match. The model keeps the branch for an
  engine on which the two patterns disagree. `AndroidManifest.LaunchModeReported`
  states that the rule returns whenever they agree.
- Rejection. A source file whose second NativeScript call throws gets
  `Analysis.Rejected`, because that call is outside any `try`.
- Outside inputs. The rule modules whose code is not part of this model, and
  the TypeScript ESLint and compiler results, are inputs:
  - `Analyzers.Environment` carries them;
  - `Analyzers.Outputs` holds what every rule and tool returned for one file.

## Model

| member | source | states |
|---|---|---|
| Text.IndexOf | lib/rules/android-manifest.js:8 | `indexOf` is -1 exactly when the text does not occur; otherwise it is an occurrence with none before it |
| Text.TrimStart | lib/rules/no-packagejson-import.js:49 | `trim` drops exactly the leading JavaScript white space: what remains is a suffix that starts with a non-space |
| Text.TrimEnd | lib/rules/no-packagejson-import.js:49 | `trim` drops exactly the trailing JavaScript white space: what remains is a prefix that ends with a non-space |
| Text.Split | lib/rules/no-packagejson-import.js:26 | `split('\n')` yields one more piece than there are newlines, none containing a newline |
| Text.SplitJoin | lib/rules/no-packagejson-import.js:26 | joining the pieces of `split('\n')` with newlines gives back the text |
| Text.Extname | lib/rules/no-packagejson-import.js:21 | `path.extname` is the base name's suffix from its last `.`; it is empty exactly when the base name is `..` or has no `.` after its first character, so a dot-file has no extension; otherwise it is a `.` followed by no further `.` or `/` |
| Decimal.ValueShow | lib/rules/no-packagejson-import.js:215 | a count written in decimal into a message reads back as the same number |
| Decimal.CountRoundTrip | lib/rules/variables.js:26 | a message made of a prefix, a count and a non-digit tail yields exactly that count when read back |
| Issues.Summarize | lib/analyzers.js:140-142 | the summary's keys are exactly the severity names that occur, each mapped to the number of issues with that severity |
| Issues.TotalBump | lib/analyzers.js:82 | counting one more issue of a severity raises the summary's total by one, whether or not the key existed |
| Issues.SummaryTotal | lib/analyzers.js:140-142 | the summary's counts add up to the number of issues |
| PackageJsonImport.FormIssues | lib/rules/no-packagejson-import.js:56-151 | one issue per match of a form, in match order, each at its match's 1-based column on the current line |
| PackageJsonImport.LineIssues | lib/rules/no-packagejson-import.js:45-151 | a line whose trimmed text starts with `//`, `*` or `/*` yields nothing; any other line yields one issue per match of the five forms, all on that line |
| PackageJsonImport.LineIssuesMember | lib/rules/no-packagejson-import.js:45-151 | an issue belongs to a line exactly when the line is not a comment line and the issue is the one some match of one of the five forms on that line yields, with that form's rule, severity and message, the line's number and the match's 1-based column |
| PackageJsonImport.ScanLines | lib/rules/no-packagejson-import.js:26-152 | every per-line issue lies on a line from 1 to the number of `\n`-split lines, that line is not a comment line, and its column is at least 1 |
| PackageJsonImport.GatherHas | lib/rules/no-packagejson-import.js:45-46 | visiting the lines in order and numbering each from 1 collects exactly the issues each line yields, when every issue carries its line's number |
| PackageJsonImport.GatherByLine | lib/rules/no-packagejson-import.js:45-46 | the issues collected for line `n` are, in order, exactly the issues that line yields: none dropped, repeated or moved to another line |
| PackageJsonImport.GatherInOrder | lib/rules/no-packagejson-import.js:45-46 | the collected issues never go back to an earlier line |
| PackageJsonImport.ScanLinesMember | lib/rules/no-packagejson-import.js:26-152 | the per-line scan holds an issue exactly when it is numbered with a line of the file that is not a comment line and is the issue of some form match on that line: every match is reported, and every issue has its match |
| PackageJsonImport.ScanLinesByLine | lib/rules/no-packagejson-import.js:26-152 | for each line `n` of the file, the scan's issues on line `n`, in order, are exactly that line's issues (none for a line number outside the file), and line numbers never decrease along the scan |
| PackageJsonImport.LineMatchScanned | lib/rules/no-packagejson-import.js:45-152 | the issue of a form match on a non-comment line is among the per-line issues |
| PackageJsonImport.LineAt | lib/rules/no-packagejson-import.js:165 | the version-access line is one plus the number of newlines before the match, and lies within the `\n`-split lines |
| PackageJsonImport.VersionScan | lib/rules/no-packagejson-import.js:162-181 | the scan only appends to the issues found so far, and everything it appends is the `info` version-access issue on a line of the file |
| PackageJsonImport.VersionScanPlaced | lib/rules/no-packagejson-import.js:165-178 | if every issue found so far sits on a line of the file with its rule's severity, so does every issue after the scan |
| PackageJsonImport.VersionScanSound | lib/rules/no-packagejson-import.js:162-179 | each appended version issue is on the line of a match whose lower-cased receiver is a package name, and no earlier issue is on that line |
| PackageJsonImport.VersionScanComplete | lib/rules/no-packagejson-import.js:162-179 | after the scan, the line of every qualifying match carries some issue |
| PackageJsonImport.VersionAfterLines | lib/rules/no-packagejson-import.js:167-169 | after the per-line issues, each version issue comes from a qualifying match and is the only issue on its line up to that point |
| PackageJsonImport.Check | lib/rules/no-packagejson-import.js:17-24 | a file whose lower-cased extension is not `.ts`/`.js`/`.tsx`/`.jsx`/`.mjs`/`.cjs` gets no issues; every issue lies on a line of the file with its rule's severity |
| PackageJsonImport.CheckKeepsLines | lib/rules/no-packagejson-import.js:26-184 | for a source file the rule's result starts with the per-line issues, unchanged; the version scan only appends |
| PackageJsonImport.ImportMatchReported | lib/rules/no-packagejson-import.js:17-184 | in a source file, every match of an import form on a non-comment line is in the rule's result as that match's issue (on that line, at the match's column) |
| PackageJsonImport.ImportIssueFromMatch | lib/rules/no-packagejson-import.js:17-184 | every issue of the rule that is not a version read lies on a non-comment line of the file and is the issue of some form match on that line |
| PackageJsonImport.VersionAccessSound | lib/rules/no-packagejson-import.js:157-181 | a version issue appears only when the text contains `.version` and `package` or `pkg`, and then only on a fresh line of a qualifying match |
| PackageJsonImport.VersionAccessComplete | lib/rules/no-packagejson-import.js:157-181 | for a source file passing that gate, every qualifying `.version` match's line carries an issue |
| PackageJsonImport.CheckBundle | lib/rules/no-packagejson-import.js:191-224 | at most one issue, present exactly when some reference is found; it is an `error` whose message reports the summed match count of the four patterns |
| PackageJsonImport.BundleAliasCountedTwice | lib/rules/no-packagejson-import.js:196-199 | a `~/package.json` reference is counted at least twice, since `/package.json` matches inside it |
| BasicChecks.HttpIssues | lib/analyzers.js:56-59 | one issue per `http://` URL match, in order |
| BasicChecks.Section | lib/analyzers.js:52-65 | each section holds only its own rule's issues, with that rule's severity and no position |
| BasicChecks.Check | lib/analyzers.js:52-65 | every basic-check issue has its rule's severity: `warn` for `no-var` and `log-sensitive`, `high` for the rest |
| BasicChecks.ReportCount | lib/analyzers.js:52-65 | the basic-check result holds as many issues of each rule as that rule's section, and none of other rules |
| BasicChecks.ReportMember | lib/analyzers.js:52-65 | an issue is in the basic-check result exactly when it is in its own rule's section |
| BasicChecks.SectionCounts | lib/analyzers.js:54-63 | at most one `no-var` and one `no-eval` issue; one credential issue per secret match and one `log-sensitive` issue per sensitive console call |
| BasicChecks.HttpFlagged | lib/analyzers.js:56-59 | a URL is reported exactly when the text contains `http://` or `https://` and the URL is among the `http://` matches |
| Analyzers.Classify | lib/analyzers.js:75-103 | the branch is the first of Gradle, `package.json` and manifest whose test the lower-cased base name passes: Gradle exactly when it contains `build.gradle` or `gradle-wrapper.properties`; `package.json` exactly when it is not Gradle and is that exact name; manifest exactly when it is neither and contains `androidmanifest.xml` or `manifestxml` |
| Analyzers.Finish | lib/analyzers.js:140-144 | a finished report keeps its issues and carries a summary that agrees with them |
| Analyzers.EslintIssues | lib/analyzers.js:118-126 | ESLint issues are recorded exactly for `.ts`/`.tsx` files whose analyzer produced a non-empty list, and then are exactly that list |
| Analyzers.Dispatch | lib/analyzers.js:73-145 | every report that is produced carries a summary that agrees with its issues |
| Analyzers.RejectedExactly | lib/analyzers.js:136-137 | the analysis is rejected exactly when the file is a source file and the NativeScript rule throws |
| Analyzers.SummaryAgrees | lib/analyzers.js:140-142 | in every produced report, the summary has one key per occurring severity, the right count for each, and counts adding up to the number of issues |
| Analyzers.ConfigFileOwnRule | lib/analyzers.js:79-103 | a Gradle, `package.json` or manifest file gets a report whose issues are exactly its own rule's (none if that rule throws), with no ESLint or compiler results, whatever the source-code rules return |
| Analyzers.ManifestThrowEmpties | lib/analyzers.js:97-103 | a manifest whose rule throws still gets a report, with no issues and an empty summary |
| Analyzers.DispatchByContribution | lib/analyzers.js:106-115 | a source file's analysis depends on the rule modules only through the issues they contribute |
| Analyzers.ImportsThrowIsSilent | lib/analyzers.js:111 | the imports rule throwing gives the same analysis as it returning nothing |
| Analyzers.PerformanceThrowIsSilent | lib/analyzers.js:114 | the performance rule throwing gives the same analysis as it returning nothing |
| Analyzers.CodeQualityThrowIsSilent | lib/analyzers.js:115 | the code-quality rule throwing gives the same analysis as it returning nothing |
| Analyzers.DiagnosticReported | lib/analyzers.js:128-133 | for a source file that is not rejected, every compiler diagnostic appears in the report as an `error` issue of rule `tsc` with its message and code, and the diagnostics are recorded in the meta |
| Analyzers.NativeScriptTwice | lib/analyzers.js:113-137 | for a source file, each NativeScript issue rule occurs in the report at least twice as often as in one NativeScript result |
| Variables.CountNote | lib/rules/variables.js:23-27 | a count message reads back as the exact count it reports |
| Variables.VarIssues | lib/rules/variables.js:12-17 | one `warn` `no-var` issue per `var` declaration match |
| Variables.MagicNumbers | lib/rules/variables.js:42-44 | no kept number is `1000` or `1024`, and there are no more than there are matches |
| Variables.MagicNumbersExact | lib/rules/variables.js:42-51 | a number is kept exactly when some match captured it and it is not `1000` or `1024` |
| Variables.MagicNumbersCount | lib/rules/variables.js:42-51 | a number is kept once per match that captured it, and never when it is `1000` or `1024` |
| Variables.MagicIssuesCount | lib/rules/variables.js:43-51 | the issues naming a number are as many as the times it was kept |
| Variables.MagicIssues | lib/rules/variables.js:43-51 | one `info` `magic-number` issue per kept number |
| Variables.TodoIssues | lib/rules/variables.js:54-59 | one `info` `todo-comment` issue per marker match |
| Variables.Section | lib/rules/variables.js:11-83 | each section holds only its own rule's issues, with that rule's severity and no position |
| Variables.Check | lib/rules/variables.js:2-86 | every issue of the rule carries its rule's severity and no position |
| Variables.ReportCount | lib/rules/variables.js:2-86 | the rule's result holds as many issues of each rule as its section, and none of other rules |
| Variables.ReportMember | lib/rules/variables.js:2-86 | an issue is in the rule's result exactly when it is in its own rule's section |
| Variables.VarIssuesNamed | lib/rules/variables.js:12-17 | an identifier is named in a `no-var` message exactly when some `var` match captured it |
| Variables.VarSection | lib/rules/variables.js:6-17 | one `no-var` issue per `var` match in the text with import and export lines blanked, naming exactly the captured identifiers |
| Variables.ConsoleSection | lib/rules/variables.js:20-29 | at most one `too-many-console` issue, present exactly when the path is not a test/spec path and there are more than 5 console calls; its message reports the exact count |
| Variables.AnySection | lib/rules/variables.js:32-39 | at most one `no-any` issue, present exactly when some `: any` matches; its message reports the exact count |
| Variables.MagicSection | lib/rules/variables.js:42-51 | a number is reported exactly when some 4+-digit match captured it and it is neither `1000` nor `1024` |
| Variables.MagicSectionCount | lib/rules/variables.js:42-51 | the issues naming a number are exactly as many as the matches that captured it, and none for `1000` or `1024` |
| Variables.TodoSection | lib/rules/variables.js:54-59 | one issue per marker match, in order; the i-th message is the i-th marker upper-cased, then `: `, then the text after the marker with surrounding whitespace removed |
| Variables.EmptyCatchSection | lib/rules/variables.js:62-69 | at most one `empty-catch` issue, present exactly when an empty catch block matches |
| Variables.HardcodedSection | lib/rules/variables.js:76-83 | at most one `hardcoded-strings` issue, present exactly when there are more than 10 matches and the path contains neither `i18n` nor `locale`; its message reports the exact count |
| Variables.MethodCallIgnored | lib/rules/variables.js:72-73 | the method-call matches computed by the rule never change its result |
| Variables.ScanIgnoresMethodCall | lib/rules/variables.js:72-73 | what the rule's patterns find does not depend on the method-call pattern |
| Methods.AsyncIssues | lib/rules/methods.js:5-14 | no more `async-no-await` issues than async declaration matches, all `warn` |
| Methods.UnusedIssues | lib/rules/methods.js:17-21 | no more `unused-func` issues than function declaration matches, all `info` |
| Methods.Section | lib/rules/methods.js:4-27 | each section holds only its own rule's issues, with severity `warn` or `info` as the rule demands, and no position |
| Methods.Check | lib/rules/methods.js:2-30 | every issue of the rule is `warn` or `info` according to its rule |
| Methods.ReportCount | lib/rules/methods.js:2-30 | the rule's result holds as many issues of each rule as its section, and none of other rules |
| Methods.ReportMember | lib/rules/methods.js:2-30 | an issue is in the rule's result exactly when it is in its own rule's section |
| Methods.AsyncFlagged | lib/rules/methods.js:5-14 | a function is named exactly when some async function of that name has a found body that lacks `await` and calls `fetch`, `axios` or `.then(` |
| Methods.UnusedFlagged | lib/rules/methods.js:17-21 | a function is named exactly when it is declared and its whole-word occurrence count is exactly 1 |
| Methods.PromiseSection | lib/rules/methods.js:24-27 | at most one `promise-no-catch` issue, present exactly when some `.then(` exists and no `.catch(` does |
| AndroidManifest.Window | lib/rules/android-manifest.js:8 | the text searched after a component tag is at most 500 characters long |
| AndroidManifest.WindowStart | lib/rules/android-manifest.js:8 | the window starts at the tag's first occurrence, or is the first 499 characters when the tag text does not occur |
| AndroidManifest.SameTagSameVerdict | lib/rules/android-manifest.js:6-15 | component matches with the same text get the same exported verdict |
| AndroidManifest.ExportedIssues | lib/rules/android-manifest.js:6-15 | no more exported-component issues than component matches, all `high` |
| AndroidManifest.PermissionIssues | lib/rules/android-manifest.js:18-39 | no more dangerous-permission issues than listed permissions, all `warn` |
| AndroidManifest.LaunchModeIssues | lib/rules/android-manifest.js:42-49 | launch-mode issues are `info` |
| AndroidManifest.Section | lib/rules/android-manifest.js:5-147 | each section holds only its own rule's issues, with that rule's severity and no position |
| AndroidManifest.Check | lib/rules/android-manifest.js:2-150 | the rule throws exactly when the risky launch-mode pattern matches but the value pattern finds nothing (impossible with the source's two patterns, see AndroidManifest.LaunchModeReported); otherwise every issue has its rule's severity |
| AndroidManifest.ReportCount | lib/rules/android-manifest.js:2-150 | the rule's result holds as many issues of each rule as its section, and none of other rules |
| AndroidManifest.ReportMember | lib/rules/android-manifest.js:2-150 | an issue is in the rule's result exactly when it is in its own rule's section |
| AndroidManifest.ExportedFlagged | lib/rules/android-manifest.js:6-15 | a tag is named exactly when some component match with that text has no `android:exported="false"` in its window |
| AndroidManifest.PermissionFlagged | lib/rules/android-manifest.js:18-39 | a permission is named exactly when it is one of the listed dangerous permissions and its pattern matches |
| AndroidManifest.LaunchModeSection | lib/rules/android-manifest.js:42-49 | at most one launch-mode issue, present exactly when a risky mode matches and a value is read; it quotes the first `android:launchMode` value, not necessarily the risky one |
| AndroidManifest.LaunchModeReported | lib/rules/android-manifest.js:42-49 | when every risky launch-mode match comes with a readable value, as with the source's patterns, the rule returns, and a risky mode is reported quoting the first value read |
| AndroidManifest.FlagSection | lib/rules/android-manifest.js:51-147 | every other manifest check reports at most once, exactly when its condition holds, with its fixed message |
| AndroidManifest.SdkChecks | lib/rules/android-manifest.js:81-96 | with `uses-sdk` present neither SDK issue fires; otherwise `android-no-min-sdk` fires exactly when `android:minSdkVersion` is absent, and `android-no-target-sdk` likewise for `android:targetSdkVersion` |
| AndroidManifest.PermissionAttributeProtects | lib/rules/android-manifest.js:99-129 | an `android:permission` anywhere silences the provider, receiver and service checks |
| AndroidManifest.ComponentChecksNeedTag | lib/rules/android-manifest.js:99-129 | the provider, receiver and service checks fire only when `<provider`, `<receiver` or `<service` occurs |
| Security.HttpIssues | lib/rules/security.js:26-33 | no more insecure-HTTP issues than `http://` URL matches, all `high` |
| Security.RegexIssues | lib/rules/security.js:70-76 | no more ReDoS issues than regular-expression literal matches, all `warn` |
| Security.Section | lib/rules/security.js:5-95 | each section holds only its own rule's issues, with that rule's severity and no position |
| Security.Check | lib/rules/security.js:2-98 | every issue of the rule carries its rule's severity and no position |
| Security.ReportCount | lib/rules/security.js:2-98 | the rule's result holds as many issues of each rule as its section, and none of other rules |
| Security.ReportMember | lib/rules/security.js:2-98 | an issue is in the rule's result exactly when it is in its own rule's section |
| Security.FlagSection | lib/rules/security.js:13-95 | every check but the URL and regex ones reports at most once, exactly when its condition holds, with its fixed message |
| Security.SecretRaised | lib/rules/security.js:6-15 | each of the five secret rules is reported, once, exactly when its pattern matches |
| Security.HttpFlagged | lib/rules/security.js:26-33 | a URL is reported exactly when it is an `http://` match containing neither `localhost` nor `127.0.0.1` |
| Security.RegexFlagged | lib/rules/security.js:70-76 | a regular-expression literal is reported exactly when it shows a nested quantifier |
| Security.SecureStorageSilences | lib/rules/security.js:18-23 | a mention of `SecureStorage` silences both the storage and the file-write checks |
| Security.SecureMentionSilences | lib/rules/security.js:41-83 | a mention of `secure` silences both the SSL-configuration and the pinning checks |
| Security.InputChecksNeedInput | lib/rules/security.js:46-56 | `no-input-validation` fires only when user input is read; `potential-xss` fires exactly when user input is read, the DOM is written and no sanitizing word occurs |

## Left out

- The 16 KB page-size ELF alignment checks, archive scanning and dependency-version audits: none of their code is in the source files modelled here.
- `index.js` (file discovery by glob, file reads and writes, JSON report output, command-line handling, `process.exit`): it is I/O glue.
- The TypeScript compiler and the TypeScript ESLint analyzer (lib/analyzers.js:2-10, 26-50): foreign libraries. Their results for a file are inputs, an optional issue list and an optional diagnostic list. The compiler reads the file from disk rather than from the content; the model does not see that difference.
- The rule modules `imports`, `nativescript`, `performance`, `code-quality`, `gradle` and `package-json`: their code is not part of this model. Each is a parameter `(content, filePath) -> RuleResult`. The NativeScript rule is assumed to return the same result on both of its calls for one file.
- Regular-expression semantics: every non-literal pattern is an oracle, so properties about what a pattern matches are out of reach. This includes the `g`-flag `lastIndex` state, which the source resets after each loop, and the multi-line anchors.
- The permission pattern in lib/rules/android-manifest.js:32 is built in a template literal where `\s` becomes a plain `s`. The oracle pattern `DangerousPermission(p)` stands for the pattern as built, whatever it matches.
- In lib/rules/methods.js:7 and 19 a captured name containing `$` is spliced into a new pattern, where `$` is an anchor. The oracle patterns `AsyncBody(name)` and `WholeWord(name)` stand for those patterns as built.
- Text.Lower: maps only the ASCII letters; `toLowerCase` on other letters is not modelled.
- Text.Upper: maps only the ASCII letters; `toUpperCase` on other letters is not modelled.
- Text.Basename: POSIX separators only; Windows paths are not modelled.
- The `evidence`, `fix` and `file` fields of issues: they are not read by any modelled code and are left out of `Issue`.
- The summary is a map, so the insertion order of its keys is not modelled. Severity names that collide with `Object.prototype` members (such as `constructor`) would count differently in JavaScript; the model counts them like any other name.
- AndroidManifest.PermissionIssues: states only an upper bound on the number of issues; which permissions are named is stated by AndroidManifest.PermissionFlagged. That each listed permission yields at most one issue, however often it appears, is not stated as a count.
- AndroidManifest.LaunchModeIssues: states only the rule and severity of its issues; their number and message are stated by AndroidManifest.LaunchModeSection.
- Methods.AsyncIssues: states only an upper bound on the number of issues; which functions are named is stated by Methods.AsyncFlagged.
- Methods.UnusedIssues: states only an upper bound on the number of issues; which functions are named is stated by Methods.UnusedFlagged.
- Security.HttpIssues: states only an upper bound on the number of issues; which URLs are named is stated by Security.HttpFlagged.
- Security.RegexIssues: states only an upper bound on the number of issues; which literals are named is stated by Security.RegexFlagged.
- AndroidManifest.ExportedIssues: states only an upper bound on the number of issues; which tags are named is stated by AndroidManifest.ExportedFlagged.
- The computed `unsafeAccess` matches in lib/rules/variables.js:72 are never reported. Variables.MethodCallIgnored states that they do not affect the result; the oracle call itself is not modelled as a separate step.
- Text lengths and positions: Dafny strings are sequences of Unicode scalar values, while JavaScript counts UTF-16 code units. For text outside the Basic Multilingual Plane, the 500-character window (AndroidManifest.Window), `substring` (Text.JsSubstring), the match indexes from which the version-access line is found (PackageJsonImport.LineAt) and the import columns would differ from the source.
- AndroidManifest.Check: its throw is modelled for an engine on which the risky launch-mode pattern and the value pattern disagree. With the source's patterns the rule never throws; AndroidManifest.LaunchModeReported states this under the agreement of the two patterns, since the patterns themselves are oracles.
