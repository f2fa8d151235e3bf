/** The regular expressions of the lint rules, abstracted as a match oracle.

    Regular-expression matching itself is not modelled. Every pattern a rule
    applies is named by a `Pattern`, and an `Engine` returns, for a pattern
    and a subject text, the list of matches a global scan (`matchAll`,
    `match` with the `g` flag, or an `exec` loop) would produce, in order.
    A non-global `test` or `match` is read as "there is a match" / "the first
    match". A pattern that is a plain literal, or an alternation of literals
    only tested for presence, is not an oracle: the rules test it with
    `Text.Contains` (or count it with `Text.Count`), on the ASCII-lowered
    text when the pattern ignores case. Alternations whose matched texts are
    used (such as the component tags of the manifest rule) stay oracles.
    Every property proved about a rule holds for every engine. */
module Oracle {

  /** One match: where it starts, the matched text, and the captured groups
      (group 1 first). */
  datatype Match = Match(index: nat, text: string, captures: seq<string>)

  /** Capture group `k` (1-based). A group that did not take part in the match
      reads as the empty string. */
  function Capture(m: Match, k: nat): string
  {
    if 1 <= k <= |m.captures| then m.captures[k - 1] else ""
  }

  /** The five hard-coded-secret patterns of lib/rules/security.js. */
  datatype SecretKind = ApiKeySecret | PasswordSecret | TokenSecret | ClientSecret | SigningKeySecret

  datatype Pattern =
    // lib/rules/no-packagejson-import.js, applied to one line at a time except VersionAccess
    | ImportStar            // import * as <ident> from '<..package.json>'; captures ident, path
    | ImportDefault         // import <ident> from '<..package.json>'; captures ident, path
    | ImportNamed           // import { .. } from '<..package.json>'; captures path
    | RequireCall           // require('<..package.json>'); captures path
    | DynamicImportCall     // import('<..package.json>'); captures path
    | VersionAccess         // <word>.version; captures the word
    // lib/analyzers.js, basicTextChecks
    | VarKeyword            // the word `var`
    | EvalCall              // eval (
    | NewFunctionCall       // new Function (
    | HttpUrl               // http:// followed by characters other than space, quotes and angle brackets
    | CredentialAssignment  // api_key/apiKey/secret/password/token := '<4+ chars>', any case
    | ConsoleSensitive      // console.log/warn/error( .. token/password/secret .. ), any case
    // lib/rules/variables.js
    | ImportLine            // a whole line starting with `import` (multi-line mode)
    | ExportTypeLine        // a whole line starting with `export type` or `export interface`
    | ExportBraceLine       // a whole line starting with `export {`
    | VarDeclaration        // var <ident>; captures ident
    | ConsoleCall           // console.log/warn/error/debug/info (
    | AnyAnnotation         // `: any` as a whole word
    | FourDigitRun          // a run of 4+ digits between two non-digit non-dot characters; captures the run
    | TodoMarker            // // TODO|FIXME|HACK|XXX, any case; captures the marker and up to 50 following characters
    | EmptyCatchBlock       // catch (..) { }
    | MethodCall            // <word>.<letters>(
    | CapitalisedString     // a quoted string starting with a capitalised word and a lower-case word
    // lib/rules/methods.js
    | AsyncDeclaration      // async function <name>( , or <name> = async (; captures name in group 1 or 2
    | AsyncBody(name: string)     // async (function <name> | <name> = async) ( params ) { up to the first `}`;
                                  // captures the body. The second form needs `async` before the name too,
                                  // so an arrow `<name> = async (` alone yields no body
    | AwaitWord             // the word `await`
    | FetchOrAxiosWord      // the word `fetch` or the word `axios`
    | FunctionDeclaration   // function <name>(; captures name
    | WholeWord(word: string)     // `word` between word boundaries
    | ThenCall              // .then (
    | CatchCall             // .catch (
    // lib/rules/android-manifest.js
    | ComponentTag          // <activity, <service, <broadcast-receiver or <content-provider, any case
    | ExportedFalse         // android:exported = "false"
    | DangerousPermission(permission: string)
                            // android:name = "<permission>" (the source builds this from a template
                            // literal in which `\s` degrades to a literal `s`; the oracle stands for
                            // whatever that pattern matches)
    | RiskyLaunchMode       // android:launchMode = singleInstance/singleTask/singleTop
    | LaunchModeValue       // android:launchMode = "<value>"; captures value
    | DataHost              // data android:host
    | CleartextTrue         // android:usesCleartextTraffic = "true"
    | DebuggableTrue        // android:debuggable = "true"
    | LooseExportedFalse    // exported = "false"
    | AllowBackupTrue       // android:allowBackup = "true"
    // lib/rules/security.js
    | Secret(kind: SecretKind)
    | StorageSet            // localStorage/sessionStorage/AsyncStorage .setItem/.set (
    | FileWriteCall         // writeFileSync ( or File.write (
    | RemoteHttpLiteral     // a quote or back-tick, then http:// not followed by localhost or 127.0.0.1
    | CoreModulesHttp       // tns-core-modules ... http on one line
    | LengthComparison      // length < or length >
    | DomWrite              // .innerHTML = , .innerText = or textContent =
    | EvalLike              // eval ( , new Function ( or Function (
    | SensitiveLog          // console.<level>( .. a sensitive word .. ), any case
    | RegexLiteral          // text between two slashes, with escapes, and trailing flags
    | NestedQuantifierBrace // a quantifier, `{`, then later another quantifier
    | NestedQuantifierGroup // `(`, later `(` followed by a quantifier
    | FetchOrHttpsCall      // fetch ( or https ://
    | TryBlock              // try {
    | ErrorHandlerWords     // error handler
    | StringifyCall         // stringify (

  /** A regular-expression engine: the matches of a pattern in a text. */
  type Engine = (Pattern, string) -> seq<Match>

  /** `regex.test(subject)`. */
  predicate Test(re: Engine, p: Pattern, subject: string)
  {
    |re(p, subject)| > 0
  }

  /** `subject.match(globalRegex) || []`: the matched texts. */
  function Texts(re: Engine, p: Pattern, subject: string): (r: seq<string>)
    ensures |r| == |re(p, subject)|
  {
    var ms := re(p, subject);
    seq(|ms|, i requires 0 <= i < |ms| => ms[i].text)
  }
}
