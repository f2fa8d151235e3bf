/** lib/rules/variables.js: style checks on variable declarations, console
    calls, `any` annotations, magic numbers, TODO markers, empty catch blocks
    and hard-coded user-facing strings.

    The rule's `check` reports, in this order: one `no-var` issue per `var`
    declaration outside import and export lines, one `too-many-console`
    issue for more than five console calls outside test files, one `no-any`
    issue for any `: any` annotation, one `magic-number` issue per long
    number other than 1000 and 1024, one `todo-comment` issue per marker, one
    `empty-catch` issue for any empty catch block, and one
    `hardcoded-strings` issue for more than ten capitalised phrases outside
    localisation files. None of its issues carries a position. */
module Variables {
  import opened Wrappers
  import opened Text
  import opened Decimal
  import opened Issues
  import opened Oracle

  /** The severity each rule of this file reports with; None for rules this
      file does not report. */
  function RuleSeverity(rule: RuleId): Option<Severity>
  {
    if rule == NoVar || rule == NoAny || rule == EmptyCatch then Some(Warn)
    else if rule == TooManyConsole || rule == MagicNumber || rule == TodoComment || rule == HardcodedStrings then Some(Info)
    else None
  }

  // ---------------------------------------------------------------------------
  // Removing import and export lines
  // ---------------------------------------------------------------------------

  /** `s.replace(globalRegex, '')` given the regex's matches in `s`: the text
      outside the matches, from position `from` on. A match that does not
      occur where it claims to, or overlaps an earlier one, removes nothing. */
  function RemoveFrom(s: string, ms: seq<Match>, from: nat): (r: string)
    requires from <= |s|
    ensures |r| <= |s| - from
    ensures ms == [] ==> r == s[from..]
    decreases |ms|
  {
    if ms == [] then s[from..]
    else
      var m := ms[0];
      if from <= m.index && OccursAt(s, m.text, m.index) then
        s[from..m.index] + RemoveFrom(s, ms[1..], m.index + |m.text|)
      else RemoveFrom(s, ms[1..], from)
  }

  function RemoveMatches(s: string, ms: seq<Match>): (r: string)
    ensures |r| <= |s|
    ensures ms == [] ==> r == s
  {
    RemoveFrom(s, ms, 0)
  }

  /** The text with whole import lines, `export type`/`export interface`
      lines and `export { .. }` lines blanked, in that order. */
  function CodeWithoutImports(re: Engine, content: string): (r: string)
    ensures |r| <= |content|
  {
    var a := RemoveMatches(content, re(ImportLine, content));
    var b := RemoveMatches(a, re(ExportTypeLine, a));
    RemoveMatches(b, re(ExportBraceLine, b))
  }

  // ---------------------------------------------------------------------------
  // Messages
  // ---------------------------------------------------------------------------

  const CountPrefix := "Found "
  const ConsoleLimit := 5
  const HardcodedLimit := 10

  const VarPrefix := "Use let/const instead of var for '"

  function VarMessage(name: string): string
  {
    VarPrefix + name + "'"
  }

  const ConsoleSuffix := " " + "console statements; consider using a logging service"
  const AnySuffix := " " + "'any' type usage(s); prefer specific types for better type safety"
  const HardcodedSuffix := " " + "hardcoded strings; consider using i18n for localization"

  /** A note whose message is the count prefix, the count, then `suffix`:
      the count reads back from the message. */
  function CountNote(severity: Severity, rule: RuleId, n: nat, suffix: string): (x: Issue)
    requires suffix == "" || !IsDigit(suffix[0])
    ensures x.severity == severity && x.rule == rule && x.line == None && x.column == None
    ensures ReadCount(CountPrefix, x.message) == Some(n)
  {
    CountRoundTrip(CountPrefix, n, suffix);
    Note(severity, rule, CountPrefix + Show(n) + suffix)
  }

  /** The two numbers accepted without a named constant. */
  const MagicExemptions: set<string> := {"1000", "1024"}

  const MagicPrefix := "Magic number "
  const MagicSuffix := " detected; consider using a named constant"

  function MagicMessage(number: string): string
  {
    MagicPrefix + number + MagicSuffix
  }

  /** The marker upper-cased, then the trimmed text after it. */
  function TodoMessage(m: Match): string
  {
    Upper(Capture(m, 1)) + ": " + Trim(Capture(m, 2))
  }

  const EmptyCatchMessage := "Empty catch block detected; handle or log errors appropriately"

  /** The file name marks a test or spec file (ignoring case). */
  predicate IsTestPath(filePath: string)
  {
    var p := Lower(filePath);
    Contains(p, ".test.") || Contains(p, ".spec.") || Contains(p, "test.ts") || Contains(p, "spec.ts")
  }

  /** The file name marks a localisation file (case-sensitive). */
  predicate IsLocalePath(filePath: string)
  {
    Contains(filePath, "i18n") || Contains(filePath, "locale")
  }

  // ---------------------------------------------------------------------------
  // What the patterns find, and the report built from it
  // ---------------------------------------------------------------------------

  /** What the rule's patterns find in one file, and the two file-name tests. */
  datatype Findings = Findings(
    vars: seq<Match>,       // `var` declarations outside import and export lines
    consoleCalls: nat,      // console calls
    anyAnnotations: nat,    // `: any` annotations
    numbers: seq<Match>,    // runs of four or more digits
    todos: seq<Match>,      // TODO-style markers
    emptyCatch: bool,       // some empty catch block
    phrases: nat,           // quoted capitalised phrases
    testPath: bool,
    localePath: bool)

  function Scan(re: Engine, content: string, filePath: string): Findings
  {
    Findings(
      re(VarDeclaration, CodeWithoutImports(re, content)),
      |re(ConsoleCall, content)|,
      |re(AnyAnnotation, content)|,
      re(FourDigitRun, content),
      re(TodoMarker, content),
      Test(re, EmptyCatchBlock, content),
      |re(CapitalisedString, content)|,
      IsTestPath(filePath),
      IsLocalePath(filePath))
  }

  /** Every issue carries its rule's severity and no position. */
  predicate Conforms(x: Issue)
  {
    RuleSeverity(x.rule) == Some(x.severity) && x.line == None && x.column == None
  }

  function VarIssues(vs: seq<Match>): (r: seq<Issue>)
    ensures |r| == |vs|
    ensures forall x | x in r :: x.rule == NoVar && Conforms(x)
  {
    seq(|vs|, i requires 0 <= i < |vs| => Note(Warn, NoVar, VarMessage(Capture(vs[i], 1))))
  }

  /** The captured numbers that are not exempt, in match order. */
  function MagicNumbers(ms: seq<Match>): (r: seq<string>)
    ensures |r| <= |ms|
    ensures forall v | v in r :: v !in MagicExemptions
  {
    if ms == [] then []
    else
      var v := Capture(ms[0], 1);
      (if v in MagicExemptions then [] else [v]) + MagicNumbers(ms[1..])
  }

  /** A number is kept exactly when some match captures it and it is not
      exempt. */
  lemma {:induction false} MagicNumbersExact(ms: seq<Match>, v: string)
    ensures v in MagicNumbers(ms) <==> v !in MagicExemptions && exists m | m in ms :: Capture(m, 1) == v
  {
    if ms != [] {
      MagicNumbersExact(ms[1..], v);
      assert ms[0] in ms;
      assert forall m | m in ms[1..] :: m in ms;
      assert forall m | m in ms && m != ms[0] :: m in ms[1..];
    }
  }

  /** Group 1 of each match, in match order. */
  function Captures(ms: seq<Match>): seq<string>
  {
    seq(|ms|, i requires 0 <= i < |ms| => Capture(ms[i], 1))
  }

  /** Each number is kept once per match that captures it, unless exempt:
      a repeated number is reported as often as it occurs. */
  lemma {:induction false} MagicNumbersCount(ms: seq<Match>, v: string)
    ensures multiset(MagicNumbers(ms))[v] == if v in MagicExemptions then 0 else multiset(Captures(ms))[v]
  {
    if ms != [] {
      MagicNumbersCount(ms[1..], v);
      var w := Capture(ms[0], 1);
      assert Captures(ms) == [w] + Captures(ms[1..]);
      assert MagicNumbers(ms) == (if w in MagicExemptions then [] else [w]) + MagicNumbers(ms[1..]);
    }
  }

  /** Each kept number gets one issue naming it: the issues naming `v` are
      as many as the times `v` is kept. */
  lemma MagicIssuesCount(vals: seq<string>, v: string)
    ensures multiset(Messages(MagicIssues(vals)))[MagicMessage(v)] == multiset(vals)[v]
  {
    forall a, b | MagicMessage(a) == MagicMessage(b)
      ensures a == b
    {
      MagicMessageInjective(a, b);
    }
    MessageCount(MagicIssues(vals), vals, MagicMessage, v);
  }

  function MagicIssues(vals: seq<string>): (r: seq<Issue>)
    ensures |r| == |vals|
    ensures forall x | x in r :: x.rule == MagicNumber && Conforms(x)
  {
    seq(|vals|, i requires 0 <= i < |vals| => Note(Info, MagicNumber, MagicMessage(vals[i])))
  }

  function TodoIssues(ts: seq<Match>): (r: seq<Issue>)
    ensures |r| == |ts|
    ensures forall x | x in r :: x.rule == TodoComment && Conforms(x)
  {
    seq(|ts|, i requires 0 <= i < |ts| => Note(Info, TodoComment, TodoMessage(ts[i])))
  }

  /** The section of the report that belongs to `rule`: issues of that rule
      only. */
  function Section(f: Findings, rule: RuleId): (r: seq<Issue>)
    ensures forall x | x in r :: x.rule == rule && Conforms(x)
  {
    if rule == NoVar then VarIssues(f.vars)
    else if rule == TooManyConsole then
      FlagIf(!f.testPath && f.consoleCalls > ConsoleLimit,
             CountNote(Info, TooManyConsole, f.consoleCalls, ConsoleSuffix))
    else if rule == NoAny then
      FlagIf(f.anyAnnotations > 0, CountNote(Warn, NoAny, f.anyAnnotations, AnySuffix))
    else if rule == MagicNumber then MagicIssues(MagicNumbers(f.numbers))
    else if rule == TodoComment then TodoIssues(f.todos)
    else if rule == EmptyCatch then FlagIf(f.emptyCatch, Note(Warn, EmptyCatch, EmptyCatchMessage))
    else if rule == HardcodedStrings then
      FlagIf(f.phrases > HardcodedLimit && !f.localePath,
             CountNote(Info, HardcodedStrings, f.phrases, HardcodedSuffix))
    else []
  }

  /** The rule whose section comes `i`-th in the report, counting from 0
      (the first and the last stand for every earlier and later position). */
  function RuleAt(i: int): RuleId
  {
    if i <= 0 then NoVar
    else if i == 1 then TooManyConsole
    else if i == 2 then NoAny
    else if i == 3 then MagicNumber
    else if i == 4 then TodoComment
    else if i == 5 then EmptyCatch
    else HardcodedStrings
  }

  /** The rules of this file, in report order. */
  function Order(): seq<RuleId>
  {
    seq(7, RuleAt)
  }

  function Sections(f: Findings): RuleId -> seq<Issue>
  {
    k => Section(f, k)
  }

  lemma SectionsSound(f: Findings)
    ensures SectionsByRule(Sections(f)) && Distinct(Order())
  {
    OrderDistinct();
  }

  lemma OrderDistinct()
    ensures Distinct(Order())
  {
  }

  /** The sections in report order. */
  function Report(f: Findings): seq<Issue>
  {
    Assemble(Sections(f), Order())
  }

  /** The rule's `check`: every issue carries its rule's severity and no
      position. */
  function Check(re: Engine, content: string, filePath: string): (r: seq<Issue>)
    ensures forall x | x in r :: Conforms(x)
  {
    var f := Scan(re, content, filePath);
    var r := Report(f);
    assert forall x | x in r :: Conforms(x) by {
      forall x | x in r
        ensures Conforms(x)
      {
        SectionsSound(f);
        AssembleMember(Sections(f), Order(), x);
      }
    }
    r
  }

  // ---------------------------------------------------------------------------
  // Properties
  // ---------------------------------------------------------------------------

  /** The report holds as many issues of a listed rule as its section, and
      none of any other rule. */
  lemma ReportCount(f: Findings, rule: RuleId)
    ensures CountRule(Report(f), rule) == if rule in Order() then |Section(f, rule)| else 0
  {
    SectionsSound(f);
    AssembleCount(Sections(f), Order(), rule);
  }

  /** The report holds an issue exactly when its rule is listed and its
      rule's section holds it. */
  lemma ReportMember(f: Findings, x: Issue)
    ensures x in Report(f) <==> x.rule in Order() && x in Section(f, x.rule)
  {
    SectionsSound(f);
    AssembleMember(Sections(f), Order(), x);
  }

  /** A `no-var` message names a variable exactly when some declaration
      captures that name. */
  lemma VarIssuesNamed(vs: seq<Match>, name: string)
    ensures (exists x | x in VarIssues(vs) :: x.message == VarMessage(name))
            <==> exists m | m in vs :: Capture(m, 1) == name
  {
    var names := seq(|vs|, i requires 0 <= i < |vs| => Capture(vs[i], 1));
    forall a, b | VarMessage(a) == VarMessage(b)
      ensures a == b
    {
      SandwichInjective(VarPrefix, a, b, "'");
    }
    NamedByMessage(VarIssues(vs), names, VarMessage, name);
    if name in names {
      var i :| 0 <= i < |names| && names[i] == name;
      assert vs[i] in vs;
    }
    if exists m | m in vs :: Capture(m, 1) == name {
      var m :| m in vs && Capture(m, 1) == name;
      var i :| 0 <= i < |vs| && vs[i] == m;
      assert names[i] in names;
    }
  }

  /** `no-var`: one issue per `var` declaration found outside the import and
      export lines, and an issue names a variable exactly when some such
      declaration declares it. */
  lemma VarSection(f: Findings, name: string)
    ensures |Section(f, NoVar)| == |f.vars|
    ensures (exists x | x in Section(f, NoVar) :: x.message == VarMessage(name))
            <==> exists m | m in f.vars :: Capture(m, 1) == name
  {
    assert Section(f, NoVar) == VarIssues(f.vars);
    VarIssuesNamed(f.vars, name);
  }

  /** `too-many-console`: at most one issue, present exactly when the file is
      not a test file and has more than five console calls, with the count in
      its message. */
  lemma ConsoleSection(f: Findings)
    ensures |Section(f, TooManyConsole)| == if !f.testPath && f.consoleCalls > ConsoleLimit then 1 else 0
    ensures forall x | x in Section(f, TooManyConsole) :: ReadCount(CountPrefix, x.message) == Some(f.consoleCalls)
  {
  }

  /** `no-any`: at most one issue, present exactly when some `: any`
      annotation is found, with the number of annotations in its message. */
  lemma AnySection(f: Findings)
    ensures |Section(f, NoAny)| == if f.anyAnnotations > 0 then 1 else 0
    ensures forall x | x in Section(f, NoAny) :: ReadCount(CountPrefix, x.message) == Some(f.anyAnnotations)
  {
  }

  /** A magic-number message names a number exactly when the number is one
      of the kept values. */
  lemma MagicIssuesNamed(vals: seq<string>, v: string)
    ensures (exists x | x in MagicIssues(vals) :: x.message == MagicMessage(v)) <==> v in vals
  {
    forall a, b | MagicMessage(a) == MagicMessage(b)
      ensures a == b
    {
      MagicMessageInjective(a, b);
    }
    NamedByMessage(MagicIssues(vals), vals, MagicMessage, v);
  }

  lemma MagicMessageInjective(a: string, b: string)
    requires MagicMessage(a) == MagicMessage(b)
    ensures a == b
  {
    SandwichInjective(MagicPrefix, a, b, MagicSuffix);
  }

  /** `magic-number`: an issue names a number exactly when some match
      captures it and it is neither 1000 nor 1024. */
  lemma MagicSection(f: Findings, v: string)
    ensures (exists x | x in Section(f, MagicNumber) :: x.message == MagicMessage(v))
            <==> v !in MagicExemptions && exists m | m in f.numbers :: Capture(m, 1) == v
  {
    assert Section(f, MagicNumber) == MagicIssues(MagicNumbers(f.numbers));
    MagicNumbersExact(f.numbers, v);
    MagicIssuesNamed(MagicNumbers(f.numbers), v);
  }

  lemma MagicCount(ms: seq<Match>, v: string)
    ensures multiset(Messages(MagicIssues(MagicNumbers(ms))))[MagicMessage(v)]
            == if v in MagicExemptions then 0 else multiset(Captures(ms))[v]
  {
    MagicNumbersCount(ms, v);
    MagicIssuesCount(MagicNumbers(ms), v);
  }

  /** `magic-number`: the issues naming a number are exactly as many as
      the matches capturing it, and none for 1000 or 1024. */
  lemma MagicSectionCount(f: Findings, v: string)
    ensures multiset(Messages(Section(f, MagicNumber)))[MagicMessage(v)]
            == if v in MagicExemptions then 0 else multiset(Captures(f.numbers))[v]
  {
    assert Section(f, MagicNumber) == MagicIssues(MagicNumbers(f.numbers));
    MagicCount(f.numbers, v);
  }

  /** `todo-comment`: one issue per marker, the i-th message being the i-th
      marker upper-cased, `: `, and the text after it trimmed. */
  lemma TodoSection(f: Findings)
    ensures |Section(f, TodoComment)| == |f.todos|
    ensures forall i | 0 <= i < |f.todos| ::
              StartsWith(Section(f, TodoComment)[i].message, Upper(Capture(f.todos[i], 1)) + ": ")
    ensures forall i | 0 <= i < |f.todos| ::
              Section(f, TodoComment)[i].message
              == Upper(Capture(f.todos[i], 1)) + ": " + Trim(Capture(f.todos[i], 2))
  {
    var sec := Section(f, TodoComment);
    forall i | 0 <= i < |f.todos|
      ensures StartsWith(sec[i].message, Upper(Capture(f.todos[i], 1)) + ": ")
    {
      var p := Upper(Capture(f.todos[i], 1)) + ": ";
      assert sec[i].message == p + Trim(Capture(f.todos[i], 2));
      assert sec[i].message[..|p|] == p;
    }
  }

  /** `empty-catch`: at most one issue, present exactly when an empty catch
      block is found. */
  lemma EmptyCatchSection(f: Findings)
    ensures |Section(f, EmptyCatch)| == if f.emptyCatch then 1 else 0
  {
  }

  /** `hardcoded-strings`: at most one issue, present exactly when more than
      ten capitalised phrases occur outside a localisation file, with the
      count in its message. */
  lemma HardcodedSection(f: Findings)
    ensures |Section(f, HardcodedStrings)| == if f.phrases > HardcodedLimit && !f.localePath then 1 else 0
    ensures forall x | x in Section(f, HardcodedStrings) :: ReadCount(CountPrefix, x.message) == Some(f.phrases)
  {
  }

  /** The method-call scan is computed and discarded: engines that agree on
      every other pattern give the same report. */
  lemma MethodCallIgnored(re1: Engine, re2: Engine, content: string, filePath: string)
    requires forall p, s | p != MethodCall :: re1(p, s) == re2(p, s)
    ensures Check(re1, content, filePath) == Check(re2, content, filePath)
  {
    ScanIgnoresMethodCall(re1, re2, content, filePath);
  }

  lemma ScanIgnoresMethodCall(re1: Engine, re2: Engine, content: string, filePath: string)
    requires forall p, s | p != MethodCall :: re1(p, s) == re2(p, s)
    ensures Scan(re1, content, filePath) == Scan(re2, content, filePath)
  {
    var c := CodeWithoutImports(re1, content);
    CodeIgnoresMethodCall(re1, re2, content);
    assert re1(VarDeclaration, c) == re2(VarDeclaration, c);
    assert re1(ConsoleCall, content) == re2(ConsoleCall, content);
    assert re1(AnyAnnotation, content) == re2(AnyAnnotation, content);
    assert re1(FourDigitRun, content) == re2(FourDigitRun, content);
    assert re1(TodoMarker, content) == re2(TodoMarker, content);
    assert re1(EmptyCatchBlock, content) == re2(EmptyCatchBlock, content);
    assert re1(CapitalisedString, content) == re2(CapitalisedString, content);
  }

  lemma CodeIgnoresMethodCall(re1: Engine, re2: Engine, content: string)
    requires forall p, s | p != MethodCall :: re1(p, s) == re2(p, s)
    ensures CodeWithoutImports(re1, content) == CodeWithoutImports(re2, content)
  {
    var a := RemoveMatches(content, re1(ImportLine, content));
    assert re1(ImportLine, content) == re2(ImportLine, content);
    var b := RemoveMatches(a, re1(ExportTypeLine, a));
    assert re1(ExportTypeLine, a) == re2(ExportTypeLine, a);
    assert re1(ExportBraceLine, b) == re2(ExportBraceLine, b);
  }
}
