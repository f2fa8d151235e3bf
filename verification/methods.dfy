/** lib/rules/methods.js: heuristics on functions and promises.

    The rule's `check` reports, in this order: one `async-no-await` issue per
    async function (in declaration order, repeats included) whose body makes
    a `fetch`, `axios` or `.then(` call but never awaits; one `unused-func`
    issue per declared function whose name occurs exactly once in the file;
    and one `promise-no-catch` issue when `.then(` is called and `.catch(`
    never is. */
module Methods {
  import opened Wrappers
  import opened Text
  import opened Issues
  import opened Oracle

  /** The severity each rule of this file reports with; None for rules this
      file does not report. */
  function RuleSeverity(rule: RuleId): Option<Severity>
  {
    if rule == AsyncNoAwait || rule == PromiseNoCatch then Some(Warn)
    else if rule == UnusedFunc then Some(Info)
    else None
  }

  /** Every issue carries its rule's severity and no position. */
  predicate Conforms(x: Issue)
  {
    RuleSeverity(x.rule) == Some(x.severity) && x.line == None && x.column == None
  }

  // ---------------------------------------------------------------------------
  // What the patterns find
  // ---------------------------------------------------------------------------

  /** An async function: its name, and, when its first definition is found,
      its body up to the first `}` and whether that body contains the word
      `await` and the word `fetch` or `axios`. */
  datatype AsyncFn = AsyncFn(name: string, body: Option<string>, awaits: bool, fetches: bool)

  /** A declared function and the number of whole-word occurrences of its
      name in the file. */
  datatype Declared = Declared(name: string, occurrences: nat)

  /** What the rule's patterns find in one file. */
  datatype Findings = Findings(asyncFns: seq<AsyncFn>, declared: seq<Declared>, thenCalls: nat, catchCall: bool)

  /** `m[1] || m[2]`: the name from whichever of the two declaration forms
      matched (an empty capture counts as absent). */
  function AsyncName(m: Match): string
  {
    var a := Capture(m, 1);
    if a != "" then a else Capture(m, 2)
  }

  /** Looks up the body of the async function `name`: the first match of the
      body pattern built from the name. */
  function AsyncFnOf(re: Engine, content: string, name: string): AsyncFn
  {
    var ms := re(AsyncBody(name), content);
    if |ms| == 0 then AsyncFn(name, None, false, false)
    else
      var body := Capture(ms[0], 1);
      AsyncFn(name, Some(body), Test(re, AwaitWord, body), Test(re, FetchOrAxiosWord, body))
  }

  function Scan(re: Engine, content: string): Findings
  {
    var ds := re(AsyncDeclaration, content);
    var fs := re(FunctionDeclaration, content);
    Findings(
      seq(|ds|, i requires 0 <= i < |ds| => AsyncFnOf(re, content, AsyncName(ds[i]))),
      seq(|fs|, i requires 0 <= i < |fs| => Declared(Capture(fs[i], 1), |re(WholeWord(Capture(fs[i], 1)), content)|)),
      |re(ThenCall, content)|,
      Test(re, CatchCall, content))
  }

  // ---------------------------------------------------------------------------
  // The report
  // ---------------------------------------------------------------------------

  /** The body was found, never awaits, and calls `fetch`, `axios` or
      `.then(`. */
  predicate MissesAwait(a: AsyncFn)
  {
    a.body.Some? && !a.awaits && (a.fetches || Contains(a.body.value, ".then("))
  }

  const AsyncPrefix := "Async function '"
  const AsyncSuffix := "' contains async calls but no await"

  function AsyncMessage(name: string): string
  {
    AsyncPrefix + name + AsyncSuffix
  }

  const UnusedPrefix := "Function '"
  const UnusedSuffix := "' declared but not used"

  function UnusedMessage(name: string): string
  {
    UnusedPrefix + name + UnusedSuffix
  }

  const PromiseMessage := "Promises used without catch for errors"

  function AsyncNote(a: AsyncFn): (x: Issue)
    ensures x.rule == AsyncNoAwait && x.message == AsyncMessage(a.name) && Conforms(x)
  {
    Note(Warn, AsyncNoAwait, AsyncMessage(a.name))
  }

  function UnusedNote(d: Declared): (x: Issue)
    ensures x.rule == UnusedFunc && x.message == UnusedMessage(d.name) && Conforms(x)
  {
    Note(Info, UnusedFunc, UnusedMessage(d.name))
  }

  /** One issue per async function that misses an await, in declaration
      order. */
  function AsyncIssues(fns: seq<AsyncFn>): (r: seq<Issue>)
    ensures |r| <= |fns|
    ensures forall x | x in r :: x.rule == AsyncNoAwait && Conforms(x)
  {
    Notes(fns, MissesAwait, AsyncNote)
  }

  /** One issue per declared function whose name occurs once, in
      declaration order. */
  function UnusedIssues(ds: seq<Declared>): (r: seq<Issue>)
    ensures |r| <= |ds|
    ensures forall x | x in r :: x.rule == UnusedFunc && Conforms(x)
  {
    Notes(ds, (d: Declared) => d.occurrences == 1, UnusedNote)
  }

  /** The section of the report that belongs to `rule`: issues of that rule
      only. */
  function Section(f: Findings, rule: RuleId): (r: seq<Issue>)
    ensures forall x | x in r :: x.rule == rule && Conforms(x)
  {
    if rule == AsyncNoAwait then AsyncIssues(f.asyncFns)
    else if rule == UnusedFunc then UnusedIssues(f.declared)
    else if rule == PromiseNoCatch then FlagIf(f.thenCalls > 0 && !f.catchCall, Note(Warn, PromiseNoCatch, PromiseMessage))
    else []
  }

  /** The rule whose section comes `i`-th in the report, counting from 0
      (the first and the last stand for every earlier and later position). */
  function RuleAt(i: int): RuleId
  {
    if i <= 0 then AsyncNoAwait
    else if i == 1 then UnusedFunc
    else PromiseNoCatch
  }

  /** The rules of this file, in report order. */
  function Order(): seq<RuleId>
  {
    seq(3, RuleAt)
  }

  function Sections(f: Findings): RuleId -> seq<Issue>
  {
    k => Section(f, k)
  }

  lemma SectionsSound(f: Findings)
    ensures SectionsByRule(Sections(f)) && Distinct(Order())
  {
    OrderDistinct();
  }

  lemma OrderDistinct()
    ensures Distinct(Order())
  {
  }

  /** The sections in report order. */
  function Report(f: Findings): seq<Issue>
  {
    Assemble(Sections(f), Order())
  }

  /** The rule's `check`: every issue carries its rule's severity and no
      position. */
  function Check(re: Engine, content: string, filePath: string): (r: seq<Issue>)
    ensures forall x | x in r :: Conforms(x)
  {
    var f := Scan(re, content);
    var r := Report(f);
    assert forall x | x in r :: Conforms(x) by {
      forall x | x in r
        ensures Conforms(x)
      {
        SectionsSound(f);
        AssembleMember(Sections(f), Order(), x);
      }
    }
    r
  }

  // ---------------------------------------------------------------------------
  // Properties
  // ---------------------------------------------------------------------------

  /** The report holds as many issues of a listed rule as its section, and
      none of any other rule. */
  lemma ReportCount(f: Findings, rule: RuleId)
    ensures CountRule(Report(f), rule) == if rule in Order() then |Section(f, rule)| else 0
  {
    SectionsSound(f);
    AssembleCount(Sections(f), Order(), rule);
  }

  /** The report holds an issue exactly when its rule is listed and its
      rule's section holds it. */
  lemma ReportMember(f: Findings, x: Issue)
    ensures x in Report(f) <==> x.rule in Order() && x in Section(f, x.rule)
  {
    SectionsSound(f);
    AssembleMember(Sections(f), Order(), x);
  }

  /** `async-no-await` names a function exactly when some async function of
      that name has a body that calls `fetch`, `axios` or `.then(` without
      awaiting. */
  lemma AsyncFlagged(fns: seq<AsyncFn>, name: string)
    ensures (exists x | x in AsyncIssues(fns) :: x.message == AsyncMessage(name))
            <==> exists a | a in fns :: a.name == name && MissesAwait(a)
  {
    forall a, b | AsyncMessage(a) == AsyncMessage(b)
      ensures a == b
    {
      SandwichInjective(AsyncPrefix, a, b, AsyncSuffix);
    }
    NotesNamed(fns, MissesAwait, AsyncNote, (a: AsyncFn) => a.name, AsyncMessage, name);
  }

  /** `unused-func` names a function exactly when it is declared and its name
      occurs exactly once in the file. */
  lemma UnusedFlagged(ds: seq<Declared>, name: string)
    ensures (exists x | x in UnusedIssues(ds) :: x.message == UnusedMessage(name))
            <==> exists d | d in ds :: d.name == name && d.occurrences == 1
  {
    forall a, b | UnusedMessage(a) == UnusedMessage(b)
      ensures a == b
    {
      SandwichInjective(UnusedPrefix, a, b, UnusedSuffix);
    }
    NotesNamed(ds, (d: Declared) => d.occurrences == 1, UnusedNote, (d: Declared) => d.name, UnusedMessage, name);
  }

  /** `promise-no-catch`: at most one issue, present exactly when `.then(`
      is called and `.catch(` never is. */
  lemma PromiseSection(f: Findings)
    ensures |Section(f, PromiseNoCatch)| == if f.thenCalls > 0 && !f.catchCall then 1 else 0
  {
  }
}
