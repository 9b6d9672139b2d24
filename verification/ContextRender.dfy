/** `render.go`: the agent instruction file that detected facts produce. */
module ContextRender {
  import opened Markers
  import opened Text

  datatype LanguageFact = LanguageFact(name: string, files: nat)

  datatype Command = Command(invocation: string, source: string)

  datatype Directory = Directory(path: string, purpose: string, contents: string)

  datatype Entrypoint = Entrypoint(path: string, language: string)

  datatype TestLocation = TestLocation(path: string, files: nat, languages: seq<string>)

  datatype Facts = Facts(
    name: string,
    languages: seq<LanguageFact>,
    manifests: seq<string>,
    workflows: seq<string>,
    commands: seq<Command>,
    directories: seq<Directory>,
    entrypoints: seq<Entrypoint>,
    tests: seq<TestLocation>,
    conventions: seq<string>)

  /** One managed region: its heading, the renderer of its body, and the note left below it. */
  datatype ManagedBlock = ManagedBlock(name: string, heading: string, body: Facts -> seq<string>, todo: string)

  function Each<T>(items: seq<T>, f: T -> string): (lines: seq<string>)
    ensures |lines| == |items| && forall k :: 0 <= k < |items| ==> lines[k] == f(items[k])
  {
    seq(|items|, k requires 0 <= k < |items| => f(items[k]))
  }

  function Pluralize(count: nat, singular: string): string {
    if count == 1 then "1 " + singular else Decimal(count) + " " + singular + "s"
  }

  function Quote(value: string): string {
    "`" + value + "`"
  }

  function CodeList(values: seq<string>): string {
    Join(Each(values, Quote), ", ")
  }

  function LanguageText(l: LanguageFact): string {
    l.name + " (" + Pluralize(l.files, "file") + ")"
  }

  function LanguagesLine(languages: seq<LanguageFact>): string {
    "- Languages, by source file count: " + Join(Each(languages, LanguageText), ", ") + "."
  }

  function ListLine(title: string, values: seq<string>): string {
    "- " + title + ": " + CodeList(values) + "."
  }

  // The line a body falls back to when nothing was detected, and the opening line of the commands. Long texts are joined
  // from short literals: the verifier looks through a literal one character at a time, and through some thirty at most.
  const NO_LANGUAGES :=
    "- TODO: no source languages " + "detected; state what this " + "repository contains."
  const NO_COMMANDS :=
    "- TODO: no build, test or lint " + "commands detected; document how to " + "build and test this project."
  const NO_DIRECTORIES :=
    "- TODO: no top-level directories " + "detected; describe the repository " + "layout."
  const NO_ENTRYPOINTS :=
    "- TODO: no entrypoints detected; " + "name the binaries, servers or " + "scripts this repository ships."
  const NO_TESTS :=
    "- TODO: no test files detected; " + "document how this project is tested."
  const NO_CONVENTIONS :=
    "- TODO: no formatter, linter or " + "toolchain configuration detected; " + "document code-style conventions."
  const RUN_FROM_ROOT := "Run from the repository root."

  function OverviewBody(facts: Facts): seq<string> {
    (if facts.languages == [] then [NO_LANGUAGES]
     else [LanguagesLine(facts.languages)])
    + (if facts.manifests == [] then [] else [ListLine("Package manifests", facts.manifests)])
    + (if facts.workflows == [] then [] else [ListLine("CI workflows", facts.workflows)])
  }

  function SourceHeading(source: string): string {
    if source == "Makefile" then "Makefile targets"
    else if source == "package.json" then "`package.json` scripts"
    else if source == "go.mod" then "Go toolchain (`go.mod`)"
    else if source == "Cargo.toml" then "Cargo (`Cargo.toml`)"
    else if source == "pyproject.toml" then "Tools configured in `pyproject.toml`"
    else "CI steps in `" + source + "`"
  }

  /** The sources of `commands`, each once, in order of first appearance. */
  function Sources(commands: seq<Command>): seq<string> {
    if commands == [] then []
    else
      var earlier, last := Sources(commands[..|commands| - 1]), commands[|commands| - 1].source;
      if last in earlier then earlier else earlier + [last]
  }

  function InvocationsFrom(commands: seq<Command>, source: string): seq<string> {
    if commands == [] then []
    else
      var last := commands[|commands| - 1];
      InvocationsFrom(commands[..|commands| - 1], source) + (if last.source == source then [last.invocation] else [])
  }

  function InvocationLine(invocation: string): string {
    "- `" + invocation + "`"
  }

  function SourceLines(commands: seq<Command>, source: string): seq<string> {
    ["", SourceHeading(source) + ":"] + Each(InvocationsFrom(commands, source), InvocationLine)
  }

  function AllSourceLines(commands: seq<Command>, order: seq<string>): seq<string> {
    if order == [] then []
    else AllSourceLines(commands, order[..|order| - 1]) + SourceLines(commands, order[|order| - 1])
  }

  function CommandsBody(facts: Facts): seq<string> {
    if facts.commands == [] then
      [NO_COMMANDS]
    else [RUN_FROM_ROOT] + AllSourceLines(facts.commands, Sources(facts.commands))
  }

  lemma GroupsNext(commands: seq<Command>, n: nat)
    requires n < |commands|
    ensures var c := commands[n];
      && Sources(commands[..n + 1]) == Sources(commands[..n]) + (if c.source in Sources(commands[..n]) then [] else [c.source])
      && forall s :: InvocationsFrom(commands[..n + 1], s)
           == InvocationsFrom(commands[..n], s) + (if c.source == s then [c.invocation] else [])
  {
    assert commands[..n + 1][..n] == commands[..n];
  }

  /** The grouping loop of `commandsBody`. */
  method GroupBySource(commands: seq<Command>) returns (order: seq<string>, bySource: map<string, seq<string>>)
    ensures order == Sources(commands)
    ensures forall s :: s in bySource <==> s in order
    ensures forall s <- bySource :: bySource[s] == InvocationsFrom(commands, s)
  {
    order := [];
    bySource := map[];
    for n := 0 to |commands|
      invariant order == Sources(commands[..n])
      invariant forall s :: s in bySource <==> s in order
      invariant forall s <- bySource :: bySource[s] == InvocationsFrom(commands[..n], s)
      invariant forall s :: s !in bySource ==> InvocationsFrom(commands[..n], s) == []
    {
      GroupsNext(commands, n);
      hide Sources, InvocationsFrom;
      var c := commands[n];
      if c.source !in bySource {
        order := order + [c.source];
      }
      bySource := bySource[c.source := (if c.source in bySource then bySource[c.source] else []) + [c.invocation]];
    }
    assert commands[..|commands|] == commands;
  }

  lemma AllSourceLinesNext(commands: seq<Command>, order: seq<string>, k: nat)
    requires k < |order|
    ensures AllSourceLines(commands, order[..k + 1]) == AllSourceLines(commands, order[..k]) + SourceLines(commands, order[k])
  {
    hide SourceLines;
    assert order[..k + 1][..k] == order[..k];
  }

  /** The emitting loop of `commandsBody`. */
  method SourceSections(commands: seq<Command>, order: seq<string>, bySource: map<string, seq<string>>) returns (lines: seq<string>)
    requires forall s <- order :: s in bySource && bySource[s] == InvocationsFrom(commands, s)
    ensures lines == AllSourceLines(commands, order)
  {
    hide SourceHeading, InvocationLine, AllSourceLines, InvocationsFrom;
    lines := [];
    AllSourceLinesNone(commands);
    for k := 0 to |order|
      invariant lines == AllSourceLines(commands, order[..k])
    {
      AllSourceLinesNext(commands, order, k);
      lines := lines + (["", SourceHeading(order[k]) + ":"] + Each(bySource[order[k]], InvocationLine));
    }
    assert order[..|order|] == order;
  }

  lemma AllSourceLinesNone(commands: seq<Command>)
    ensures AllSourceLines(commands, []) == []
  {
  }

  /** `commandsBody`. */
  method GroupedCommands(facts: Facts) returns (lines: seq<string>)
    ensures lines == CommandsBody(facts)
  {
    if facts.commands == [] {
      return [NO_COMMANDS];
    }
    var order, bySource := GroupBySource(facts.commands);
    var sections := SourceSections(facts.commands, order, bySource);
    hide AllSourceLines, Sources;
    lines := [RUN_FROM_ROOT] + sections;
  }

  function LayoutBody(facts: Facts): seq<string> {
    if facts.directories == [] then [NO_DIRECTORIES]
    else Each(facts.directories, DirectoryLine)
  }

  function DirectoryLine(d: Directory): string {
    "- `" + d.path + "`: " + (if d.purpose != "" then d.purpose else "TODO: describe this directory") + " (" + d.contents + ")."
  }

  function EntrypointsBody(facts: Facts): seq<string> {
    if facts.entrypoints == [] then
      [NO_ENTRYPOINTS]
    else Each(facts.entrypoints, EntrypointLine)
  }

  function EntrypointLine(e: Entrypoint): string {
    "- `" + e.path + "` (" + e.language + ")"
  }

  function TestsBody(facts: Facts): seq<string> {
    if facts.tests == [] then [NO_TESTS]
    else Each(facts.tests, TestLine)
  }

  function TestLine(t: TestLocation): string {
    "- " + (if t.path == "." then "the repository root" else Quote(t.path)) + ": " + Pluralize(t.files, "test file")
    + " (" + Join(t.languages, ", ") + ")."
  }

  function ConventionsBody(facts: Facts): seq<string> {
    if facts.conventions == [] then
      [NO_CONVENTIONS]
    else Each(facts.conventions, ConventionLine)
  }

  function ConventionLine(convention: string): string {
    "- " + convention
  }

  const OVERVIEW_TODO :=
    "TODO: describe what this project " + "does, who uses it, and anything " + "an agent must never do here."
  const CONVENTIONS_TODO :=
    "TODO: add conventions codeguard " + "cannot detect (naming, error " + "handling, review expectations)."

  const OVERVIEW := ManagedBlock("overview", "", OverviewBody, OVERVIEW_TODO)
  const COMMANDS := ManagedBlock("commands", "Commands", CommandsBody, "")
  const LAYOUT := ManagedBlock("layout", "Layout", LayoutBody, "")
  const ENTRYPOINTS := ManagedBlock("entrypoints", "Entrypoints", EntrypointsBody, "")
  const TESTS := ManagedBlock("tests", "Tests", TestsBody, "")
  const CONVENTIONS := ManagedBlock("conventions", "Conventions", ConventionsBody, CONVENTIONS_TODO)

  /** `managedBlocks`, in render order. */
  const BLOCKS: seq<ManagedBlock> := [OVERVIEW, COMMANDS, LAYOUT, ENTRYPOINTS, TESTS, CONVENTIONS]

  const NOTICE_TEXT :=
    "Generated by `codeguard context " + "init`. `codeguard context update` " + "refreshes only the text between "
    + "codeguard:begin/end markers; edit " + "everything else freely. -->"

  const NOTICE := "<!-- " + NOTICE_TEXT

  /** `blockBody`: the lines, each newline-terminated. */
  function BlockBody(block: ManagedBlock, facts: Facts): string {
    var lines := block.body(facts);
    if lines == [] then "" else Join(lines, "\n") + "\n"
  }

  function HeadingText(block: ManagedBlock): string {
    "\n" + (if block.heading == "" then "" else "## " + block.heading + "\n\n")
  }

  function TodoText(block: ManagedBlock): string {
    if block.todo == "" then "" else "\n" + block.todo + "\n"
  }

  /** `writeSection`. */
  function SectionText(block: ManagedBlock, facts: Facts): string {
    HeadingText(block) + MarkerText(Begin, block.name) + "\n" + BlockBody(block, facts) + MarkerText(End, block.name) + "\n"
    + TodoText(block)
  }

  function SectionsText(blocks: seq<ManagedBlock>, facts: Facts): string {
    if |blocks| == 0 then "" else SectionText(blocks[0], facts) + SectionsText(blocks[1..], facts)
  }

  function TitleText(facts: Facts): string {
    "# " + facts.name + "\n\n" + NOTICE + "\n"
  }

  function RenderText(facts: Facts): string {
    TitleText(facts) + SectionsText(BLOCKS, facts)
  }

  /** The loop of `Render`. */
  method WriteSections(blocks: seq<ManagedBlock>, facts: Facts) returns (text: string)
    ensures text == SectionsText(blocks, facts)
  {
    hide SectionText;
    text := "";
    for k := 0 to |blocks|
      invariant text + SectionsText(blocks[k..], facts) == SectionsText(blocks, facts)
    {
      assert blocks[k..][1..] == blocks[k + 1..];
      text := text + SectionText(blocks[k], facts);
    }
  }

  /** `Render`. */
  method Render(facts: Facts) returns (text: string)
    ensures text == RenderText(facts)
  {
    var sections := WriteSections(BLOCKS, facts);
    text := "# " + facts.name + "\n\n" + NOTICE + "\n" + sections;
  }

  // ----- no rendered body line is a marker -----

  /** Facts whose strings hold no newline. */
  predicate NewlineFree(facts: Facts) {
    && '\n' !in facts.name
    && (forall l <- facts.languages :: '\n' !in l.name)
    && (forall m <- facts.manifests :: '\n' !in m) && (forall w <- facts.workflows :: '\n' !in w)
    && (forall c <- facts.commands :: '\n' !in c.invocation && '\n' !in c.source)
    && (forall d <- facts.directories :: '\n' !in d.path && '\n' !in d.purpose && '\n' !in d.contents)
    && (forall e <- facts.entrypoints :: '\n' !in e.path && '\n' !in e.language)
    && (forall t <- facts.tests :: '\n' !in t.path && forall l <- t.languages :: '\n' !in l)
    && (forall c <- facts.conventions :: '\n' !in c)
  }

  /** A line that no marker recogniser accepts, with or without a carriage return after it. */
  predicate PlainLine(line: string) {
    '\n' !in line && (line == "" || (!IsBlank(line[0]) && line[0] != '<'))
  }

  lemma {:induction false} JoinNewlineFree(parts: seq<string>, sep: string)
    requires '\n' !in sep && forall p <- parts :: '\n' !in p
    ensures '\n' !in Join(parts, sep)
  {
    if |parts| > 1 {
      JoinNewlineFree(parts[1..], sep);
    }
  }

  lemma {:induction false} DecimalNewlineFree(n: nat)
    ensures '\n' !in Decimal(n)
  {
    if n >= 10 {
      DecimalNewlineFree(n / 10);
    }
  }

  /** A prefix that starts an ordinary line. */
  lemma PlainAfter(prefix: string, rest: string)
    requires prefix != "" && PlainLine(prefix) && '\n' !in rest
    ensures PlainLine(prefix + rest)
  {
  }

  lemma PluralizeNewlineFree(count: nat, singular: string)
    requires '\n' !in singular
    ensures '\n' !in Pluralize(count, singular)
  {
    DecimalNewlineFree(count);
  }

  lemma CodeListNewlineFree(values: seq<string>)
    requires forall v <- values :: '\n' !in v
    ensures '\n' !in CodeList(values)
  {
    JoinNewlineFree(Each(values, Quote), ", ");
  }

  lemma LanguageTextNewlineFree(l: LanguageFact)
    requires '\n' !in l.name
    ensures '\n' !in LanguageText(l)
  {
    PluralizeNewlineFree(l.files, "file");
    hide Pluralize;
  }

  lemma LanguagesLinePlain(languages: seq<LanguageFact>)
    requires forall l <- languages :: '\n' !in l.name
    ensures PlainLine(LanguagesLine(languages))
  {
    hide LanguageText;
    forall l <- languages ensures '\n' !in LanguageText(l) {
      LanguageTextNewlineFree(l);
    }
    JoinNewlineFree(Each(languages, LanguageText), ", ");
    hide Join;
    assert PlainLine("- Languages, by source file count: ");
    PlainAfter("- Languages, by source file count: ", Join(Each(languages, LanguageText), ", ") + ".");
    assert "- Languages, by source file count: " + (Join(Each(languages, LanguageText), ", ") + ".") == LanguagesLine(languages);
  }

  lemma ListLinePlain(title: string, values: seq<string>)
    requires '\n' !in title && forall v <- values :: '\n' !in v
    ensures PlainLine(ListLine(title, values))
  {
    CodeListNewlineFree(values);
  }

  lemma NoLanguagesPlain()
    ensures PlainLine(NO_LANGUAGES)
  {
  }

  lemma NoCommandsPlain()
    ensures PlainLine(NO_COMMANDS)
  {
  }

  lemma NoDirectoriesPlain()
    ensures PlainLine(NO_DIRECTORIES)
  {
  }

  lemma NoEntrypointsPlain()
    ensures PlainLine(NO_ENTRYPOINTS)
  {
  }

  lemma NoTestsPlain()
    ensures PlainLine(NO_TESTS)
  {
  }

  lemma NoConventionsPlain()
    ensures PlainLine(NO_CONVENTIONS)
  {
  }

  lemma RunFromRootPlain()
    ensures PlainLine(RUN_FROM_ROOT)
  {
  }

  lemma OverviewPlain(facts: Facts)
    requires NewlineFree(facts)
    ensures forall line <- OverviewBody(facts) :: PlainLine(line)
  {
    hide PlainLine, LanguagesLine, ListLine;
    NoLanguagesPlain();
    LanguagesLinePlain(facts.languages);
    ListLinePlain("Package manifests", facts.manifests);
    ListLinePlain("CI workflows", facts.workflows);
  }

  lemma {:induction false} InvocationsPlain(commands: seq<Command>, source: string)
    requires forall c <- commands :: '\n' !in c.invocation
    ensures forall i <- InvocationsFrom(commands, source) :: '\n' !in i
  {
    if commands != [] {
      InvocationsPlain(commands[..|commands| - 1], source);
    }
  }

  lemma {:induction false} SourcesPlain(commands: seq<Command>)
    requires forall c <- commands :: '\n' !in c.source
    ensures forall s <- Sources(commands) :: '\n' !in s
  {
    if commands != [] {
      SourcesPlain(commands[..|commands| - 1]);
    }
  }

  lemma SourceHeadingPlain(source: string)
    requires '\n' !in source
    ensures PlainLine(SourceHeading(source) + ":")
  {
    PlainAfter("CI steps in `", source + "`");
    assert "CI steps in `" + (source + "`") == "CI steps in `" + source + "`";
    ShortHeadingsPlain();
    LongHeadingsPlain();
    HeadingIsOne(source);
    hide SourceHeading;
    PlainAfter(SourceHeading(source), ":");
  }

  lemma ShortHeadingsPlain()
    ensures PlainLine("Makefile targets") && PlainLine("`package.json` scripts") && PlainLine("Cargo (`Cargo.toml`)")
  {
  }

  lemma LongHeadingsPlain()
    ensures PlainLine("Go toolchain (`go.mod`)") && PlainLine("Tools configured in `pyproject.toml`")
  {
  }

  lemma HeadingIsOne(source: string)
    ensures SourceHeading(source) != "" && SourceHeading(source) in
      {"Makefile targets", "`package.json` scripts", "Go toolchain (`go.mod`)", "Cargo (`Cargo.toml`)",
       "Tools configured in `pyproject.toml`", "CI steps in `" + source + "`"}
  {
  }

  lemma InvocationPlain(invocation: string)
    requires '\n' !in invocation
    ensures PlainLine(InvocationLine(invocation))
  {
  }

  lemma {:induction false} SourceLinesPlain(commands: seq<Command>, order: seq<string>)
    requires forall c <- commands :: '\n' !in c.invocation
    requires forall s <- order :: '\n' !in s
    ensures forall line <- AllSourceLines(commands, order) :: PlainLine(line)
  {
    hide SourceHeading, InvocationLine, PlainLine;
    if order != [] {
      var last := order[|order| - 1];
      SourceLinesPlain(commands, order[..|order| - 1]);
      InvocationsPlain(commands, last);
      forall i <- InvocationsFrom(commands, last) ensures PlainLine(InvocationLine(i)) {
        InvocationPlain(i);
      }
      SourceHeadingPlain(last);
      EmptyPlain();
      assert forall line <- SourceLines(commands, last) :: PlainLine(line);
    }
  }

  lemma EmptyPlain()
    ensures PlainLine("")
  {
  }

  lemma CommandsPlain(facts: Facts)
    requires NewlineFree(facts)
    ensures forall line <- CommandsBody(facts) :: PlainLine(line)
  {
    hide PlainLine, AllSourceLines, Sources;
    NoCommandsPlain();
    RunFromRootPlain();
    SourcesPlain(facts.commands);
    SourceLinesPlain(facts.commands, Sources(facts.commands));
  }

  lemma DirectoryPlain(d: Directory)
    requires '\n' !in d.path && '\n' !in d.purpose && '\n' !in d.contents
    ensures PlainLine(DirectoryLine(d))
  {
  }

  lemma LayoutPlain(facts: Facts)
    requires NewlineFree(facts)
    ensures forall line <- LayoutBody(facts) :: PlainLine(line)
  {
    hide PlainLine, DirectoryLine;
    NoDirectoriesPlain();
    forall d <- facts.directories ensures PlainLine(DirectoryLine(d)) {
      DirectoryPlain(d);
    }
  }

  lemma EntrypointPlain(e: Entrypoint)
    requires '\n' !in e.path && '\n' !in e.language
    ensures PlainLine(EntrypointLine(e))
  {
  }

  lemma EntrypointsPlain(facts: Facts)
    requires NewlineFree(facts)
    ensures forall line <- EntrypointsBody(facts) :: PlainLine(line)
  {
    hide PlainLine, EntrypointLine;
    NoEntrypointsPlain();
    forall e <- facts.entrypoints ensures PlainLine(EntrypointLine(e)) {
      EntrypointPlain(e);
    }
  }

  lemma TestPlain(t: TestLocation)
    requires '\n' !in t.path && forall l <- t.languages :: '\n' !in l
    ensures PlainLine(TestLine(t))
  {
    PluralizeNewlineFree(t.files, "test file");
    JoinNewlineFree(t.languages, ", ");
    hide Pluralize, Join;
  }

  lemma TestsPlain(facts: Facts)
    requires NewlineFree(facts)
    ensures forall line <- TestsBody(facts) :: PlainLine(line)
  {
    hide PlainLine, TestLine;
    NoTestsPlain();
    forall t <- facts.tests ensures PlainLine(TestLine(t)) {
      TestPlain(t);
    }
  }

  lemma ConventionPlain(convention: string)
    requires '\n' !in convention
    ensures PlainLine(ConventionLine(convention))
  {
  }

  lemma ConventionsPlain(facts: Facts)
    requires NewlineFree(facts)
    ensures forall line <- ConventionsBody(facts) :: PlainLine(line)
  {
    hide PlainLine, ConventionLine;
    NoConventionsPlain();
    forall c <- facts.conventions ensures PlainLine(ConventionLine(c)) {
      ConventionPlain(c);
    }
  }

  /** Every line of every managed body is ordinary text. */
  lemma BodiesPlain(facts: Facts, k: nat)
    requires NewlineFree(facts) && k < |BLOCKS|
    ensures forall line <- BLOCKS[k].body(facts) :: PlainLine(line)
  {
    hide PlainLine, NewlineFree, OverviewBody, CommandsBody, LayoutBody, EntrypointsBody, TestsBody, ConventionsBody;
    match k
    case 0 => OverviewPlain(facts);
    case 1 => CommandsPlain(facts);
    case 2 => LayoutPlain(facts);
    case 3 => EntrypointsPlain(facts);
    case 4 => TestsPlain(facts);
    case _ => ConventionsPlain(facts);
  }
}
