/** What the rendered bodies list, and in which order. */
module ContextBodies {
  import opened Text
  import opened ContextRender
  import Sequences

  // ----- commands by source -----

  lemma SourcesSnoc(commands: seq<Command>, c: Command)
    ensures Sources(commands + [c]) == Sources(commands) + if c.source in Sources(commands) then [] else [c.source]
    ensures forall s :: InvocationsFrom(commands + [c], s) == InvocationsFrom(commands, s) + if c.source == s then [c.invocation] else []
  {
    assert (commands + [c])[..|commands|] == commands;
  }

  /** The sources are those of the commands, each once. */
  lemma {:induction false} SourcesListed(commands: seq<Command>)
    ensures forall s :: s in Sources(commands) <==> exists c :: c in commands && c.source == s
    ensures forall i, j :: 0 <= i < j < |Sources(commands)| ==> Sources(commands)[i] != Sources(commands)[j]
  {
    if commands != [] {
      var init, last := commands[..|commands| - 1], commands[|commands| - 1];
      assert commands == init + [last];
      SourcesListed(init);
      SourcesSnoc(init, last);
      hide Sources;
      assert forall c :: c in commands <==> c in init || c == last;
    }
  }

  /** They are listed in the order of their first commands: further commands add sources at the end alone. */
  lemma {:induction false} SourcesInOrder(commands: seq<Command>, more: seq<Command>)
    ensures Sources(commands) <= Sources(commands + more)
    decreases |more|
  {
    if more == [] {
      assert commands + more == commands;
    } else {
      var init, last := more[..|more| - 1], more[|more| - 1];
      SourcesInOrder(commands, init);
      SourcesSnoc(commands + init, last);
      assert commands + more == (commands + init) + [last];
    }
  }

  lemma OneInvocation(c: Command, source: string)
    ensures InvocationsFrom([c], source) == if c.source == source then [c.invocation] else []
    ensures InvocationsFrom([], source) == []
  {
    SourcesSnoc([], c);
    assert [] + [c] == [c];
  }

  /** Under a source stand the invocations of its commands, in their order. */
  lemma {:induction false} InvocationsInOrder(commands: seq<Command>, more: seq<Command>, source: string)
    ensures InvocationsFrom(commands + more, source) == InvocationsFrom(commands, source) + InvocationsFrom(more, source)
    decreases |more|
  {
    hide InvocationsFrom;
    if more == [] {
      OneInvocation(Command("", ""), source);
      assert commands + more == commands;
    } else {
      var init, last := more[..|more| - 1], more[|more| - 1];
      Sequences.LastApart(commands, more);
      InvocationsInOrder(commands, init, source);
      SourcesSnoc(commands + init, last);
      SourcesSnoc(init, last);
    }
  }

  /** Each source has an empty line, a heading and its invocations, one after the other. */
  lemma SectionsInOrder(commands: seq<Command>, order: seq<string>, source: string)
    ensures AllSourceLines(commands, order + [source]) ==
      AllSourceLines(commands, order) + ["", SourceHeading(source) + ":"]
      + Each(InvocationsFrom(commands, source), invocation => "- `" + invocation + "`")
  {
    assert (order + [source])[..|order|] == order;
    hide AllSourceLines, SourceHeading;
    assert Each(InvocationsFrom(commands, source), invocation => "- `" + invocation + "`")
        == Each(InvocationsFrom(commands, source), InvocationLine);
  }

  // ----- lists -----

  /** Directories, entry points, tests and conventions have a line each, in order, that names them; without any there is
      one line that asks for them. */
  lemma BodiesList(facts: Facts)
    ensures var lines := LayoutBody(facts);
      if facts.directories == [] then lines == [NO_DIRECTORIES]
      else |lines| == |facts.directories|
           && forall k :: 0 <= k < |lines| ==> "- `" + facts.directories[k].path + "`: " <= lines[k]
    ensures var lines := EntrypointsBody(facts);
      if facts.entrypoints == [] then lines == [NO_ENTRYPOINTS]
      else |lines| == |facts.entrypoints|
           && forall k :: 0 <= k < |lines| ==>
                lines[k] == "- `" + facts.entrypoints[k].path + "` (" + facts.entrypoints[k].language + ")"
    ensures var lines := TestsBody(facts);
      if facts.tests == [] then lines == [NO_TESTS]
      else |lines| == |facts.tests|
           && forall k :: 0 <= k < |lines| ==>
                "- " + (if facts.tests[k].path == "." then "the repository root" else "`" + facts.tests[k].path + "`") + ": " <= lines[k]
    ensures var lines := ConventionsBody(facts);
      if facts.conventions == [] then lines == [NO_CONVENTIONS]
      else |lines| == |facts.conventions| && forall k :: 0 <= k < |lines| ==> lines[k] == "- " + facts.conventions[k]
    ensures facts.commands == [] ==> CommandsBody(facts) == [NO_COMMANDS]
    ensures facts.commands != [] ==>
      CommandsBody(facts) == ["Run from the repository root."] + AllSourceLines(facts.commands, Sources(facts.commands))
  {
    hide Pluralize, Join, AllSourceLines, Sources;
  }

  /** The overview has a line of languages or one that asks for them, and then a line each for the manifests and the
      workflows if there are any. */
  lemma OverviewReads(facts: Facts)
    ensures var lines := OverviewBody(facts);
      && |lines| == 1 + (if facts.manifests != [] then 1 else 0) + (if facts.workflows != [] then 1 else 0)
      && lines[0] == (if facts.languages != [] then LanguagesLine(facts.languages) else NO_LANGUAGES)
      && (facts.manifests != [] ==> lines[1] == "- Package manifests: " + CodeList(facts.manifests) + ".")
      && (facts.workflows != [] ==> lines[|lines| - 1] == "- CI workflows: " + CodeList(facts.workflows) + ".")
  {
    hide Join, CodeList, LanguagesLine, ListLine;
    ListLines(facts.manifests);
    ListLines(facts.workflows);
  }

  lemma ListLines(values: seq<string>)
    ensures ListLine("Package manifests", values) == "- Package manifests: " + CodeList(values) + "."
    ensures ListLine("CI workflows", values) == "- CI workflows: " + CodeList(values) + "."
  {
    hide CodeList;
    assert "- " + "Package manifests" + ": " == "- Package manifests: " && "- " + "CI workflows" + ": " == "- CI workflows: ";
  }

  lemma CountRead(n: nat, what: string)
    ensures n != 1 ==> Pluralize(n, what) == Decimal(n) + " " + what + "s"
    ensures Pluralize(1, what) == "1 " + what
  {
  }

  lemma HeadingsRead(path: string)
    ensures SourceHeading("Makefile") == "Makefile targets" && SourceHeading("package.json") == "`package.json` scripts"
    ensures SourceHeading("go.mod") == "Go toolchain (`go.mod`)" && SourceHeading("Cargo.toml") == "Cargo (`Cargo.toml`)"
    ensures SourceHeading("pyproject.toml") == "Tools configured in `pyproject.toml`"
    ensures path !in {"Makefile", "package.json", "go.mod", "Cargo.toml", "pyproject.toml"} ==>
      SourceHeading(path) == "CI steps in `" + path + "`"
  {
    assert |"Makefile"| == 8 && |"package.json"| == 12 && |"go.mod"| == 6 && |"Cargo.toml"| == 10 && |"pyproject.toml"| == 14;
  }

  /** A section has its heading above it and its note below it, if it has them. */
  lemma SectionReads(block: ManagedBlock)
    ensures block.heading != "" ==> HeadingText(block) == "\n## " + block.heading + "\n\n"
    ensures block.heading == "" ==> HeadingText(block) == "\n"
    ensures TodoText(block) == if block.todo != "" then "\n" + block.todo + "\n" else ""
  {
  }
}
