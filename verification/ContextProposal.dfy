/** `Proposal` in `update.go`: the managed sections below a file that has none. */
module ContextProposal {
  import opened Markers
  import opened Wrappers
  import opened ManagedDocument
  import opened ContextRender
  import opened ContextUpdate
  import opened ContextTheorems
  import opened ContextRoundTrip

  const OVERVIEW_LINE := "## Overview"
  const OVERVIEW_HEADING := "\n" + OVERVIEW_LINE + "\n"

  /** `RenderSections`: the one block without a heading gets one here. */
  method RenderSections(facts: Facts) returns (text: string)
    ensures text == OVERVIEW_HEADING + SectionsText(BLOCKS, facts)
  {
    hide SectionText;
    Headings();
    var blocks := BLOCKS;
    text := "";
    for k := 0 to |blocks|
      invariant text + SectionsText(blocks[k..], facts)
             == (if k == 0 then "" else OVERVIEW_HEADING) + SectionsText(blocks, facts)
    {
      assert blocks[k..][1..] == blocks[k + 1..];
      if blocks[k].heading == "" {
        text := text + OVERVIEW_HEADING;
      }
      text := text + SectionText(blocks[k], facts);
    }
  }

  lemma Headings()
    ensures |BLOCKS| == 6 && forall k :: 0 <= k < |BLOCKS| ==> (BLOCKS[k].heading == "" <==> k == 0)
  {
    assert |"Commands"| == 8 && |"Layout"| == 6 && |"Entrypoints"| == 11 && |"Tests"| == 5 && |"Conventions"| == 11;
  }

  function Separator(existing: string): string {
    if Complete(existing) then "" else "\n"
  }

  function ProposalText(existing: string, facts: Facts): string {
    existing + Separator(existing) + OVERVIEW_HEADING + SectionsText(BLOCKS, facts)
  }

  /** `Proposal`. */
  method Proposal(existing: string, facts: Facts) returns (text: string)
    ensures text == ProposalText(existing, facts)
  {
    hide SectionsText;
    var sep := "";
    if existing != "" && existing[|existing| - 1] != '\n' {
      sep := "\n";
    }
    var sections := RenderSections(facts);
    text := existing + sep + sections;
  }

  lemma {:induction false} SplitOfEnded(text: string)
    requires text != "" && text[|text| - 1] != '\n'
    ensures var pieces := SplitAfter(text);
      var last := pieces[|pieces| - 1];
      && last != "" && last[|last| - 1] != '\n'
      && SplitAfter(text + "\n") == pieces[..|pieces| - 1] + [last + "\n", ""]
  {
    var tail := text[1..];
    assert (text + "\n")[1..] == tail + "\n";
    if tail == "" {
      SplitOfLine(text);
    } else {
      SplitOfEnded(tail);
      hide SplitAfter;
      SplitUnfolds(text, "\n");
      EndedExtends(text[0], SplitAfter(tail));
    }
  }

  lemma EndedExtends(c: char, pieces: seq<string>)
    requires |pieces| >= 1 && pieces[|pieces| - 1] != "" && pieces[|pieces| - 1][|pieces[|pieces| - 1]| - 1] != '\n'
    ensures var more := Extend(c, pieces);
      var last := more[|more| - 1];
      && last != "" && last[|last| - 1] != '\n'
      && Extend(c, pieces[..|pieces| - 1] + [pieces[|pieces| - 1] + "\n", ""]) == more[..|more| - 1] + [last + "\n", ""]
  {
    var n := |pieces| - 1;
    var ended := pieces[..n] + [pieces[n] + "\n", ""];
    if c == '\n' {
      assert ["\n"] + ended == (["\n"] + pieces)[..n + 1] + [pieces[n] + "\n", ""];
    } else if n == 0 {
      assert [c] + (pieces[0] + "\n") == ([c] + pieces[0]) + "\n";
    } else {
      assert ended[0] == pieces[0] && ended[1..] == pieces[1..][..n - 1] + [pieces[n] + "\n", ""];
    }
  }

  lemma EndedLine(text: string)
    requires MarkerFree(text) && !Complete(text)
    ensures TextOk(text + "\n")
  {
    SplitOfEnded(text);
    EmptyIsMarkerFree();
    var pieces := SplitAfter(text);
    var last := pieces[|pieces| - 1];
    hide SplitAfter, MatchMarker;
    assert Chomp(last + "\n") == last == Chomp(last);
    assert MarkerOn(last) == None;
    forall line <- SplitAfter(text + "\n") ensures MarkerOn(line) == None {
      assert line in pieces || line == last + "\n" || line == "";
    }
  }

  lemma NewlineCompletes(text: string)
    requires MarkerFree(text)
    ensures TextOk(text + Separator(text))
  {
    if Complete(text) {
      assert text + "" == text;
    } else {
      EndedLine(text);
    }
  }

  lemma OverviewHeadingOk()
    ensures TextOk(OVERVIEW_HEADING)
  {
    HeadingPlain("Overview");
    assert OVERVIEW_LINE == "## " + "Overview";
    hide PlainLine, TextOk;
    LineText(OVERVIEW_LINE);
  }

  lemma NoMarkersMarkerFree(text: string, facts: Facts)
    requires OutcomeOf(text, facts).NoMarkers?
    ensures MarkerFree(text)
  {
    ParsedIsWellFormed(text);
    hide MarkerFree, ParseDoc;
    var d := ParseDoc(text).value;
    assert Flatten(d) == d.tail;
  }

  /** What is proposed for a file without markers is what `Update` settles on: the file as it is, then every managed
      section, none of them missing, unknown or out of date. */
  lemma ProposalIsUpToDate(existing: string, facts: Facts)
    requires OutcomeOf(existing, facts).NoMarkers? && NewlineFree(facts)
    ensures existing <= ProposalText(existing, facts)
    ensures var r := OutcomeOf(ProposalText(existing, facts), facts);
      r.Updated? && r.content == ProposalText(existing, facts) && r.changed == [] && r.unknown == [] && r.missing == []
  {
    NoMarkersMarkerFree(existing, facts);
    NewlineCompletes(existing);
    OverviewHeadingOk();
    NewlineFreeBodies(facts);
    NewlineFreeIsClean(facts);
    hide MarkerFree, TextOk, SectionsText, BodiesMarkerFree, OutcomeOf, NewlineFree, Clean;
    var lead := existing + Separator(existing) + OVERVIEW_HEADING;
    TextOkConcat(existing + Separator(existing), OVERVIEW_HEADING);
    UpdateOfSections(lead, facts, facts);
    UpdateIsIdempotent(lead + SectionsText(BLOCKS, facts), facts);
  }
}
