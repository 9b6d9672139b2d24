/** Recognising `codeguard:begin/end` marker lines (`markerLine` in `update.go`). */
module Markers {
  import opened Wrappers

  datatype MarkerKind = Begin | End

  datatype Marker = Marker(kind: MarkerKind, name: string)

  predicate IsBlank(c: char) {
    c == ' ' || c == '\t'
  }

  predicate IsNameChar(c: char) {
    'A' <= c <= 'Z' || 'a' <= c <= 'z' || '0' <= c <= '9' || c == '_' || c == '-'
  }

  predicate IsName(s: string) {
    s != "" && forall c <- s :: IsNameChar(c)
  }

  function SkipBlanks(s: string): (t: string)
    ensures |t| <= |s|
  {
    if s != "" && IsBlank(s[0]) then SkipBlanks(s[1..]) else s
  }

  function DropBlanks(s: string): (t: string)
    ensures |t| <= |s|
  {
    if s != "" && IsBlank(s[|s| - 1]) then DropBlanks(s[..|s| - 1]) else s
  }

  /** The part after `codeguard:begin` or `codeguard:end`: blanks, a name, blanks, `-->`, blanks
      and an optional carriage return. A name cannot contain `>`, so reading the tail from the
      right finds the only possible split. */
  function NameOf(s: string): Option<string> {
    if s == "" || !IsBlank(s[0]) then None
    else
      var t := SkipBlanks(s);
      var u := DropBlanks(if t != "" && t[|t| - 1] == '\r' then t[..|t| - 1] else t);
      if |u| < 3 || u[|u| - 3..] != "-->" then None
      else
        var name := DropBlanks(u[..|u| - 3]);
        if IsName(name) then Some(name) else None
  }

  function Named(kind: MarkerKind, name: Option<string>): Option<Marker> {
    match name
    case None => None
    case Some(n) => Some(Marker(kind, n))
  }

  /** `markerLine.FindStringSubmatch(line)`, for a line without its newline. */
  function MatchMarker(line: string): Option<Marker> {
    var s := SkipBlanks(line);
    if !("<!--" <= s) then None
    else
      var t := SkipBlanks(s[4..]);
      if "codeguard:begin" <= t then Named(Begin, NameOf(t[15..]))
      else if "codeguard:end" <= t then Named(End, NameOf(t[13..]))
      else None
  }

  function Keyword(kind: MarkerKind): string {
    match kind
    case Begin => "codeguard:begin"
    case End => "codeguard:end"
  }

  /** `BeginMarker` and `EndMarker`. */
  function MarkerText(kind: MarkerKind, name: string): string {
    "<!-- " + Keyword(kind) + " " + name + " -->"
  }

  lemma NameReadsBack(name: string)
    requires IsName(name)
    ensures NameOf(" " + name + " -->") == Some(name)
  {
    var s := " " + name + " -->";
    var t := name + " -->";
    assert s[1..] == t;
    assert IsNameChar(name[0]) && t[0] == name[0];
    assert SkipBlanks(s) == t;
    assert t[|t| - 1] == '>';
    assert DropBlanks(t) == t;
    assert t[|t| - 3..] == "-->";
    var padded := t[..|t| - 3];
    assert padded == name + " ";
    assert padded[..|padded| - 1] == name;
    assert IsNameChar(name[|name| - 1]);
    assert DropBlanks(padded) == name;
  }

  lemma KeywordFound(kind: MarkerKind, tail: string)
    requires tail != "" && IsBlank(tail[0])
    ensures var line := "<!-- " + Keyword(kind) + tail;
      MatchMarker(line) == Named(kind, NameOf(tail))
  {
    var rest := Keyword(kind) + tail;
    var line := "<!-- " + Keyword(kind) + tail;
    assert SkipBlanks(line) == line && "<!--" <= line;
    assert line[4..] == " " + rest && (" " + rest)[1..] == rest;
    assert rest[0] == 'c' && SkipBlanks(rest) == rest;
    assert SkipBlanks(line[4..]) == rest;
    assert rest[|Keyword(kind)|..] == tail;
    assert rest[10] == Keyword(kind)[10];
  }

  /** A marker written by this package is recognised. */
  lemma MarkerReadsBack(kind: MarkerKind, name: string)
    requires IsName(name)
    ensures MatchMarker(MarkerText(kind, name)) == Some(Marker(kind, name))
  {
    NameReadsBack(name);
    assert MarkerText(kind, name) == "<!-- " + Keyword(kind) + (" " + name + " -->");
    var tail := " " + name + " -->";
    assert tail != "" && IsBlank(tail[0]);
    hide MatchMarker, Keyword, NameOf, MarkerText, IsName;
    KeywordFound(kind, tail);
  }

  /** A line that starts with neither a blank nor `<` is not a marker. */
  lemma OrdinaryLine(line: string)
    requires line == "" || (!IsBlank(line[0]) && line[0] != '<')
    ensures MatchMarker(line) == None
  {
    assert SkipBlanks(line) == line;
  }

  /** A comment whose text starts otherwise is not a marker either. */
  lemma OrdinaryComment(text: string)
    requires text != "" && !IsBlank(text[0]) && text[0] != 'c'
    ensures MatchMarker("<!-- " + text) == None
  {
    var line := "<!-- " + text;
    assert line[0] == '<' && SkipBlanks(line) == line;
    assert line[4..] == " " + text && (" " + text)[1..] == text;
    assert SkipBlanks(line[4..]) == text;
  }
}
