/** The marker lines of `update.go` as its regular expression describes them. */
module MarkerSyntax {
  import opened Wrappers
  import opened Markers

  predicate AllBlank(s: string) {
    forall k :: 0 <= k < |s| ==> s[k] == ' ' || s[k] == '\t'
  }

  predicate IsWord(s: string) {
    s != "" && forall c <- s :: c in "ABCDEFGHIJKLMNOPQRSTUVWXYZ" || c in "abcdefghijklmnopqrstuvwxyz" || c in "0123456789" || c in "_-"
  }

  /** The blanks of a marker line, and its carriage return if it has one. */
  datatype Spacing = Spacing(lead: string, open: string, gap: string, close: string, trail: string, cr: string) {
    predicate Valid() {
      && AllBlank(lead) && AllBlank(open) && AllBlank(gap) && AllBlank(close) && AllBlank(trail)
      && gap != "" && (cr == "" || cr == "\r")
    }
  }

  function Tail(x: Spacing, name: string): string {
    x.gap + name + x.close + "-->" + x.trail + x.cr
  }

  function Line(x: Spacing, keyword: string, name: string): string {
    x.lead + "<!--" + x.open + keyword + Tail(x, name)
  }

  function Word(kind: MarkerKind): string {
    if kind == Begin then "codeguard:begin" else "codeguard:end"
  }

  // ----- skipping blanks -----

  lemma {:induction false} Skipped(s: string) returns (b: string)
    ensures AllBlank(b) && s == b + SkipBlanks(s) && (SkipBlanks(s) == "" || !IsBlank(SkipBlanks(s)[0]))
  {
    b := "";
    if s != "" && IsBlank(s[0]) {
      b := Skipped(s[1..]);
      b := [s[0]] + b;
    }
  }

  lemma {:induction false} SkipOver(b: string, x: string)
    requires AllBlank(b) && x != "" && !IsBlank(x[0])
    ensures SkipBlanks(b + x) == x
  {
    if b == "" {
      assert b + x == x;
    } else {
      assert (b + x)[1..] == b[1..] + x;
      SkipOver(b[1..], x);
    }
  }

  lemma {:induction false} Dropped(s: string) returns (b: string)
    ensures AllBlank(b) && s == DropBlanks(s) + b
  {
    b := "";
    if s != "" && IsBlank(s[|s| - 1]) {
      var last := s[|s| - 1];
      b := Dropped(s[..|s| - 1]);
      assert s == s[..|s| - 1] + [last];
      b := b + [last];
    }
  }

  lemma {:induction false} DropAfter(x: string, b: string)
    requires AllBlank(b) && x != "" && !IsBlank(x[|x| - 1])
    ensures DropBlanks(x + b) == x
  {
    if b == "" {
      assert x + b == x;
    } else {
      assert (x + b)[..|x + b| - 1] == x + b[..|b| - 1];
      DropAfter(x, b[..|b| - 1]);
    }
  }

  // ----- the part after the keyword -----

  lemma WordIsName(s: string)
    ensures IsName(s) <==> IsWord(s)
  {
    forall c: char ensures IsNameChar(c) <==>
      c in "ABCDEFGHIJKLMNOPQRSTUVWXYZ" || c in "abcdefghijklmnopqrstuvwxyz" || c in "0123456789" || c in "_-" {
      NameChars(c);
    }
    hide IsNameChar;
  }

  lemma NameChars(c: char)
    ensures IsNameChar(c) <==>
      c in "ABCDEFGHIJKLMNOPQRSTUVWXYZ" || c in "abcdefghijklmnopqrstuvwxyz" || c in "0123456789" || c in "_-"
  {
  }

  lemma WordEnds(name: string)
    requires IsWord(name)
    ensures IsName(name) && !IsBlank(name[0]) && !IsBlank(name[|name| - 1])
  {
    WordIsName(name);
    assert IsNameChar(name[0]) && IsNameChar(name[|name| - 1]);
  }

  /** A text without the carriage return that may end it. */
  function Stripped(t: string): string {
    if t != "" && t[|t| - 1] == '\r' then t[..|t| - 1] else t
  }

  lemma StrippedOf(c: string, cr: string)
    requires c != "" && c[|c| - 1] != '\r' && (cr == "" || cr == "\r")
    ensures Stripped(c + cr) == c
  {
    assert c + "" == c && (c + "\r")[..|c|] == c;
  }

  lemma Unstripped(t: string) returns (cr: string)
    ensures (cr == "" || cr == "\r") && t == Stripped(t) + cr
  {
    cr := if t != "" && t[|t| - 1] == '\r' then "\r" else "";
  }

  lemma BlankEnd(core: string, trail: string)
    requires AllBlank(trail)
    ensures var c := core + "-->" + trail;
      c != "" && c[|c| - 1] != '\r' && DropBlanks(c) == core + "-->"
  {
    DropAfter(core + "-->", trail);
  }

  /** `NameOf`, one step after another. */
  lemma NameSteps(s: string)
    ensures var u := DropBlanks(Stripped(SkipBlanks(s)));
      NameOf(s) == if s == "" || !IsBlank(s[0]) || |u| < 3 || u[|u| - 3..] != "-->" || !IsName(DropBlanks(u[..|u| - 3])) then None
                   else Some(DropBlanks(u[..|u| - 3]))
  {
    hide SkipBlanks, DropBlanks, IsName;
  }

  lemma GapSkipped(x: Spacing, c: string, name: string)
    requires x.Valid() && IsWord(name) && c == name + x.close + "-->" + x.trail
    ensures SkipBlanks(Tail(x, name)) == c + x.cr && Tail(x, name) != "" && IsBlank(Tail(x, name)[0])
  {
    WordEnds(name);
    hide IsWord, IsName, SkipBlanks;
    var t := c + x.cr;
    assert Tail(x, name) == x.gap + t && t[0] == name[0];
    SkipOver(x.gap, t);
  }

  /** The name that follows the gap is the one that is read. */
  lemma NameLaid(x: Spacing, name: string)
    requires x.Valid() && IsWord(name)
    ensures NameOf(Tail(x, name)) == Some(name)
  {
    WordEnds(name);
    NameSteps(Tail(x, name));
    hide NameOf, IsWord, IsName, DropBlanks, SkipBlanks, Stripped;
    var u := name + x.close + "-->";
    var c := u + x.trail;
    GapSkipped(x, c, name);
    BlankEnd(name + x.close, x.trail);
    StrippedOf(c, x.cr);
    assert u[|u| - 3..] == "-->" && u[..|u| - 3] == name + x.close;
    DropAfter(name, x.close);
  }

  /** Whatever is read as a name stands after a gap. */
  lemma NameFound(s: string, name: string) returns (x: Spacing)
    requires NameOf(s) == Some(name)
    ensures x.Valid() && IsWord(name) && s == Tail(x, name)
  {
    WordIsName(name);
    NameSteps(s);
    hide NameOf, IsWord, IsName, DropBlanks, SkipBlanks, Stripped;
    var gap := Skipped(s);
    var t := SkipBlanks(s);
    var cr := Unstripped(t);
    var trail := Dropped(Stripped(t));
    var u := DropBlanks(Stripped(t));
    var close := Dropped(u[..|u| - 3]);
    x := Spacing("", "", gap, close, trail, cr);
    assert u == u[..|u| - 3] + "-->";
    assert s == gap + (name + close + "-->" + trail + cr);
  }

  // ----- the whole line -----

  lemma LineLaid(x: Spacing, kind: MarkerKind, name: string)
    requires x.Valid() && IsWord(name)
    ensures MatchMarker(Line(x, Word(kind), name)) == Some(Marker(kind, name))
  {
    hide Tail, NameOf, MatchMarker, IsWord, Word;
    NameLaid(x, name);
    LineSteps(x, kind, Tail(x, name));
    FiveParts(x.lead, "<!--", x.open, Word(kind), Tail(x, name));
  }

  lemma FiveParts(a: string, b: string, c: string, d: string, e: string)
    ensures a + b + c + d + e == a + (b + (c + (d + e)))
  {
  }

  lemma LineSteps(x: Spacing, kind: MarkerKind, tail: string)
    requires x.Valid()
    ensures MatchMarker(x.lead + ("<!--" + (x.open + (Word(kind) + tail)))) == Named(kind, NameOf(tail))
  {
    hide NameOf, SkipBlanks;
    var rest := Word(kind) + tail;
    var s := "<!--" + (x.open + rest);
    SkipOver(x.lead, s);
    assert s[4..] == x.open + rest && rest[0] == 'c';
    SkipOver(x.open, rest);
    assert rest[|Word(kind)|..] == tail;
    assert rest[10] == Word(kind)[10];
  }

  lemma MatchSteps(line: string, kind: MarkerKind, name: string)
    requires MatchMarker(line) == Some(Marker(kind, name))
    ensures var s := SkipBlanks(line);
      && "<!--" <= s && Word(kind) <= SkipBlanks(s[4..])
      && NameOf(SkipBlanks(s[4..])[|Word(kind)|..]) == Some(name)
  {
    hide NameOf, SkipBlanks;
  }

  lemma LineFound(line: string, kind: MarkerKind, name: string) returns (x: Spacing)
    requires MatchMarker(line) == Some(Marker(kind, name))
    ensures x.Valid() && IsWord(name) && line == Line(x, Word(kind), name)
  {
    hide NameOf, SkipBlanks, IsWord, MatchMarker, Word, Tail;
    MatchSteps(line, kind, name);
    var lead := Skipped(line);
    var s := SkipBlanks(line);
    var open := Skipped(s[4..]);
    var t := SkipBlanks(s[4..]);
    var tail := t[|Word(kind)|..];
    var y := NameFound(tail, name);
    x := Spacing(lead, open, y.gap, y.close, y.trail, y.cr);
    TailApart(x, y, name);
    assert t == Word(kind) + tail;
    assert s == "<!--" + (open + (Word(kind) + tail));
    assert line == lead + "<!--" + open + Word(kind) + tail;
  }

  lemma TailApart(x: Spacing, y: Spacing, name: string)
    requires x.gap == y.gap && x.close == y.close && x.trail == y.trail && x.cr == y.cr
    ensures Tail(x, name) == Tail(y, name)
  {
  }

  /** A line is a marker exactly when it has the shape of one: an opening bracket, the keyword, a gap, a name of letters,
      digits, underscores and hyphens, a closing bracket, blanks around them, and perhaps a carriage return. */
  lemma MarkerIff(line: string, kind: MarkerKind, name: string)
    ensures MatchMarker(line) == Some(Marker(kind, name)) <==>
      IsWord(name) && exists x: Spacing :: x.Valid() && line == Line(x, Word(kind), name)
  {
    hide MatchMarker, Line, IsWord;
    if MatchMarker(line) == Some(Marker(kind, name)) {
      var _ := LineFound(line, kind, name);
    }
    forall x: Spacing | IsWord(name) && x.Valid() && line == Line(x, Word(kind), name)
      ensures MatchMarker(line) == Some(Marker(kind, name)) {
      LineLaid(x, kind, name);
    }
  }

  lemma LastOfLine(x: Spacing, keyword: string, name: string)
    requires x.Valid()
    ensures var bare := Line(x.(cr := ""), keyword, name);
      bare != "" && bare[|bare| - 1] != '\r' && Line(x, keyword, name) == bare + x.cr
  {
    var front := x.lead + "<!--" + x.open + keyword + x.gap + name + x.close;
    assert Line(x.(cr := ""), keyword, name) == front + "-->" + x.trail;
    BlankEnd(front, x.trail);
  }

  lemma ReturnsAgree(line: string, bare: string, cr: string)
    requires '\r' !in line && (cr == "" || cr == "\r") && bare != "" && bare[|bare| - 1] != '\r'
    ensures line == bare + cr ==> cr == ""
    ensures line + "\r" == bare + cr ==> line == bare
  {
    assert (bare + "\r")[|bare|] == '\r' && (line + "\r")[|line|] == '\r';
    assert (bare + "\r")[..|bare|] == bare && (line + "\r")[..|line|] == line && bare + "" == bare;
  }

  lemma ReturnAdded(line: string, kind: MarkerKind, name: string)
    requires '\r' !in line && MatchMarker(line) == Some(Marker(kind, name))
    ensures MatchMarker(line + "\r") == Some(Marker(kind, name))
  {
    hide MatchMarker, IsWord, Line;
    var x := LineFound(line, kind, name);
    LastOfLine(x, Word(kind), name);
    ReturnsAgree(line, Line(x.(cr := ""), Word(kind), name), x.cr);
    var y := x.(cr := "\r");
    LastOfLine(y, Word(kind), name);
    LineLaid(y, kind, name);
  }

  lemma ReturnRemoved(line: string, kind: MarkerKind, name: string)
    requires '\r' !in line && MatchMarker(line + "\r") == Some(Marker(kind, name))
    ensures MatchMarker(line) == Some(Marker(kind, name))
  {
    hide MatchMarker, IsWord, Line;
    var x := LineFound(line + "\r", kind, name);
    LastOfLine(x, Word(kind), name);
    ReturnsAgree(line, Line(x.(cr := ""), Word(kind), name), x.cr);
    LineLaid(x.(cr := ""), kind, name);
  }

  /** A carriage return at the end of a line makes no difference. */
  lemma ReturnIgnored(line: string)
    requires '\r' !in line
    ensures MatchMarker(line + "\r") == MatchMarker(line)
  {
    hide MatchMarker;
    var m, n := MatchMarker(line), MatchMarker(line + "\r");
    if m.Some? {
      ReturnAdded(line, m.value.kind, m.value.name);
    } else if n.Some? {
      ReturnRemoved(line, n.value.kind, n.value.name);
    }
  }
}
