/** How `normalizeNumstatPath` reads the two spellings that git has for a rename. */
module ChangeRenames {
  import opened Text
  import opened Wrappers
  import opened ChangeLog

  /** `before => target`, as git prints a rename of names that have nothing in common. */
  function Renamed(before: string, target: string): string {
    before + RENAME_ARROW + target
  }

  /** No arrow begins inside the one before `target`, or after it. */
  ghost predicate OneArrow(target: string) {
    !Contains(RENAME_ARROW[1..] + target, RENAME_ARROW)
  }

  // ----- the last arrow -----

  lemma OccursShift(before: string, s: string, sep: string, k: nat)
    requires |before| <= k
    ensures OccursAt(before + s, sep, k) <==> OccursAt(s, sep, k - |before|)
  {
    assert k + |sep| <= |before + s| ==> (before + s)[k..k + |sep|] == s[k - |before|..k - |before| + |sep|];
  }

  /** Two arrows share at most a blank. */
  lemma ArrowsApart(before: string, target: string, k: nat)
    requires OccursAt(Renamed(before, target), RENAME_ARROW, k) && |before| < k
    ensures |before| + 3 <= k
  {
    var s := Renamed(before, target);
    assert s[k..k + 4][0] == s[k] == ' ';
    assert s[|before| + 1] == '=' && s[|before| + 2] == '>';
  }

  lemma RenamedParts(before: string, target: string)
    ensures var s := Renamed(before, target);
      |s| == |before| + 4 + |target| && OccursAt(s, RENAME_ARROW, |before|) && s[|before| + 4..] == target
  {
    var s := Renamed(before, target);
    assert s[|before|..|before| + 4] == RENAME_ARROW;
  }

  lemma InArrow(before: string, target: string, k: nat)
    requires |before| < k
    ensures OccursAt(Renamed(before, target), RENAME_ARROW, k)
       <==> OccursAt(RENAME_ARROW[1..] + target, RENAME_ARROW, k - |before| - 1)
  {
    OccursShift(before + " ", RENAME_ARROW[1..] + target, RENAME_ARROW, k);
    assert RENAME_ARROW == " " + RENAME_ARROW[1..];
    hide OccursAt;
    assert Renamed(before, target) == (before + " ") + (RENAME_ARROW[1..] + target);
  }

  lemma SuffixOfSuffix(s: string, from: nat, target: string, n: nat)
    requires from <= |s| && s[from..] == target && n <= |target|
    ensures s[|s| - n..] == target[|target| - n..]
  {
  }

  lemma LastFits(before: string, target: string)
    ensures var after := AfterLast(Renamed(before, target), RENAME_ARROW);
      after.Some? && |after.value| <= |target| && after.value == target[|target| - |after.value|..]
    ensures var after := AfterLast(Renamed(before, target), RENAME_ARROW).value;
      OccursAt(Renamed(before, target), RENAME_ARROW, |before| + |target| - |after|)
  {
    hide AfterLast, OccursAt, Renamed;
    RenamedParts(before, target);
    var s := Renamed(before, target);
    AfterAll(s, RENAME_ARROW, |before|);
    AfterSome(s, RENAME_ARROW);
    SuffixOfSuffix(s, |before| + 4, target, |AfterLast(s, RENAME_ARROW).value|);
  }

  lemma LaterArrow(before: string, target: string)
    requires !OneArrow(target)
    ensures var after := AfterLast(Renamed(before, target), RENAME_ARROW);
      after.Some? && |after.value| < |target|
  {
    RenamedParts(before, target);
    LastFits(before, target);
    var s, tail := Renamed(before, target), RENAME_ARROW[1..] + target;
    var k :| OccursAt(tail, RENAME_ARROW, k);
    hide *;
    InArrow(before, target, |before| + 1 + k);
    AfterAll(s, RENAME_ARROW, |before| + 1 + k);
  }

  /** The last arrow is the given one exactly when no arrow begins later; otherwise less is left. */
  lemma LastSplits(before: string, target: string)
    ensures var after := AfterLast(Renamed(before, target), RENAME_ARROW);
      && after.Some? && |after.value| <= |target| && after.value == target[|target| - |after.value|..]
      && (after == Some(target) <==> OneArrow(target)) && (after != Some(target) ==> |after.value| + 3 <= |target|)
  {
    LastFits(before, target);
    var after := AfterLast(Renamed(before, target), RENAME_ARROW).value;
    assert |after| == |target| ==> after == target;
    if !OneArrow(target) {
      LaterArrow(before, target);
    }
    hide AfterLast, OccursAt, Renamed;
    if |after| < |target| {
      var k := |before| + |target| - |after|;
      ArrowsApart(before, target, k);
      InArrow(before, target, k);
    }
  }

  // ----- the blanks at the ends -----

  /** The shaft of the arrow stays, and so does the blank beside it that a name follows. */
  lemma TrimRenamed(before: string, target: string)
    ensures TrimSpace(Renamed(before, target)) == TrimLeft(before + " ") + "=>" + TrimRight(" " + target)
  {
    var tail := "=>" + (" " + target);
    assert Renamed(before, target) == (before + " ") + tail;
    TrimLeftBefore(before + " ", tail);
    var left := TrimLeft(before + " ");
    hide TrimLeft;
    assert left + tail == (left + "=>") + (" " + target);
    TrimRightAfter(left + "=>", " " + target);
  }

  lemma LeftOfArrow(before: string)
    ensures var left := TrimLeft(before + " ");
      && (left == "" <==> Blank(before)) && (left != "" ==> left[|left| - 1] == ' ')
  {
    var s := before + " ";
    TrimLeftExact(s);
    hide TrimLeft;
    var left := TrimLeft(s);
    if left == "" {
      assert s[..|s|] == s && forall c <- before :: c in s;
    } else {
      assert left[|left| - 1] == s[|s| - 1];
      assert left[0] == s[|s| - |left|];
      assert left[0] in before;
    }
  }

  lemma RightOfArrow(target: string)
    requires target != ""
    ensures var right := TrimRight(" " + target);
      && (right == "" || (right[0] == ' ' && right[1..] <= target && right != " " && !IsSpace(right[|right| - 1])))
      && (right == " " + target <==> !IsSpace(target[|target| - 1]))
  {
    var s := " " + target;
    TrimRightExact(s);
    var right := TrimRight(s);
    assert s[|s| - 1] == target[|target| - 1];
    assert right == s ==> right[|right| - 1] == s[|s| - 1];
    hide TrimRight;
    if right != s {
      assert s[|right|..][|s| - |right| - 1] == s[|s| - 1];
    }
    assert s[1..] == target;
  }

  // ----- names printed in full -----

  /** A new name that the reader gets right when it is printed after an arrow. */
  ghost predicate PlainTarget(target: string) {
    target != "" && !IsSpace(target[|target| - 1]) && NoBraceAtEnds(target) && OneArrow(target)
  }

  /** It ends in no blank and neither begins nor ends with a brace. */
  lemma PlainTargetReads(target: string)
    ensures PlainTarget(target) <==>
      && target != "" && !IsSpace(target[|target| - 1]) && target[0] !in "{}" && target[|target| - 1] !in "{}"
      && OneArrow(target)
  {
    hide IsSpace, OneArrow;
  }

  /** What comes through of text that has its arrow between the two names. */
  lemma ArrowBetween(before: string, target: string)
    ensures var kept := AfterArrow(Renamed(before, target));
      |kept| <= |target| && (target != "" ==> (kept == target <==> NoBraceAtEnds(target) && OneArrow(target)))
  {
    LastSplits(before, target);
    hide AfterLast, TrimBraces, OneArrow, Renamed, NoBraceAtEnds;
    BracesTrimmed(AfterLast(Renamed(before, target), RENAME_ARROW).value);
  }

  /** A blank old name takes the arrow's first blank with it. */
  lemma NothingBefore(target: string, right: string)
    requires target != "" && |right| <= |target| + 1 && (right == "" || !IsSpace(right[|right| - 1]))
    requires right == " " + target <==> !IsSpace(target[|target| - 1])
    ensures AfterArrow("=>" + right) != target
  {
    var tr := "=>" + right;
    if AfterLast(tr, RENAME_ARROW).Some? {
      AfterSome(tr, RENAME_ARROW);
      BracesTrimmed(AfterLast(tr, RENAME_ARROW).value);
      assert !OccursAt(tr, RENAME_ARROW, 0) by {
        assert |tr| >= 4 ==> tr[..4][0] == '=';
      }
    }
    hide AfterLast, TrimBraces, OccursAt, IsSpace;
    assert tr[|tr| - 1] == (if right == "" then '>' else right[|right| - 1]);
  }

  /** A blank new name does not come through. */
  lemma NothingAfter(target: string, tr: string)
    requires target != "" && IsSpace(target[|target| - 1]) && tr != "" && tr[|tr| - 1] == '>'
    ensures AfterArrow(tr) != target
  {
    if AfterLast(tr, RENAME_ARROW).Some? {
      AfterSome(tr, RENAME_ARROW);
      var t := AfterLast(tr, RENAME_ARROW).value;
      BracesTrimmed(t);
      hide AfterLast, TrimBraces, OccursAt;
      if t != "" {
        assert t[|t| - 1] == '>';
      }
    }
  }

  /** Reading once the blanks at the ends are gone. */
  lemma ReadTrimmed(s: string, tr: string)
    requires TrimSpace(s) == tr && '>' in tr
    ensures NormalizePath(s) == AfterArrow(tr)
  {
    var nowhere := "/dev/null";
    assert '>' !in nowhere;
    hide TrimSpace, AfterArrow;
  }

  lemma ArrowParts(l: string, r: string)
    ensures (l + " ") + "=>" + (" " + r) == Renamed(l, r)
  {
  }

  /** Exactly when a rename printed in full is counted under the new name. */
  lemma RenameCountsNewNameIff(before: string, target: string)
    requires target != ""
    ensures NormalizePath(Renamed(before, target)) == target <==> !Blank(before) && PlainTarget(target)
  {
    var left, right := TrimLeft(before + " "), TrimRight(" " + target);
    TrimRenamed(before, target);
    LeftOfArrow(before);
    RightOfArrow(target);
    hide TrimSpace, TrimLeft, TrimRight, Renamed, AfterArrow, Blank, OneArrow, NoBraceAtEnds, IsSpace, NormalizePath;
    var tr := left + "=>" + right;
    assert tr[|left| + 1] == '>';
    ReadTrimmed(Renamed(before, target), tr);
    if left == "" {
      assert tr == "=>" + right;
      NothingBefore(target, right);
    } else if right == "" {
      NothingAfter(target, tr);
    } else {
      var l, r := left[..|left| - 1], right[1..];
      assert left == l + " " && right == " " + r;
      ArrowParts(l, r);
      ArrowBetween(l, r);
    }
  }

  // ----- names with the common parts factored out -----

  /** `pre{a => b}post`. */
  function Factored(pre: string, a: string, b: string, post: string): string {
    Renamed(pre + "{" + a, b + "}" + post)
  }

  /** The new name, whose middle directory may be missing. */
  function NewName(pre: string, b: string, post: string): string
    requires b == "" ==> post != ""
  {
    if b == "" then pre + post[1..] else pre + b + post
  }

  /** What git factors out: directories before, with their slash, and the rest of the path after, from its slash on. */
  ghost predicate Factors(pre: string, b: string, post: string) {
    && (pre == "" || (|pre| > 1 && pre[|pre| - 1] == '/')) && (post == "" || post[0] == '/')
    && (b == "" ==> pre != "" && post != "")
  }

  function Braces(a: string, b: string): string {
    "{" + a + RENAME_ARROW + b + "}"
  }

  lemma FactoredParts(pre: string, a: string, b: string, post: string)
    ensures Factored(pre, a, b, post) == pre + (Braces(a, b) + post) == (pre + Braces(a, b)) + post
  {
    assert pre + "{" + a + RENAME_ARROW + (b + "}" + post) == pre + (("{" + a + RENAME_ARROW + b + "}") + post);
  }

  lemma TrimFactored(pre: string, a: string, b: string, post: string)
    ensures TrimSpace(Factored(pre, a, b, post)) == Factored(TrimLeft(pre), a, b, TrimRight(post))
  {
    var left := TrimLeft(pre);
    FactoredParts(pre, a, b, post);
    FactoredParts(left, a, b, post);
    FactoredParts(left, a, b, TrimRight(post));
    assert Braces(a, b)[0] == '{' && Braces(a, b)[|Braces(a, b)| - 1] == '}';
    hide Factored, Braces, TrimLeft, TrimRight;
    TrimLeftBefore(pre, Braces(a, b) + post);
    TrimRightAfter(left + Braces(a, b), post);
  }

  /** What is kept of such a rename: text with a closing brace inside, or less. */
  lemma FactoredKept(pre: string, a: string, b: string, post: string)
    ensures var kept, rest := NormalizePath(Factored(pre, a, b, post)), b + "}" + TrimRight(post);
      if OneArrow(rest) then kept == TrimBraces(rest) else |kept| + 3 <= |rest|
  {
    TrimFactored(pre, a, b, post);
    var left, right := TrimLeft(pre), TrimRight(post);
    var tr := Factored(left, a, b, right);
    hide TrimSpace, TrimLeft, TrimRight, AfterLast, OneArrow, TrimBraces, NormalizePath;
    assert tr[|left + "{" + a| + 2] == '>';
    ReadTrimmed(Factored(pre, a, b, post), tr);
    LastSplits(left + "{" + a, b + "}" + right);
    BracesTrimmed(AfterLast(tr, RENAME_ARROW).value);
  }

  lemma BraceClosed(b: string)
    requires NoBraceAtEnds(b)
    ensures TrimBraces(b + "}") == b
  {
    BracesLeft(b + "}");
    BracesRight(b);
    hide TrimBracesLeft;
    assert (b + "}")[..|b|] == b;
  }

  /** The brace inside never passes for the name. */
  lemma BraceInside(b: string, post: string, right: string)
    requires right <= post && (post == "" || post[0] == '/') && (b == "" ==> post != "")
    ensures var kept := TrimBraces(b + "}" + right);
      && (b == "" ==> |kept| <= |post|) && |kept| <= |b| + 1 + |post|
      && (b != "" ==> (kept == b + post <==> post == "" && NoBraceAtEnds(b)))
  {
    var rest := b + "}" + right;
    BracesTrimmed(rest);
    var kept := TrimBraces(rest);
    if b != "" && post == "" {
      assert rest == b + "}";
      if NoBraceAtEnds(b) {
        BraceClosed(b);
      }
      assert b + post == b;
    }
    hide TrimBraces;
    if b != "" && post != "" {
      assert (b + post)[|b|] == '/' && (b + post)[0] == b[0];
      assert rest[|b|] == '}' && rest[0] == b[0];
    }
  }

  /** Exactly when such a rename is counted under the new name: when nothing was factored out after all. */
  lemma FactoredCountsNewNameIff(pre: string, a: string, b: string, post: string)
    requires Factors(pre, b, post)
    ensures NormalizePath(Factored(pre, a, b, post)) == NewName(pre, b, post) <==>
      pre == "" && post == "" && NoBraceAtEnds(b) && OneArrow(b + "}")
  {
    var right := TrimRight(post);
    TrimRightExact(post);
    FactoredKept(pre, a, b, post);
    BraceInside(b, post, right);
    hide TrimRight, TrimBraces, OneArrow, NormalizePath, Factored, NoBraceAtEnds;
    assert post == "" ==> b + "}" + right == b + "}";
    assert pre == "" ==> NewName(pre, b, post) == b + post;
  }

  /** The directory is lost, and a brace stays. */
  lemma FactoredRenameCut(pre: string, a: string, b: string, post: string)
    requires b != "" && !IsBrace(b[0]) && OneArrow(b + "}" + post)
    requires post != "" && !IsBrace(post[|post| - 1]) && !IsSpace(post[|post| - 1])
    ensures NormalizePath(Factored(pre, a, b, post)) == b + "}" + post
  {
    FactoredKept(pre, a, b, post);
    BracesTrimmed(b + "}" + post);
    hide TrimBraces, OneArrow, NormalizePath, Factored;
    assert TrimRight(post) == post;
  }

  lemma FactoredRenameExample()
    ensures NormalizePath("s/{a => b}/f") == "b}/f"
  {
    var tail := RENAME_ARROW[1..] + "b}/f";
    assert !Contains(tail, RENAME_ARROW) by {
      assert tail == "=> b}/f";
      forall k: nat ensures !OccursAt(tail, RENAME_ARROW, k) {
        assert k + 4 <= |tail| ==> tail[k..k + 4][0] == tail[k] && tail[k..k + 4][1] == tail[k + 1];
      }
    }
    hide NormalizePath, Contains;
    assert Factored("s/", "a", "b", "/f") == "s/{a => b}/f";
    assert "b" + "}" + "/f" == "b}/f";
    FactoredRenameCut("s/", "a", "b", "/f");
  }
}
