/**
 * The line classifier of mdbeamer/md_helper.py: six predicates over one line of markdown.
 * Each regular expression of the source is restated as a direct string function; `\s` and
 * `strip()` are taken over ASCII whitespace, and `.` does not match a line break, as in the
 * regular expressions.
 */
module MdHelper {
  import opened Text

  // ---------------------------------------------------------------- comments

  /** `is_comment`: `^\s*<!--.*-->\s*$` — the stripped line is one HTML comment on one line. */
  predicate IsComment(line: string) {
    var t := Strip(line);
    |t| >= 7 && t[..4] == "<!--" && t[|t| - 3..] == "-->" && '\n' !in t
  }

  /** The regular expression's reading: whitespace, `<!--`, a part without line breaks, `-->`, whitespace, between `a` and `b`. */
  ghost predicate CommentAt(line: string, a: int, b: int) {
    0 <= a && a + 7 <= b <= |line| && AllSpace(line[..a]) && AllSpace(line[b..])
    && line[a..a + 4] == "<!--" && line[b - 3..b] == "-->" && '\n' !in line[a..b]
  }

  /** `IsComment` accepts exactly the lines the regular expression matches. */
  lemma CommentMatchesRegex(line: string)
    ensures IsComment(line) <==> exists a, b :: CommentAt(line, a, b)
  {
    if IsComment(line) {
      StripSpec(line);
      LeadingSpacesSpec(line);
      var a := LeadingSpaces(line);
      assert CommentAt(line, a, a + |Strip(line)|);
    }
    if exists a, b :: CommentAt(line, a, b) {
      var a, b :| CommentAt(line, a, b);
      assert line[a] == '<' && line[b - 1] == '>';
      StripPadded(line, a, b);
      var t := Strip(line);
      assert t[..4] == line[a..a + 4];
      assert t[|t| - 3..] == line[b - 3..b];
    }
  }

  // ----------------------------------------------------------------- headers

  /** Length of the run of `#` at the front of `s`. */
  function LeadingHashes(s: string): (n: nat)
    ensures n <= |s|
    ensures forall i :: 0 <= i < n ==> s[i] == '#'
    ensures n < |s| ==> s[n] != '#'
  {
    if |s| > 0 && s[0] == '#' then 1 + LeadingHashes(s[1..]) else 0
  }

  /**
   * `get_header_level`: `^(#{1,6})\s`. Backtracking inside `#{1,6}` never helps, since a
   * shorter run is followed by `#`, which is not whitespace.
   */
  function HeaderLevel(line: string): (level: nat)
    ensures level <= 6
    ensures level > 0 ==> |line| > level && line[0] == '#' && IsSpace(line[level])
  {
    var n := LeadingHashes(line);
    if 1 <= n <= 6 && n < |line| && IsSpace(line[n]) then n else 0
  }

  /** The level is `k > 0` exactly when the line starts with exactly `k` hashes and then whitespace. */
  lemma HeaderLevelExact(line: string, k: nat)
    requires k >= 1
    ensures HeaderLevel(line) == k <==>
      k <= 6 && k < |line| && IsSpace(line[k]) && forall i :: 0 <= i < k ==> line[i] == '#'
  {
    if k <= 6 && k < |line| && IsSpace(line[k]) && forall i :: 0 <= i < k ==> line[i] == '#' {
      var n := LeadingHashes(line);
      assert n == k;
    }
  }

  /** A run of seven or more hashes is not a header. */
  lemma SevenHashesNotHeader(line: string)
    requires |line| >= 7 && forall i :: 0 <= i < 7 ==> line[i] == '#'
    ensures HeaderLevel(line) == 0
  {
    assert LeadingHashes(line) >= 7;
  }

  // ------------------------------------------------------------ empty lines

  /** `is_empty`: a comment line or a whitespace-only line. */
  predicate IsEmpty(line: string) {
    IsComment(line) || Strip(line) == ""
  }

  // ---------------------------------------------------------------- dividers

  predicate IsRuleChar(c: char) {
    c == '-' || c == '*' || c == '_'
  }

  /**
   * `is_divider`: the stripped line has at least three characters, all of them `-`, `*` or
   * `_`, and contains `---`, `***` or `___`.
   */
  predicate IsDivider(line: string) {
    var t := Strip(line);
    |t| >= 3 && (forall i :: 0 <= i < |t| ==> IsRuleChar(t[i]))
    && (Contains(t, "---") || Contains(t, "***") || Contains(t, "___"))
  }

  // ------------------------------------------------------------------ images

  /** `.*?\)` from the start of `s`: a `)` comes before any line break. */
  predicate CloseParen(s: string)
    decreases |s|
  {
    |s| > 0 && (s[0] == ')' || (s[0] != '\n' && CloseParen(s[1..])))
  }

  /** `.*?\]\(.*?\)` from the start of `s`. */
  predicate BracketParen(s: string)
    decreases |s|
  {
    |s| >= 2 && ((s[0] == ']' && s[1] == '(' && CloseParen(s[2..])) || (s[0] != '\n' && BracketParen(s[1..])))
  }

  /** `contains_image`: `re.search(r"!\[.*?\]\(.*?\)", line)` finds a match somewhere. */
  predicate ContainsImage(line: string)
    decreases |line|
  {
    |line| >= 2 && ((line[0] == '!' && line[1] == '[' && BracketParen(line[2..])) || ContainsImage(line[1..]))
  }

  /** A match of the image pattern: `![` at `i`, `](` at `j`, `)` at `k`, no line break in between. */
  ghost predicate ImageAt(s: string, i: int, j: int, k: int) {
    0 <= i && i + 2 <= j && j + 2 <= k < |s|
    && s[i..i + 2] == "![" && s[j..j + 2] == "](" && s[k] == ')'
    && '\n' !in s[i + 2..j] && '\n' !in s[j + 2..k]
  }

  ghost predicate ParenAt(s: string, k: int) {
    0 <= k < |s| && s[k] == ')' && '\n' !in s[..k]
  }

  ghost predicate BracketParenAt(s: string, j: int, k: int) {
    0 <= j && j + 2 <= k < |s| && s[j..j + 2] == "](" && s[k] == ')'
    && '\n' !in s[..j] && '\n' !in s[j + 2..k]
  }

  lemma {:induction false} CloseParenAt(s: string)
    ensures CloseParen(s) <==> exists k :: ParenAt(s, k)
    decreases |s|
  {
    if |s| > 0 {
      if s[0] == ')' {
        assert ParenAt(s, 0);
      } else {
        CloseParenAt(s[1..]);
        if CloseParen(s) {
          var k :| ParenAt(s[1..], k);
          assert s[..k + 1] == [s[0]] + s[1..][..k];
          assert ParenAt(s, k + 1);
        }
        if exists k :: ParenAt(s, k) {
          var k :| ParenAt(s, k);
          assert s[0] == s[..k][0];
          assert s[1..][..k - 1] == s[..k][1..];
          assert ParenAt(s[1..], k - 1);
        }
      }
    }
  }

  lemma SliceOfDrop(s: string, d: nat, a: nat, b: nat)
    requires d <= |s| && a <= b <= |s| - d
    ensures s[d..][a..b] == s[d + a..d + b]
  {
  }

  lemma SliceOfTail(s: string, a: int, b: int)
    requires 0 <= a <= b < |s|
    ensures s[1..][a..b] == s[a + 1..b + 1]
  {
  }

  lemma {:induction false} BracketParenSound(s: string)
    requires BracketParen(s)
    ensures exists j, k :: BracketParenAt(s, j, k)
    decreases |s|
  {
    if s[0] == ']' && s[1] == '(' && CloseParen(s[2..]) {
      CloseParenAt(s[2..]);
      var k :| ParenAt(s[2..], k);
      assert s[2..][..k] == s[2..k + 2];
      assert BracketParenAt(s, 0, k + 2);
    } else {
      BracketParenSound(s[1..]);
      var j, k :| BracketParenAt(s[1..], j, k);
      assert s[..j + 1] == [s[0]] + s[1..][..j];
      SliceOfTail(s, j, j + 2);
      SliceOfTail(s, j + 2, k);
      assert BracketParenAt(s, j + 1, k + 1);
    }
  }

  lemma {:induction false} BracketParenComplete(s: string, j: int, k: int)
    requires BracketParenAt(s, j, k)
    ensures BracketParen(s)
    decreases |s|
  {
    if j == 0 {
      assert s[2..][..k - 2] == s[2..k];
      assert ParenAt(s[2..], k - 2);
      CloseParenAt(s[2..]);
    } else {
      assert s[0] == s[..j][0];
      assert s[1..][..j - 1] == s[..j][1..];
      SliceOfTail(s, j - 1, j + 1);
      SliceOfTail(s, j + 1, k - 1);
      BracketParenComplete(s[1..], j - 1, k - 1);
    }
  }

  lemma {:induction false} ImageSound(s: string)
    requires ContainsImage(s)
    ensures exists i, j, k :: ImageAt(s, i, j, k)
    decreases |s|
  {
    if s[0] == '!' && s[1] == '[' && BracketParen(s[2..]) {
      BracketParenSound(s[2..]);
      var j, k :| BracketParenAt(s[2..], j, k);
      SliceOfDrop(s, 2, 0, j);
      SliceOfDrop(s, 2, j, j + 2);
      SliceOfDrop(s, 2, j + 2, k);
      assert ImageAt(s, 0, j + 2, k + 2);
    } else {
      ImageSound(s[1..]);
      var i, j, k :| ImageAt(s[1..], i, j, k);
      assert s[i + 1..i + 3] == s[1..][i..i + 2];
      assert s[j + 1..j + 3] == s[1..][j..j + 2];
      SliceOfTail(s, i + 2, j);
      SliceOfTail(s, j + 2, k);
      assert ImageAt(s, i + 1, j + 1, k + 1);
    }
  }

  lemma {:induction false} ImageComplete(s: string, i: int, j: int, k: int)
    requires ImageAt(s, i, j, k)
    ensures ContainsImage(s)
    decreases |s|
  {
    if i == 0 {
      SliceOfDrop(s, 2, 0, j - 2);
      SliceOfDrop(s, 2, j - 2, j);
      SliceOfDrop(s, 2, j, k - 2);
      BracketParenComplete(s[2..], j - 2, k - 2);
    } else {
      SliceOfTail(s, i - 1, i + 1);
      SliceOfTail(s, j - 1, j + 1);
      SliceOfTail(s, i + 1, j - 1);
      SliceOfTail(s, j + 1, k - 1);
      ImageComplete(s[1..], i - 1, j - 1, k - 1);
    }
  }

  /** The image pattern matches where `![`, `](` and `)` stand in order on a line without line breaks. */
  lemma ImageAtMarks(s: string, i: nat, j: nat, k: nat)
    requires i + 2 <= j && j + 2 <= k < |s|
    requires s[i] == '!' && s[i + 1] == '[' && s[j] == ']' && s[j + 1] == '(' && s[k] == ')'
    requires forall m :: 0 <= m < |s| ==> s[m] != '\n'
    ensures ContainsImage(s)
  {
    assert s[i..i + 2] == "![" && s[j..j + 2] == "](";
    assert '\n' !in s[i + 2..j] && '\n' !in s[j + 2..k];
    ImageComplete(s, i, j, k);
  }

  /** `ContainsImage` holds exactly when the image pattern matches somewhere in the line. */
  lemma ContainsImageMatch(s: string)
    ensures ContainsImage(s) <==> exists i, j, k :: ImageAt(s, i, j, k)
  {
    if ContainsImage(s) {
      ImageSound(s);
    }
    if exists i, j, k :: ImageAt(s, i, j, k) {
      var i, j, k :| ImageAt(s, i, j, k);
      ImageComplete(s, i, j, k);
    }
  }

  // -------------------------------------------------------------- decorators

  /** `contains_deco`: `^\s*@\(.*?\)\s*$` — the stripped line is `@(`, a part without line breaks, `)`. */
  predicate ContainsDeco(line: string) {
    var t := Strip(line);
    |t| >= 3 && t[..2] == "@(" && t[|t| - 1] == ')' && '\n' !in t
  }

  /** The regular expression's reading of a decorator line, between `a` and `b`. */
  ghost predicate DecoAt(line: string, a: int, b: int) {
    0 <= a && a + 3 <= b <= |line| && AllSpace(line[..a]) && AllSpace(line[b..])
    && line[a..a + 2] == "@(" && line[b - 1] == ')' && '\n' !in line[a..b]
  }

  /** `ContainsDeco` accepts exactly the lines the regular expression matches. */
  lemma DecoMatchesRegex(line: string)
    ensures ContainsDeco(line) <==> exists a, b :: DecoAt(line, a, b)
  {
    if ContainsDeco(line) {
      StripSpec(line);
      LeadingSpacesSpec(line);
      var a := LeadingSpaces(line);
      assert DecoAt(line, a, a + |Strip(line)|);
    }
    if exists a, b :: DecoAt(line, a, b) {
      var a, b :| DecoAt(line, a, b);
      assert line[a] == '@';
      StripPadded(line, a, b);
      assert Strip(line)[..2] == line[a..a + 2];
    }
  }

  // ------------------------------------------------------------- disjointness

  /** A divider has header level 0, is not empty and is not a decorator line. */
  lemma DividerIsOnlyDivider(line: string)
    requires IsDivider(line)
    ensures HeaderLevel(line) == 0 && !IsEmpty(line) && !ContainsDeco(line)
  {
    var t := Strip(line);
    assert IsRuleChar(t[0]);
    if HeaderLevel(line) > 0 {
      StripKeepsFirst(line);
    }
  }

  /** A decorator line has header level 0 and is not empty. */
  lemma DecoIsNotHeader(line: string)
    requires ContainsDeco(line)
    ensures HeaderLevel(line) == 0 && !IsEmpty(line)
  {
    var t := Strip(line);
    assert t[0] == '@';
    if HeaderLevel(line) > 0 {
      StripKeepsFirst(line);
    }
  }

  /** A header line is neither a divider, a decorator line nor empty. */
  lemma HeaderIsOnlyHeader(line: string)
    requires HeaderLevel(line) > 0
    ensures !IsDivider(line) && !ContainsDeco(line) && !IsEmpty(line)
  {
    StripKeepsFirst(line);
    var t := Strip(line);
    assert t[0] == '#';
    assert !IsRuleChar(t[0]);
  }

  /** A whitespace-only line is empty and is nothing else. */
  lemma BlankIsOnlyBlank(line: string)
    requires Strip(line) == ""
    ensures IsEmpty(line) && HeaderLevel(line) == 0 && !IsDivider(line) && !ContainsDeco(line)
  {
    if HeaderLevel(line) > 0 {
      StripKeepsFirst(line);
    }
  }

  /** A comment line is empty but not blank, and is neither a header, a divider nor a decorator line. */
  lemma CommentIsOnlyComment(line: string)
    requires IsComment(line)
    ensures IsEmpty(line) && Strip(line) != "" && HeaderLevel(line) == 0 && !IsDivider(line) && !ContainsDeco(line)
  {
    var t := Strip(line);
    assert t[0] == '<';
    if HeaderLevel(line) > 0 {
      StripKeepsFirst(line);
    }
    assert !IsRuleChar(t[0]);
  }

  // --------------------------------------------- expected values of the source
  // The expected outputs that the source's self-test block prints.

  lemma {:induction false} NoBangNoImage(s: string)
    requires '!' !in s
    ensures !ContainsImage(s)
    decreases |s|
  {
    if |s| >= 2 {
      assert s[0] != '!';
      NoBangNoImage(s[1..]);
    }
  }

  lemma SelfTestComment()
    ensures IsComment("<!-- This is a comment -->") && IsEmpty("<!-- This is a comment -->")
  {
    var s := "<!-- This is a comment -->";
    StripUnpadded(s);
    assert s[..4] == "<!--" && s[|s| - 3..] == "-->";
    assert forall i :: 0 <= i < |s| ==> s[i] != '\n';
  }

  lemma SelfTestNotComment()
    ensures !IsComment("This is not a comment") && !IsEmpty("This is not a comment")
  {
    StripUnpadded("This is not a comment");
  }

  lemma SelfTestBlank()
    ensures IsEmpty(" \n")
  {
    assert AllSpace(" \n");
  }

  lemma SelfTestHeaderOne()
    ensures HeaderLevel("# Header 1") == 1
  {
  }

  lemma SelfTestHeaderThree()
    ensures HeaderLevel("### Header 3") == 3
  {
  }

  lemma SelfTestNotHeader()
    ensures HeaderLevel("Normal text") == 0
  {
  }

  lemma SelfTestSevenHashes()
    ensures HeaderLevel("####### Not a valid header") == 0
  {
    SevenHashesNotHeader("####### Not a valid header");
  }

  lemma SelfTestDashes()
    ensures IsDivider("---")
  {
  }

  lemma SelfTestStars()
    ensures IsDivider("***")
  {
  }

  lemma SelfTestUnderscores()
    ensures IsDivider("___")
  {
  }

  lemma SelfTestTwoDashes()
    ensures !IsDivider("--")
  {
  }

  lemma SelfTestPaddedDivider()
    ensures IsDivider("  ----  ")
  {
    StripParts("  ", "----", "  ");
    assert "  " + "----" + "  " == "  ----  ";
    assert StartsWith("----", "---");
  }

  lemma SelfTestSpacedDashes()
    ensures !IsDivider("- - -")
  {
    var t := "- - -";
    StripUnpadded(t);
    assert !IsRuleChar(t[1]);
  }

  lemma SelfTestNotDivider()
    ensures !IsDivider("This is not a divider")
  {
    var t := "This is not a divider";
    StripUnpadded(t);
    assert !IsRuleChar(t[0]);
  }

  lemma SelfTestImage()
    ensures ContainsImage("![Alt text](image.jpg)")
  {
    var s := "![Alt text](image.jpg)";
    assert s[0..2] == "![" && s[10..12] == "](" && s[21] == ')';
    ImageComplete(s, 0, 10, 21);
  }

  lemma SelfTestEmptyAlt()
    ensures ContainsImage("![](image.jpg)")
  {
    var s := "![](image.jpg)";
    assert forall m :: 0 <= m < |s| ==> s[m] != '\n';
    assert s[0] == '!' && s[1] == '[' && s[2] == ']' && s[3] == '(' && s[13] == ')';
    ImageAtMarks(s, 0, 2, 13);
  }

  lemma SelfTestEmptyAltAndUrl()
    ensures ContainsImage("![]()")
  {
  }

  lemma SelfTestInlineImage()
    ensures ContainsImage("This is an image: ![Alt text](image.jpg)")
  {
    var s := "This is an image: ![Alt text](image.jpg)";
    assert forall m :: 0 <= m < |s| ==> s[m] != '\n';
    assert s[18] == '!' && s[19] == '[' && s[28] == ']' && s[29] == '(' && s[39] == ')';
    ImageAtMarks(s, 18, 28, 39);
  }

  lemma SelfTestNotImage()
    ensures !ContainsImage("This is not an image")
  {
    NoBangNoImage("This is not an image");
  }

  lemma SelfTestDeco()
    ensures ContainsDeco("@(layout=split, background=blue)")
  {
    var s := "@(layout=split, background=blue)";
    StripUnpadded(s);
    assert forall i :: 0 <= i < |s| ==> s[i] != '\n';
  }

  lemma SelfTestNotDeco()
    ensures !ContainsDeco("This is not a deco")
  {
    StripUnpadded("This is not a deco");
  }

  lemma SelfTestDecoWithText()
    ensures !ContainsDeco("@(key=value) Some text")
  {
    StripUnpadded("@(key=value) Some text");
  }

  lemma SelfTestEmptyDeco()
    ensures ContainsDeco("@()")
  {
  }

  /** A line whose part between `a` and `b` is `@(`…`)` without line breaks, with whitespace around it, is a decorator line. */
  lemma PaddedDeco(s: string, a: nat, b: nat)
    requires a + 3 <= b <= |s|
    requires forall i :: 0 <= i < a ==> IsSpace(s[i])
    requires forall i :: b <= i < |s| ==> IsSpace(s[i])
    requires s[a] == '@' && s[a + 1] == '(' && s[b - 1] == ')'
    requires forall i :: a <= i < b ==> s[i] != '\n'
    ensures ContainsDeco(s)
  {
    assert AllSpace(s[..a]) && AllSpace(s[b..]);
    StripPadded(s, a, b);
    var t := Strip(s);
    assert t[..2] == "@(";
    assert forall i :: 0 <= i < |t| ==> t[i] == s[a + i];
  }

  lemma SelfTestPaddedDeco()
    ensures ContainsDeco("  @(layout=default)  ")
  {
    var s := "  @(layout=default)  ";
    assert forall i :: 0 <= i < |s| ==> s[i] != '\n';
    assert s[0] == ' ' && s[1] == ' ' && s[19] == ' ' && s[20] == ' ';
    PaddedDeco(s, 2, 19);
  }
}
