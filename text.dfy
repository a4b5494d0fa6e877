/**
 * Plain string helpers the classifier and the splitter are built on:
 * ASCII whitespace, `str.strip()`, `str.lstrip(c)`, `str.split(c)`, `c.join(parts)`,
 * substring search, `str.isdigit()` and `str.lower()`.
 */
module Text {

  /**
   * ASCII whitespace: what `\s`, `str.isspace()` and `str.strip()` accept among ASCII
   * characters, the four separators `\x1c`-`\x1f` included.
   */
  predicate IsSpace(c: char) {
    c == ' ' || c == '\t' || c == '\n' || c == '\r' || c == '\U{000B}' || c == '\U{000C}'
    || ('\U{001C}' <= c <= '\U{001F}')
  }

  predicate AllSpace(s: string) {
    forall i :: 0 <= i < |s| ==> IsSpace(s[i])
  }

  /** Number of whitespace characters at the front of `s`. */
  function LeadingSpaces(s: string): (n: nat)
    ensures n <= |s|
  {
    if |s| > 0 && IsSpace(s[0]) then 1 + LeadingSpaces(s[1..]) else 0
  }

  /** `LeadingSpaces` counts the whole run of whitespace at the front, and no more. */
  lemma {:induction false} LeadingSpacesSpec(s: string)
    ensures AllSpace(s[..LeadingSpaces(s)])
    ensures LeadingSpaces(s) < |s| ==> !IsSpace(s[LeadingSpaces(s)])
    decreases |s|
  {
    if |s| > 0 && IsSpace(s[0]) {
      LeadingSpacesSpec(s[1..]);
      assert s[..LeadingSpaces(s)] == [s[0]] + s[1..][..LeadingSpaces(s[1..])];
    }
  }

  /** Number of whitespace characters at the back of `s`. */
  function TrailingSpaces(s: string): (n: nat)
    ensures n <= |s|
  {
    if |s| > 0 && IsSpace(s[|s| - 1]) then 1 + TrailingSpaces(s[..|s| - 1]) else 0
  }

  /** `TrailingSpaces` counts the whole run of whitespace at the back, and no more. */
  lemma {:induction false} TrailingSpacesSpec(s: string)
    ensures AllSpace(s[|s| - TrailingSpaces(s)..])
    ensures TrailingSpaces(s) < |s| ==> !IsSpace(s[|s| - TrailingSpaces(s) - 1])
    decreases |s|
  {
    if |s| > 0 && IsSpace(s[|s| - 1]) {
      var init := s[..|s| - 1];
      TrailingSpacesSpec(init);
      assert s[|s| - TrailingSpaces(s)..] == init[|init| - TrailingSpaces(init)..] + [s[|s| - 1]];
    }
  }

  /** `s.strip()`: `s` without its leading and trailing whitespace. */
  function Strip(s: string): (r: string)
    ensures |r| <= |s|
  {
    var t := s[LeadingSpaces(s)..];
    t[..|t| - TrailingSpaces(t)]
  }

  /** The runs `Strip` removes, as facts about `s` and its rest after the leading whitespace. */
  lemma StripRuns(s: string)
    ensures AllSpace(s[..LeadingSpaces(s)])
    ensures LeadingSpaces(s) < |s| ==> !IsSpace(s[LeadingSpaces(s)])
    ensures var t := s[LeadingSpaces(s)..];
      AllSpace(t[|t| - TrailingSpaces(t)..]) && (TrailingSpaces(t) < |t| ==> !IsSpace(t[|t| - TrailingSpaces(t) - 1]))
  {
    LeadingSpacesSpec(s);
    TrailingSpacesSpec(s[LeadingSpaces(s)..]);
  }

  /** What `Strip` keeps: the part of `s` between its leading and its trailing whitespace. */
  lemma StripSpec(s: string)
    ensures LeadingSpaces(s) + |Strip(s)| <= |s|
    ensures Strip(s) == s[LeadingSpaces(s)..LeadingSpaces(s) + |Strip(s)|]
    ensures AllSpace(s[LeadingSpaces(s) + |Strip(s)|..])
  {
    var n := LeadingSpaces(s);
    var t := s[n..];
    var m := |t| - TrailingSpaces(t);
    StripRuns(s);
    assert Strip(s) == t[..m];
    assert s[n + m..] == t[m..];
  }

  /** `Strip` gives the empty string exactly for whitespace, and otherwise ends on non-space characters. */
  lemma StripEnds(s: string)
    ensures Strip(s) == [] <==> AllSpace(s)
    ensures Strip(s) != [] ==> !IsSpace(Strip(s)[0]) && !IsSpace(Strip(s)[|Strip(s)| - 1])
  {
    StripEmptyOfSpace(s);
    SpaceOfStripEmpty(s);
    StripEndsSolid(s);
  }

  lemma StripEmptyOfSpace(s: string)
    ensures AllSpace(s) ==> Strip(s) == []
  {
    LeadingSpacesSpec(s);
  }

  lemma SpaceOfStripEmpty(s: string)
    ensures Strip(s) == [] ==> AllSpace(s)
  {
    var n := LeadingSpaces(s);
    var t := s[n..];
    if Strip(s) == [] {
      LeadingSpacesSpec(s);
      TrailingSpacesSpec(t);
      assert t == t[|t| - TrailingSpaces(t)..];
      assert n == |s|;
      assert s == s[..n];
    }
  }

  lemma StripEndsSolid(s: string)
    ensures Strip(s) != [] ==> !IsSpace(Strip(s)[0]) && !IsSpace(Strip(s)[|Strip(s)| - 1])
  {
    var n := LeadingSpaces(s);
    var t := s[n..];
    var r := t[..|t| - TrailingSpaces(t)];
    if r != [] {
      LeadingSpacesSpec(s);
      TrailingSpacesSpec(t);
      assert r[0] == s[n];
      assert r[|r| - 1] == t[|t| - TrailingSpaces(t) - 1];
    }
  }

  /** A text with non-space ends is its own strip. */
  lemma StripUnpadded(s: string)
    requires |s| > 0 && !IsSpace(s[0]) && !IsSpace(s[|s| - 1])
    ensures Strip(s) == s
  {
    StripPadded(s, 0, |s|);
    assert s[..0] == [] && s[|s|..] == [] && s[0..|s|] == s;
  }

  /** A string whose first character is not whitespace keeps it after stripping. */
  lemma StripKeepsFirst(s: string)
    requires |s| > 0 && !IsSpace(s[0])
    ensures |Strip(s)| > 0 && Strip(s)[0] == s[0]
  {
    StripRuns(s);
    assert LeadingSpaces(s) == 0;
  }

  /** Text padded with whitespace on both sides strips to the part between the padding. */
  lemma StripPadded(s: string, a: nat, b: nat)
    requires a < b <= |s|
    requires AllSpace(s[..a]) && AllSpace(s[b..])
    requires !IsSpace(s[a]) && !IsSpace(s[b - 1])
    ensures Strip(s) == s[a..b]
  {
    LeadingSpacesIs(s, a);
    var t := s[a..];
    assert t[|t| - (|s| - b)..] == s[b..];
    assert t[|t| - (|s| - b) - 1] == s[b - 1];
    TrailingSpacesIs(t, |s| - b);
    assert t[..|t| - (|s| - b)] == s[a..b];
  }

  lemma {:induction false} LeadingSpacesIs(s: string, a: nat)
    requires a < |s| && AllSpace(s[..a]) && !IsSpace(s[a])
    ensures LeadingSpaces(s) == a
    decreases a
  {
    if a > 0 {
      assert s[0] == s[..a][0];
      assert s[1..][..a - 1] == s[..a][1..];
      LeadingSpacesIs(s[1..], a - 1);
    }
  }

  lemma {:induction false} TrailingSpacesIs(s: string, m: nat)
    requires m < |s| && AllSpace(s[|s| - m..]) && !IsSpace(s[|s| - m - 1])
    ensures TrailingSpaces(s) == m
    decreases m
  {
    if m > 0 {
      var init := s[..|s| - 1];
      assert s[|s| - 1] == s[|s| - m..][m - 1];
      assert init[|init| - (m - 1)..] == s[|s| - m..][..m - 1];
      assert init[|init| - (m - 1) - 1] == s[|s| - m - 1];
      TrailingSpacesIs(init, m - 1);
    }
  }

  /** Padding a text with non-space ends by whitespace on both sides does not change its strip. */
  lemma StripParts(p: string, t: string, q: string)
    requires AllSpace(p) && AllSpace(q)
    requires |t| > 0 && !IsSpace(t[0]) && !IsSpace(t[|t| - 1])
    ensures Strip(p + t + q) == t
  {
    var s := p + t + q;
    assert s[..|p|] == p && s[|p| + |t|..] == q && s[|p|..|p| + |t|] == t;
    StripPadded(s, |p|, |p| + |t|);
  }

  /** `s.lstrip(c)`: `s` without the run of `c` at its front. */
  function LStripChar(s: string, c: char): (r: string)
    ensures |r| <= |s|
  {
    if |s| > 0 && s[0] == c then LStripChar(s[1..], c) else s
  }

  /** `LStripChar` drops exactly the run of `c` at the front. */
  lemma {:induction false} LStripCharSpec(s: string, c: char)
    ensures LStripChar(s, c) == s[|s| - |LStripChar(s, c)|..]
    ensures forall i :: 0 <= i < |s| - |LStripChar(s, c)| ==> s[i] == c
    ensures LStripChar(s, c) != [] ==> LStripChar(s, c)[0] != c
    decreases |s|
  {
    if |s| > 0 && s[0] == c {
      LStripCharSpec(s[1..], c);
      assert s[1..][|s| - 1 - |LStripChar(s, c)|..] == s[|s| - |LStripChar(s, c)|..];
      forall i | 0 <= i < |s| - |LStripChar(s, c)| ensures s[i] == c {
        if i > 0 {
          assert s[i] == s[1..][i - 1];
        }
      }
    }
  }

  /** `s.startswith(p)`. */
  predicate StartsWith(s: string, p: string) {
    |p| <= |s| && s[..|p|] == p
  }

  /** `p in s` for strings: `p` occurs somewhere in `s`. */
  predicate Contains(s: string, p: string)
    decreases |s|
  {
    StartsWith(s, p) || (|s| > 0 && Contains(s[1..], p))
  }

  /** `p` occurs in `s` starting at position `i`. */
  predicate OccursAt(s: string, p: string, i: int) {
    0 <= i <= |s| - |p| && s[i..i + |p|] == p
  }

  /** `Contains` holds exactly when some position of `s` starts an occurrence of `p`. */
  lemma {:induction false} ContainsAt(s: string, p: string)
    ensures Contains(s, p) <==> exists i :: OccursAt(s, p, i)
    decreases |s|
  {
    if StartsWith(s, p) {
      assert OccursAt(s, p, 0);
    } else if |s| > 0 {
      ContainsAt(s[1..], p);
      if Contains(s[1..], p) {
        var i :| OccursAt(s[1..], p, i);
        assert OccursAt(s, p, i + 1);
      }
      if exists i :: OccursAt(s, p, i) {
        var i :| OccursAt(s, p, i);
        assert i != 0;
        assert OccursAt(s[1..], p, i - 1);
      }
    }
  }

  /** `s.split(sep)`: the pieces of `s` between occurrences of `sep`. */
  function Split(s: string, sep: char): (parts: seq<string>)
    ensures |parts| >= 1
    decreases |s|
  {
    if s == [] then [""]
    else
      var rest := Split(s[1..], sep);
      if s[0] == sep then [""] + rest
      else [[s[0]] + rest[0]] + rest[1..]
  }

  /** No piece of a split holds the separator. */
  lemma {:induction false} SplitNoSep(s: string, sep: char)
    ensures forall k :: 0 <= k < |Split(s, sep)| ==> sep !in Split(s, sep)[k]
    decreases |s|
  {
    if s != [] {
      SplitNoSep(s[1..], sep);
    }
  }

  /** `sep.join(parts)`. */
  function Join(parts: seq<string>, sep: char): string
    decreases |parts|
  {
    if parts == [] then ""
    else if |parts| == 1 then parts[0]
    else parts[0] + [sep] + Join(parts[1..], sep)
  }

  lemma JoinConsHead(c: char, p: string, rest: seq<string>, sep: char)
    ensures Join([[c] + p] + rest, sep) == [c] + Join([p] + rest, sep)
  {
    if rest != [] {
      assert ([[c] + p] + rest)[1..] == rest;
      assert ([p] + rest)[1..] == rest;
    }
  }

  /** Joining the pieces of a split gives back the original text. */
  lemma {:induction false} JoinSplit(s: string, sep: char)
    ensures Join(Split(s, sep), sep) == s
    decreases |s|
  {
    if s != [] {
      var rest := Split(s[1..], sep);
      JoinSplit(s[1..], sep);
      if s[0] == sep {
        assert ([""] + rest)[1..] == rest;
      } else {
        JoinConsHead(s[0], rest[0], rest[1..], sep);
        assert [rest[0]] + rest[1..] == rest;
      }
    }
  }

  /** Splitting a join of separator-free pieces gives back the pieces. */
  lemma {:induction false} SplitJoin(parts: seq<string>, sep: char)
    requires |parts| >= 1
    requires forall k :: 0 <= k < |parts| ==> sep !in parts[k]
    ensures Split(Join(parts, sep), sep) == parts
    decreases |parts|, |parts[0]|
  {
    var p := parts[0];
    if p == [] {
      if |parts| > 1 {
        SplitJoin(parts[1..], sep);
        assert Join(parts, sep) == [sep] + Join(parts[1..], sep);
        assert ([sep] + Join(parts[1..], sep))[1..] == Join(parts[1..], sep);
      }
    } else {
      var parts' := [p[1..]] + parts[1..];
      assert parts'[1..] == parts[1..];
      SplitJoin(parts', sep);
      JoinConsHead(p[0], p[1..], parts[1..], sep);
      assert [p[0]] + p[1..] == p;
      assert parts == [[p[0]] + p[1..]] + parts[1..];
      var j := Join(parts, sep);
      assert j == [p[0]] + Join(parts', sep);
      assert j[1..] == Join(parts', sep);
    }
  }

  /** The last piece of a split is empty only when the text is empty or ends with the separator. */
  lemma {:induction false} SplitLastEmpty(s: string, sep: char)
    ensures var parts := Split(s, sep); parts[|parts| - 1] == "" ==> s == "" || s[|s| - 1] == sep
    decreases |s|
  {
    if s != [] {
      var rest := Split(s[1..], sep);
      SplitLastEmpty(s[1..], sep);
      if s[0] == sep {
        assert Split(s, sep)[|Split(s, sep)| - 1] == rest[|rest| - 1];
      } else if |rest| > 1 {
        assert Split(s, sep)[|Split(s, sep)| - 1] == rest[|rest| - 1];
      }
    }
  }

  /** `str.splitlines()` on text whose only line break is `\n`: a final `\n` ends the last line. */
  function SplitLines(s: string): (lines: seq<string>)
    ensures forall k :: 0 <= k < |lines| ==> '\n' !in lines[k]
  {
    SplitNoSep(s, '\n');
    var parts := Split(s, '\n');
    if parts[|parts| - 1] == "" then parts[..|parts| - 1] else parts
  }

  predicate IsDigit(c: char) {
    '0' <= c <= '9'
  }

  /** `s.isdigit()` for ASCII text: non-empty and made of decimal digits only. */
  predicate IsDigits(s: string) {
    |s| > 0 && forall i :: 0 <= i < |s| ==> IsDigit(s[i])
  }

  /** `int(s)` for a string of decimal digits. */
  function DigitsValue(s: string): (n: nat)
    requires forall i :: 0 <= i < |s| ==> IsDigit(s[i])
    decreases |s|
  {
    if s == [] then 0
    else
      var d := s[|s| - 1];
      assert IsDigit(d);
      10 * DigitsValue(s[..|s| - 1]) + (d as int - '0' as int)
  }

  function LowerChar(c: char): char {
    if 'A' <= c <= 'Z' then (c as int - 'A' as int + 'a' as int) as char else c
  }

  /** `s.lower()` for ASCII text. */
  function Lower(s: string): (r: string)
    ensures |r| == |s|
    ensures forall i :: 0 <= i < |s| ==> r[i] == LowerChar(s[i])
  {
    seq(|s|, i requires 0 <= i < |s| => LowerChar(s[i]))
  }

  /** `s.replace(c, "", 1)`: `s` without the first occurrence of `c`. */
  function RemoveFirst(s: string, c: char): (r: string)
    decreases |s|
  {
    if s == [] then []
    else if s[0] == c then s[1..]
    else [s[0]] + RemoveFirst(s[1..], c)
  }

  /** Number of occurrences of `c` in `s`. */
  function Count(s: string, c: char): nat
    decreases |s|
  {
    if s == [] then 0 else (if s[0] == c then 1 else 0) + Count(s[1..], c)
  }
}
