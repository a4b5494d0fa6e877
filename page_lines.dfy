/**
 * What the lines of a finished page look like: `create_page` leaves decorator lines out of
 * `raw_md`, dividers never reach a page, and neither `_preprocess` nor `chunk` brings one
 * back. So no line of a page's body and no line of any of its chunks is a divider or a
 * decorator line.
 */
module PageLines {
  import opened Wrappers
  import opened Text
  import opened MdHelper
  import opened Options
  import opened Frontmatter
  import opened Pages
  import opened Pagination
  import opened PaginationFacts
  import opened InheritanceFacts

  /** A line that is neither a divider nor a decorator line. */
  predicate Plain(l: string) {
    !IsDivider(l) && !ContainsDeco(l)
  }

  predicate AllPlain(lines: seq<string>) {
    forall i :: 0 <= i < |lines| ==> Plain(lines[i])
  }

  /** Both tests look only at the stripped line. */
  lemma PlainOfStrip(x: string, y: string)
    requires Strip(x) == Strip(y)
    ensures Plain(x) <==> Plain(y)
  {
  }

  /** Empty lines (blank or a comment) are plain. */
  lemma EmptyPlain(x: string)
    requires IsEmpty(x)
    ensures Plain(x)
  {
    if IsComment(x) {
      CommentIsOnlyComment(x);
    } else {
      BlankIsOnlyBlank(x);
    }
  }

  // ------------------------------------------------------------------ the raw body of a page

  /** The buffered lines that are not decorator lines, in order. */
  function NonDeco(lines: seq<string>): seq<string>
    decreases |lines|
  {
    if lines == [] then []
    else
      var l := lines[|lines| - 1];
      NonDeco(lines[..|lines| - 1]) + if ContainsDeco(l) then [] else [l]
  }

  lemma {:induction false} NonDecoMembers(lines: seq<string>)
    ensures forall i :: 0 <= i < |NonDeco(lines)| ==> NonDeco(lines)[i] in lines && !ContainsDeco(NonDeco(lines)[i])
    decreases |lines|
  {
    if lines != [] {
      var init := lines[..|lines| - 1];
      NonDecoMembers(init);
      assert forall x :: x in init ==> x in lines;
    }
  }

  lemma {:induction false} JoinSnoc(ps: seq<string>, q: string, sep: char)
    requires ps != []
    ensures Join(ps + [q], sep) == Join(ps, sep) + [sep] + q
    decreases |ps|
  {
    if |ps| == 1 {
      assert ps + [q] == [ps[0], q];
      assert [ps[0], q][1..] == [q];
    } else {
      assert (ps + [q])[1..] == ps[1..] + [q];
      JoinSnoc(ps[1..], q, sep);
    }
  }

  lemma {:induction false} RawOfJoin(lines: seq<string>)
    ensures RawOf(lines) == Join([""] + NonDeco(lines), '\n')
    decreases |lines|
  {
    if lines != [] {
      var init, l := lines[..|lines| - 1], lines[|lines| - 1];
      RawOfJoin(init);
      var before := [""] + NonDeco(init);
      if ContainsDeco(l) {
        assert RawOf(lines) == RawOf(init);
        assert NonDeco(lines) == NonDeco(init);
      } else {
        assert RawOf(lines) == Join(before, '\n') + "\n" + l;
        JoinSnoc(before, l, '\n');
        assert [""] + NonDeco(lines) == before + [l];
      }
    }
  }

  /** The lines of `raw_md`: an empty first line, then every buffered line that is not a decorator line. */
  lemma RawOfLines(lines: seq<string>)
    requires LineFree(lines)
    ensures Split(RawOf(lines), '\n') == [""] + NonDeco(lines)
  {
    RawOfJoin(lines);
    NonDecoMembers(lines);
    var parts := [""] + NonDeco(lines);
    forall k | 0 <= k < |parts| ensures '\n' !in parts[k] {
      if k > 0 {
        assert parts[k] == NonDeco(lines)[k - 1];
        assert parts[k] in lines;
      }
    }
    SplitJoin(parts, '\n');
  }

  // ------------------------------------------------------------------ stripping keeps lines plain

  /** A whitespace character in front of a text does not change its strip. */
  lemma StripCons(c: char, x: string)
    requires IsSpace(c)
    ensures Strip([c] + x) == Strip(x)
  {
    assert ([c] + x)[1..] == x;
    assert ([c] + x)[1 + LeadingSpaces(x)..] == x[LeadingSpaces(x)..];
  }

  lemma {:induction false} LeadingSpacesSnoc(x: string, c: char)
    requires IsSpace(c)
    ensures LeadingSpaces(x + [c]) == if AllSpace(x) then |x| + 1 else LeadingSpaces(x)
    decreases |x|
  {
    if x == [] {
      assert [c][1..] == [];
    } else {
      assert (x + [c])[1..] == x[1..] + [c];
      LeadingSpacesSnoc(x[1..], c);
      assert AllSpace(x) <==> IsSpace(x[0]) && AllSpace(x[1..]) by {
        assert forall i :: 1 <= i < |x| ==> x[i] == x[1..][i - 1];
      }
    }
  }

  /** A whitespace character after a text does not change its strip. */
  lemma StripSnoc(x: string, c: char)
    requires IsSpace(c)
    ensures Strip(x + [c]) == Strip(x)
  {
    LeadingSpacesSnoc(x, c);
    if AllSpace(x) {
      StripEnds(x);
      assert (x + [c])[|x| + 1..] == [];
    } else {
      var n := LeadingSpaces(x);
      var t := x[n..];
      assert (x + [c])[n..] == t + [c];
      assert (t + [c])[..|t|] == t;
    }
  }

  /** Splitting a text with one more character at the end. */
  function AddChar(parts: seq<string>, c: char, sep: char): seq<string>
    requires parts != []
  {
    if c == sep then parts + [""] else parts[..|parts| - 1] + [parts[|parts| - 1] + [c]]
  }

  lemma AddCharCons(x: string, parts: seq<string>, c: char, sep: char)
    requires parts != []
    ensures AddChar([x] + parts, c, sep) == [x] + AddChar(parts, c, sep)
  {
    if c != sep {
      assert ([x] + parts)[..|parts|] == [x] + parts[..|parts| - 1];
    }
  }

  lemma AddCharHead(h: char, parts: seq<string>, c: char, sep: char)
    requires parts != []
    ensures var added := AddChar(parts, c, sep);
      AddChar([[h] + parts[0]] + parts[1..], c, sep) == [[h] + added[0]] + added[1..]
  {
    var added := AddChar(parts, c, sep);
    if c != sep && |parts| == 1 {
      assert added == [parts[0] + [c]];
      assert [h] + (parts[0] + [c]) == ([h] + parts[0]) + [c];
    } else if c != sep {
      assert added[0] == parts[0];
      assert added[1..] == parts[1..|parts| - 1] + [parts[|parts| - 1] + [c]];
    } else {
      assert added[0] == parts[0];
      assert added[1..] == parts[1..] + [""];
    }
  }

  lemma {:induction false} SplitSnoc(u: string, c: char, sep: char)
    ensures Split(u + [c], sep) == AddChar(Split(u, sep), c, sep)
    decreases |u|
  {
    var t := u + [c];
    if u == [] {
      assert t == [c] && t[1..] == [];
      assert Split(t[1..], sep) == [""];
      assert [c] + "" == [c] && [""][1..] == [];
      assert Split(t, sep) == if c == sep then ["", ""] else [[c]];
      assert [""][..0] == [] && "" + [c] == [c];
    } else {
      assert t[0] == u[0];
      assert t[1..] == u[1..] + [c];
      SplitSnoc(u[1..], c, sep);
      var r := Split(u[1..], sep);
      if u[0] == sep {
        AddCharCons("", r, c, sep);
      } else {
        AddCharHead(u[0], r, c, sep);
      }
    }
  }

  /** Splitting a text with one more character at the front. */
  function ConsChar(c: char, parts: seq<string>, sep: char): seq<string>
    requires parts != []
  {
    if c == sep then [""] + parts else [[c] + parts[0]] + parts[1..]
  }

  lemma SplitCons(s: string, sep: char)
    requires s != []
    ensures Split(s, sep) == ConsChar(s[0], Split(s[1..], sep), sep)
  {
  }

  /** Taking a whitespace character off the front keeps every piece plain. */
  lemma ConsCharPlain(c: char, parts: seq<string>)
    requires parts != [] && IsSpace(c) && AllPlain(ConsChar(c, parts, '\n'))
    ensures AllPlain(parts)
  {
    var whole := ConsChar(c, parts, '\n');
    if c == '\n' {
      assert forall i :: 0 <= i < |parts| ==> parts[i] == whole[i + 1];
    } else {
      assert forall i :: 1 <= i < |parts| ==> parts[i] == whole[i];
      StripCons(c, parts[0]);
      PlainOfStrip(whole[0], parts[0]);
    }
  }

  lemma DropFirst(s: string)
    requires |s| > 0 && IsSpace(s[0]) && AllPlain(Split(s, '\n'))
    ensures AllPlain(Split(s[1..], '\n'))
  {
    SplitCons(s, '\n');
    ConsCharPlain(s[0], Split(s[1..], '\n'));
  }

  /** Taking a whitespace character off the end keeps every piece plain. */
  lemma AddCharPlain(parts: seq<string>, c: char)
    requires parts != [] && IsSpace(c) && AllPlain(AddChar(parts, c, '\n'))
    ensures AllPlain(parts)
  {
    var added := AddChar(parts, c, '\n');
    var n := |parts| - 1;
    assert forall i :: 0 <= i < n ==> parts[i] == added[i];
    if c == '\n' {
      assert parts[n] == added[n];
    } else {
      assert added[n] == parts[n] + [c];
      StripSnoc(parts[n], c);
      PlainOfStrip(added[n], parts[n]);
    }
  }

  lemma DropLast(t: string)
    requires |t| > 0 && IsSpace(t[|t| - 1]) && AllPlain(Split(t, '\n'))
    ensures AllPlain(Split(t[..|t| - 1], '\n'))
  {
    var u, c := t[..|t| - 1], t[|t| - 1];
    assert u + [c] == t;
    SplitSnoc(u, c, '\n');
    AddCharPlain(Split(u, '\n'), c);
  }

  lemma {:induction false} DropLeading(s: string, n: nat)
    requires n <= |s| && AllSpace(s[..n]) && AllPlain(Split(s, '\n'))
    ensures AllPlain(Split(s[n..], '\n'))
    decreases n
  {
    if n > 0 {
      assert s[0] == s[..n][0];
      DropFirst(s);
      assert s[1..][..n - 1] == s[..n][1..];
      DropLeading(s[1..], n - 1);
      assert s[1..][n - 1..] == s[n..];
    }
  }

  lemma {:induction false} DropTrailing(t: string, m: nat)
    requires m <= |t| && AllSpace(t[|t| - m..]) && AllPlain(Split(t, '\n'))
    ensures AllPlain(Split(t[..|t| - m], '\n'))
    decreases m
  {
    if m > 0 {
      var u := t[..|t| - 1];
      assert t[|t| - 1] == t[|t| - m..][m - 1];
      DropLast(t);
      assert u[|u| - (m - 1)..] == t[|t| - m..][..m - 1];
      DropTrailing(u, m - 1);
      assert u[..|u| - (m - 1)] == t[..|t| - m];
    } else {
      assert t[..|t|] == t;
    }
  }

  /** `strip()` of a text whose lines are plain leaves lines that are plain. */
  lemma StripKeepsPlain(s: string)
    requires AllPlain(Split(s, '\n'))
    ensures AllPlain(Split(Strip(s), '\n'))
  {
    var n := LeadingSpaces(s);
    LeadingSpacesSpec(s);
    DropLeading(s, n);
    var t := s[n..];
    var m := TrailingSpaces(t);
    TrailingSpacesSpec(t);
    DropTrailing(t, m);
  }

  /** `_preprocess` of a body whose lines are plain leaves lines that are plain. */
  lemma PreprocessedPlain(rawMd: string)
    requires AllPlain(Split(rawMd, '\n'))
    ensures AllPlain(Split(Preprocessed(rawMd), '\n'))
  {
    var parts := Split(rawMd, '\n');
    var lines := SplitLines(rawMd);
    assert lines == parts || lines == parts[..|parts| - 1];
    assert AllPlain(lines) by {
      forall i | 0 <= i < |lines| ensures Plain(lines[i]) {
        assert lines[i] == parts[i];
      }
    }
    var kept := KeepLines(lines);
    KeepLinesFilter(lines);
    forall k | 0 <= k < |kept| ensures Plain(kept[k]) && '\n' !in kept[k] {
      var i :| 0 <= i < |lines| && lines[i] == kept[k];
    }
    var joined := Join(kept, '\n');
    if kept == [] {
      assert Split(joined, '\n') == [""];
      BlankIsOnlyBlank("");
    } else {
      SplitJoin(kept, '\n');
    }
    StripKeepsPlain(joined);
  }

  // ------------------------------------------------------------------ chunks

  lemma {:induction false} SolidHas(lines: seq<string>, i: nat)
    requires i < |lines| && !IsEmpty(lines[i])
    ensures lines[i] in Solid(lines)
    decreases |lines|
  {
    if i < |lines| - 1 {
      var init := lines[..|lines| - 1];
      assert init[i] == lines[i];
      SolidHas(init, i);
    }
  }

  lemma {:induction false} SolidWithin(lines: seq<string>)
    ensures forall x :: x in Solid(lines) ==> x in lines
    decreases |lines|
  {
    if lines != [] {
      var init := lines[..|lines| - 1];
      SolidWithin(init);
      assert forall x :: x in init ==> x in lines;
    }
  }

  lemma {:induction false} AllLinesHas(chunks: seq<Chunk>, j: nat)
    requires j < |chunks|
    ensures forall i :: 0 <= i < |Split(chunks[j].content, '\n')| ==> Split(chunks[j].content, '\n')[i] in AllLines(chunks)
    decreases |chunks|
  {
    var init := chunks[..|chunks| - 1];
    if j < |chunks| - 1 {
      assert init[j] == chunks[j];
      AllLinesHas(init, j);
    }
    assert AllLines(chunks) == AllLines(init) + Split(chunks[|chunks| - 1].content, '\n');
  }

  /** Cutting a body whose lines are plain into chunks gives chunks whose lines are plain. */
  lemma ChunkLinesPlain(body: string)
    requires AllPlain(Split(body, '\n'))
    ensures AllPlain(AllLines(ChunksOf(body)))
  {
    ChunksKeepLines(body);
    var all := AllLines(ChunksOf(body));
    var parts := Split(body, '\n');
    SolidWithin(parts);
    forall i | 0 <= i < |all| ensures Plain(all[i]) {
      if IsEmpty(all[i]) {
        EmptyPlain(all[i]);
      } else {
        SolidHas(all, i);
        assert all[i] in parts;
        var j :| 0 <= j < |parts| && parts[j] == all[i];
      }
    }
  }

  // ------------------------------------------------------------------ a page

  lemma AllPlainSnoc(lines: seq<string>, l: string)
    requires AllPlain(lines) && Plain(l)
    ensures AllPlain(lines + [l])
  {
    assert forall i :: 0 <= i < |lines| ==> (lines + [l])[i] == lines[i];
  }

  lemma AllPlainCons(l: string, lines: seq<string>)
    requires Plain(l) && AllPlain(lines)
    ensures AllPlain([l] + lines)
  {
    assert forall i :: 1 <= i < |[l] + lines| ==> ([l] + lines)[i] == lines[i - 1];
  }

  /** The non-decorator lines of lines without dividers are plain. */
  lemma {:induction false} NonDecoPlain(lines: seq<string>)
    requires forall i :: 0 <= i < |lines| ==> !IsDivider(lines[i])
    ensures AllPlain(NonDeco(lines))
    decreases |lines|
  {
    if lines != [] {
      var init, l := lines[..|lines| - 1], lines[|lines| - 1];
      assert forall i :: 0 <= i < |init| ==> init[i] == lines[i];
      NonDecoPlain(init);
      if ContainsDeco(l) {
        assert NonDeco(lines) == NonDeco(init);
      } else {
        assert NonDeco(lines) == NonDeco(init) + [l];
        AllPlainSnoc(NonDeco(init), l);
      }
    }
  }

  /** So are the lines of `raw_md`, whose first line is empty. */
  lemma RawLinesPlain(lines: seq<string>)
    requires forall i :: 0 <= i < |lines| ==> !IsDivider(lines[i])
    ensures AllPlain([""] + NonDeco(lines))
  {
    NonDecoPlain(lines);
    assert Plain("") by {
      BlankIsOnlyBlank("");
    }
    AllPlainCons("", NonDeco(lines));
  }

  /** A page built from line-free lines without dividers has plain body lines and plain chunk lines. */
  lemma PageOfDraftPlain(lines: seq<string>)
    requires LineFree(lines) && forall i :: 0 <= i < |lines| ==> !IsDivider(lines[i])
    ensures var raw := Preprocessed(RawOf(lines));
      AllPlain(Split(raw, '\n')) && AllPlain(AllLines(ChunksOf(raw)))
  {
    RawOfLines(lines);
    RawLinesPlain(lines);
    PreprocessedPlain(RawOf(lines));
    ChunkLinesPlain(Preprocessed(RawOf(lines)));
  }

  /** Every line the loop buffers or emits is a line of the body. */
  predicate LinesFrom(m: Machine, src: seq<string>) {
    (forall k, i :: 0 <= k < |m.drafts| && 0 <= i < |m.drafts[k].lines| ==> m.drafts[k].lines[i] in src) &&
    (forall i :: 0 <= i < |m.buffer| ==> m.buffer[i] in src)
  }

  lemma FlushFrom(m: Machine, src: seq<string>)
    requires LinesFrom(m, src)
    ensures LinesFrom(Flush(m), src)
  {
    if !AllBlank(m.buffer) {
      var ds := Flush(m).drafts;
      assert ds[|ds| - 1].lines == m.buffer;
      assert forall k :: 0 <= k < |m.drafts| ==> ds[k] == m.drafts[k];
    }
  }

  lemma StepFrom(m: Machine, l: string, src: seq<string>)
    requires LinesFrom(m, src) && l in src
    ensures LinesFrom(Step(m, l), src)
  {
    var k := KindOf(l);
    var m1 := if BreakBefore(m.prev, k.level) then Flush(m) else m;
    FlushFrom(m, src);
    FlushFrom(m1, src);
    if !k.divider {
      var m2 := Step(m, l);
      assert m2.drafts == m1.drafts && m2.buffer == m1.buffer + [l];
    }
  }

  lemma {:induction false} RunFrom(lines: seq<string>, src: seq<string>)
    requires forall i :: 0 <= i < |lines| ==> lines[i] in src
    ensures LinesFrom(Run(lines), src)
    decreases |lines|
  {
    if lines != [] {
      var init := lines[..|lines| - 1];
      assert forall i :: 0 <= i < |init| ==> init[i] == lines[i];
      RunFrom(init, src);
      StepFrom(Run(init), lines[|lines| - 1], src);
    }
  }

  /** Lines of the body reach the drafts unchanged, so they hold no line break. */
  lemma DraftsLineFree(lines: seq<string>, k: nat)
    requires LineFree(lines) && k < |Drafts(lines)|
    ensures LineFree(Drafts(lines)[k].lines)
  {
    RunFrom(lines, lines);
    FlushFrom(Run(lines), lines);
    var d := Drafts(lines)[k];
    forall i | 0 <= i < |d.lines| ensures '\n' !in d.lines[i] {
      var j :| 0 <= j < |lines| && lines[j] == d.lines[i];
    }
  }

  /** Plain lines overall are plain lines chunk by chunk. */
  lemma ChunksPlain(chunks: seq<Chunk>)
    requires AllPlain(AllLines(chunks))
    ensures forall j, i :: 0 <= j < |chunks| && 0 <= i < |Split(chunks[j].content, '\n')| ==>
      Plain(Split(chunks[j].content, '\n')[i])
  {
    var all := AllLines(chunks);
    forall j, i | 0 <= j < |chunks| && 0 <= i < |Split(chunks[j].content, '\n')|
      ensures Plain(Split(chunks[j].content, '\n')[i])
    {
      AllLinesHas(chunks, j);
      var n :| 0 <= n < |all| && all[n] == Split(chunks[j].content, '\n')[i];
    }
  }

  /** The pages of `paginate`: no line of a page's body and no line of any of its chunks is a divider or a decorator line. */
  lemma PaginatedLinesPlain(document: string, option: Option<PageOption>, safeLoad: string -> Yaml, k: nat)
    requires k < |Paginated(document, option, safeLoad)|
    ensures var p := Paginated(document, option, safeLoad)[k];
      AllPlain(Split(p.rawMd, '\n')) &&
      forall j, i :: 0 <= j < |p.chunks| && 0 <= i < |Split(p.chunks[j].content, '\n')| ==>
        Plain(Split(p.chunks[j].content, '\n')[i])
  {
    var lines := BodyLines(document, safeLoad);
    SplitNoSep(ParseFrontmatter(document, safeLoad).0, '\n');
    PaginatedPage(document, option, safeLoad, k);
    DraftsShaped(lines);
    DraftsLineFree(lines, k);
    PageOfDraftPlain(Drafts(lines)[k].lines);
    ChunksPlain(Paginated(document, option, safeLoad)[k].chunks);
  }
}
