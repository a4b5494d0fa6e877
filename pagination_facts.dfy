/**
 * What the line loop of `paginate` guarantees: where it breaks, what `prev_header_level`
 * holds, that no line is lost or duplicated, that blank buffers carry over, which headings a
 * page gets, and how the heading pass fills headings in.
 */
module PaginationFacts {
  import opened Wrappers
  import opened Text
  import opened MdHelper
  import opened Options
  import opened Deco
  import opened Frontmatter
  import opened Pages
  import opened Pagination

  lemma RunSnoc(lines: seq<string>, l: string)
    ensures Run(lines + [l]) == Step(Run(lines), l)
  {
    assert (lines + [l])[..|lines|] == lines;
  }

  // ------------------------------------------------------------------ the break rule

  /** A header closes the page exactly after text, or when it climbs to level 1 or 2. */
  lemma BreakRule(prev: nat, level: nat)
    ensures BreakBefore(prev, level) <==> level > 0 && (prev == 0 || (prev > level && level <= 2))
  {
  }

  /** Text followed by any header breaks, as do h2 then h1, h3 then h2 and h4 then h1; h1 then h2, h1 then h3, h3 then h3 and h4 then h3 do not. */
  lemma BreakExamples()
    ensures BreakBefore(0, 1) && BreakBefore(0, 4) && BreakBefore(0, 6)
    ensures BreakBefore(2, 1) && BreakBefore(3, 2) && BreakBefore(4, 1)
    ensures !BreakBefore(1, 2) && !BreakBefore(1, 3) && !BreakBefore(3, 3) && !BreakBefore(4, 3)
    ensures forall prev: nat :: !BreakBefore(prev, 0)
  {
  }

  // ------------------------------------------------------------------ prev_header_level

  /** A line that sets `prev_header_level`: a header, or a text line that is not empty, not a decorator and not a divider. */
  predicate Deciding(l: string) {
    !IsDivider(l) && (HeaderLevel(l) > 0 || (!IsEmpty(l) && !ContainsDeco(l)))
  }

  /** `create_page` leaves `prev_header_level` alone. */
  lemma FlushKeepsPrev(m: Machine)
    ensures Flush(m).prev == m.prev
  {
  }

  /** A deciding line sets `prev_header_level` to its header level; any other line leaves it. */
  lemma PrevStep(m: Machine, l: string)
    ensures Step(m, l).prev == if Deciding(l) then HeaderLevel(l) else m.prev
  {
    PrevStepAs(m, l, KindOf(l));
  }

  lemma PrevStepAs(m: Machine, l: string, k: Kind)
    ensures StepAs(m, l, k).prev == if !k.divider && (k.level > 0 || k.resets) then k.level else m.prev
  {
    FlushKeepsPrev(m);
  }

  /** The header level of the last deciding line (0 for a text line), or 0 when there is none. */
  function LastDecidingLevel(lines: seq<string>): nat
    decreases |lines|
  {
    if lines == [] then 0
    else if Deciding(lines[|lines| - 1]) then HeaderLevel(lines[|lines| - 1])
    else LastDecidingLevel(lines[..|lines| - 1])
  }

  /** After the loop has read `lines`, `prev_header_level` is the level the last deciding line set. */
  lemma {:induction false} RunPrev(lines: seq<string>)
    ensures Run(lines).prev == LastDecidingLevel(lines)
    decreases |lines|
  {
    if lines != [] {
      RunPrev(lines[..|lines| - 1]);
      PrevStep(Run(lines[..|lines| - 1]), lines[|lines| - 1]);
    }
  }

  /** With no deciding line, `prev_header_level` ends at 0. */
  lemma {:induction false} NoDecidingLevel(lines: seq<string>)
    requires NoneDecidesAfter(lines, -1)
    ensures LastDecidingLevel(lines) == 0
    decreases |lines|
  {
    if lines != [] {
      NoneDecidesInit(lines, -1);
      NoDecidingLevel(lines[..|lines| - 1]);
    }
  }

  /** Otherwise it ends at the header level of the last deciding line. */
  lemma {:induction false} LastDecidingAt(lines: seq<string>, i: nat)
    requires i < |lines| && Deciding(lines[i]) && NoneDecidesAfter(lines, i)
    ensures LastDecidingLevel(lines) == HeaderLevel(lines[i])
    decreases |lines|
  {
    if i < |lines| - 1 {
      NoneDecidesInit(lines, i);
      LastDecidingAt(lines[..|lines| - 1], i);
    }
  }

  lemma NoneDecidesInit(lines: seq<string>, i: int)
    requires lines != [] && i < |lines| - 1 && NoneDecidesAfter(lines, i)
    ensures !Deciding(lines[|lines| - 1]) && NoneDecidesAfter(lines[..|lines| - 1], i)
  {
    var init := lines[..|lines| - 1];
    forall j | 0 <= j < |init| && i < j ensures !Deciding(init[j]) {
      assert init[j] == lines[j];
    }
  }

  /** No line after index `i` is deciding. */
  predicate NoneDecidesAfter(lines: seq<string>, i: int) {
    forall j :: 0 <= j < |lines| && i < j ==> !Deciding(lines[j])
  }

  // ------------------------------------------------------------------ conservation

  /** The lines of the drafts, in order. */
  function Flatten(ds: seq<Draft>): seq<string>
    decreases |ds|
  {
    if ds == [] then [] else Flatten(ds[..|ds| - 1]) + ds[|ds| - 1].lines
  }

  /** The lines that are not dividers, in order. */
  function NonDividers(lines: seq<string>): (kept: seq<string>)
    decreases |lines|
  {
    if lines == [] then []
    else
      var l := lines[|lines| - 1];
      NonDividers(lines[..|lines| - 1]) + if IsDivider(l) then [] else [l]
  }

  lemma FlattenSnoc(ds: seq<Draft>, d: Draft)
    ensures Flatten(ds + [d]) == Flatten(ds) + d.lines
  {
    assert (ds + [d])[..|ds|] == ds;
  }

  /** `create_page` moves the buffer into a page or keeps it: the lines stay where they were, in order. */
  lemma FlushConserves(m: Machine)
    ensures Flatten(Flush(m).drafts) + Flush(m).buffer == Flatten(m.drafts) + m.buffer
  {
    if !AllBlank(m.buffer) {
      FlattenSnoc(m.drafts, Draft(m.buffer, m.h1, m.h2, m.h3));
    }
  }

  /** One line either joins the buffer or, as a divider, disappears. */
  lemma StepConserves(m: Machine, l: string)
    ensures Flatten(Step(m, l).drafts) + Step(m, l).buffer ==
      Flatten(m.drafts) + m.buffer + if IsDivider(l) then [] else [l]
  {
    StepAsConserves(m, l, KindOf(l));
  }

  lemma StepAsConserves(m: Machine, l: string, k: Kind)
    ensures Flatten(StepAs(m, l, k).drafts) + StepAs(m, l, k).buffer ==
      Flatten(m.drafts) + m.buffer + if k.divider then [] else [l]
  {
    var m1 := if BreakBefore(m.prev, k.level) then Flush(m) else m;
    FlushConserves(m);
    FlushConserves(m1);
  }

  /** The pages so far and the buffer hold exactly the lines read that are not dividers, in order. */
  lemma {:induction false} RunConserves(lines: seq<string>)
    ensures Flatten(Run(lines).drafts) + Run(lines).buffer == NonDividers(lines)
    decreases |lines|
  {
    if lines != [] {
      RunConserves(lines[..|lines| - 1]);
      StepConserves(Run(lines[..|lines| - 1]), lines[|lines| - 1]);
    }
  }

  /**
   * Conservation: the pages' lines followed by what the last `create_page` leaves behind are
   * the body's lines without the dividers, in order, and what is left behind is blank.
   */
  lemma DraftsConserve(lines: seq<string>)
    ensures Flatten(Drafts(lines)) + Leftover(lines) == NonDividers(lines)
    ensures AllBlank(Leftover(lines))
  {
    RunConserves(lines);
    FlushConserves(Run(lines));
  }

  /** The `raw_md` of the drafts, one after the other. */
  function Raws(ds: seq<Draft>): string
    decreases |ds|
  {
    if ds == [] then "" else Raws(ds[..|ds| - 1]) + RawOf(ds[|ds| - 1].lines)
  }

  /** The pieces `f` gives for the lines, one after the other. */
  function ConcatMap(f: string -> string, lines: seq<string>): string
    decreases |lines|
  {
    if lines == [] then "" else ConcatMap(f, lines[..|lines| - 1]) + f(lines[|lines| - 1])
  }

  lemma {:induction false} ConcatMapAppend(f: string -> string, a: seq<string>, b: seq<string>)
    ensures ConcatMap(f, a + b) == ConcatMap(f, a) + ConcatMap(f, b)
    decreases |b|
  {
    if b == [] {
      assert a + b == a;
    } else {
      var init := b[..|b| - 1];
      assert (a + b)[..|a + b| - 1] == a + init;
      ConcatMapAppend(f, a, init);
    }
  }

  /** What one line adds to `raw_md`. */
  function RawPiece(l: string): string {
    if ContainsDeco(l) then "" else "\n" + l
  }

  lemma {:induction false} RawOfConcat(lines: seq<string>)
    ensures RawOf(lines) == ConcatMap(RawPiece, lines)
    decreases |lines|
  {
    if lines != [] {
      RawOfConcat(lines[..|lines| - 1]);
    }
  }

  lemma RawOfAppend(a: seq<string>, b: seq<string>)
    ensures RawOf(a + b) == RawOf(a) + RawOf(b)
  {
    RawOfConcat(a + b);
    RawOfConcat(a);
    RawOfConcat(b);
    ConcatMapAppend(RawPiece, a, b);
  }

  lemma {:induction false} RawsFlatten(ds: seq<Draft>)
    ensures Raws(ds) == RawOf(Flatten(ds))
    decreases |ds|
  {
    if ds != [] {
      RawsFlatten(ds[..|ds| - 1]);
      RawOfAppend(Flatten(ds[..|ds| - 1]), ds[|ds| - 1].lines);
    }
  }

  /**
   * The pages' bodies, one after the other, followed by the body of the blank lines left
   * behind, are `"\n" + line` over every body line that is neither a divider nor a decorator line.
   */
  lemma RawConservation(lines: seq<string>)
    ensures Raws(Drafts(lines)) + RawOf(Leftover(lines)) == RawOf(NonDividers(lines))
    ensures AllBlank(Leftover(lines))
  {
    DraftsConserve(lines);
    RawsFlatten(Drafts(lines));
    RawOfAppend(Flatten(Drafts(lines)), Leftover(lines));
  }

  /** `raw_md` is `"\n" + line` over the lines that are not decorator lines: it picks up no decorator line. */
  lemma {:induction false} RawOfSkipsDecorators(lines: seq<string>)
    ensures (forall i :: 0 <= i < |lines| ==> ContainsDeco(lines[i])) ==> RawOf(lines) == ""
    ensures (forall i :: 0 <= i < |lines| ==> !ContainsDeco(lines[i])) ==> |RawOf(lines)| == |lines| + SumLengths(lines)
    ensures RawOf(lines) == ConcatMap(RawPiece, lines)
    decreases |lines|
  {
    RawOfConcat(lines);
    if lines != [] {
      RawOfSkipsDecorators(lines[..|lines| - 1]);
    }
  }

  function SumLengths(lines: seq<string>): nat
    decreases |lines|
  {
    if lines == [] then 0 else SumLengths(lines[..|lines| - 1]) + |lines[|lines| - 1]|
  }

  // ------------------------------------------------------------------ the shape of the drafts

  /** No draft is blank and no divider is ever buffered or emitted. */
  predicate WellShaped(m: Machine) {
    (forall k :: 0 <= k < |m.drafts| ==> !AllBlank(m.drafts[k].lines)) &&
    (forall k, i :: 0 <= k < |m.drafts| && 0 <= i < |m.drafts[k].lines| ==> !IsDivider(m.drafts[k].lines[i])) &&
    (forall i :: 0 <= i < |m.buffer| ==> !IsDivider(m.buffer[i]))
  }

  lemma FlushShaped(m: Machine)
    requires WellShaped(m)
    ensures WellShaped(Flush(m))
  {
    if !AllBlank(m.buffer) {
      var ds := Flush(m).drafts;
      assert ds[|ds| - 1].lines == m.buffer;
      assert forall k :: 0 <= k < |m.drafts| ==> ds[k] == m.drafts[k];
    }
  }

  lemma StepShaped(m: Machine, l: string)
    requires WellShaped(m)
    ensures WellShaped(Step(m, l))
  {
    StepAsShaped(m, l, KindOf(l));
  }

  lemma StepAsShaped(m: Machine, l: string, k: Kind)
    requires WellShaped(m) && k.divider == IsDivider(l)
    ensures WellShaped(StepAs(m, l, k))
  {
    var m1 := if BreakBefore(m.prev, k.level) then Flush(m) else m;
    FlushShaped(m);
    FlushShaped(m1);
    if !k.divider {
      var m2 := StepAs(m, l, k);
      assert m2.drafts == m1.drafts && m2.buffer == m1.buffer + [l];
    }
  }

  lemma {:induction false} RunShaped(lines: seq<string>)
    ensures WellShaped(Run(lines))
    decreases |lines|
  {
    if lines != [] {
      RunShaped(lines[..|lines| - 1]);
      StepShaped(Run(lines[..|lines| - 1]), lines[|lines| - 1]);
    }
  }

  /** `create_page` emits no page of blank lines only, and no page holds a divider. */
  lemma DraftsShaped(lines: seq<string>)
    ensures forall k :: 0 <= k < |Drafts(lines)| ==> !AllBlank(Drafts(lines)[k].lines)
    ensures forall k, i :: 0 <= k < |Drafts(lines)| && 0 <= i < |Drafts(lines)[k].lines| ==>
      !IsDivider(Drafts(lines)[k].lines[i])
  {
    RunShaped(lines);
    FlushShaped(Run(lines));
  }

  // ------------------------------------------------------------------ headings

  /** The heading of the last level-`level` header among `lines`, or none. */
  function LastHeading(level: nat, lines: seq<string>): Option<string>
    decreases |lines|
  {
    if lines == [] then None
    else
      var l := lines[|lines| - 1];
      if HeaderLevel(l) == level then Some(HeadingText(l)) else LastHeading(level, lines[..|lines| - 1])
  }

  lemma LastHeadingSnoc(level: nat, lines: seq<string>, l: string)
    ensures LastHeading(level, lines + [l]) ==
      if HeaderLevel(l) == level then Some(HeadingText(l)) else LastHeading(level, lines)
  {
    assert (lines + [l])[..|lines|] == lines;
  }

  predicate HeadingsOf(lines: seq<string>, h1: Option<string>, h2: Option<string>, h3: Option<string>) {
    h1 == LastHeading(1, lines) && h2 == LastHeading(2, lines) && h3 == LastHeading(3, lines)
  }

  /** `current_h1..3` are the headings of the buffer, and every draft's headings are those of its lines. */
  predicate Tracked(m: Machine) {
    HeadingsOf(m.buffer, m.h1, m.h2, m.h3) &&
    forall k :: 0 <= k < |m.drafts| ==> HeadingsOf(m.drafts[k].lines, m.drafts[k].h1, m.drafts[k].h2, m.drafts[k].h3)
  }

  lemma FlushTracked(m: Machine)
    requires Tracked(m)
    ensures Tracked(Flush(m))
  {
    if !AllBlank(m.buffer) {
      var ds := Flush(m).drafts;
      assert ds[|ds| - 1] == Draft(m.buffer, m.h1, m.h2, m.h3);
      assert forall k :: 0 <= k < |m.drafts| ==> ds[k] == m.drafts[k];
    }
  }

  lemma StepTracked(m: Machine, l: string)
    requires Tracked(m)
    ensures Tracked(Step(m, l))
  {
    StepAsTracked(m, l, KindOf(l));
  }

  lemma StepAsTracked(m: Machine, l: string, k: Kind)
    requires Tracked(m) && k.level == HeaderLevel(l) && k.heading == HeadingText(l)
    ensures Tracked(StepAs(m, l, k))
  {
    var m1 := if BreakBefore(m.prev, k.level) then Flush(m) else m;
    FlushTracked(m);
    FlushTracked(m1);
    if !k.divider {
      LastHeadingSnoc(1, m1.buffer, l);
      LastHeadingSnoc(2, m1.buffer, l);
      LastHeadingSnoc(3, m1.buffer, l);
    }
  }

  lemma {:induction false} RunTracked(lines: seq<string>)
    ensures Tracked(Run(lines))
    decreases |lines|
  {
    if lines != [] {
      RunTracked(lines[..|lines| - 1]);
      StepTracked(Run(lines[..|lines| - 1]), lines[|lines| - 1]);
    }
  }

  /**
   * Before inheritance, a page's hK is the text of the last level-K header (K = 1..3) among the
   * page's lines, or none; headers of levels 4 to 6 set no heading.
   */
  lemma DraftHeadings(lines: seq<string>, k: nat)
    requires k < |Drafts(lines)|
    ensures HeadingsOf(Drafts(lines)[k].lines, Drafts(lines)[k].h1, Drafts(lines)[k].h2, Drafts(lines)[k].h3)
  {
    RunTracked(lines);
    FlushTracked(Run(lines));
  }

  // ------------------------------------------------------------------ one line at a time

  /** A blank line joins the buffer and changes nothing else. */
  lemma BlankStep(m: Machine, l: string)
    requires Strip(l) == ""
    ensures Step(m, l) == m.(buffer := m.buffer + [l])
  {
    BlankIsOnlyBlank(l);
  }

  /** A line of text joins the buffer and sets `prev_header_level` to 0. */
  lemma TextStep(m: Machine, l: string)
    requires Deciding(l) && HeaderLevel(l) == 0
    ensures Step(m, l) == m.(buffer := m.buffer + [l], prev := 0)
  {
  }

  /** A divider closes the page and is dropped. */
  lemma DividerStep(m: Machine, l: string)
    requires IsDivider(l)
    ensures Step(m, l) == Flush(m)
  {
    DividerIsOnlyDivider(l);
  }

  /** A header closes the page when the break rule says so, then joins the buffer. */
  lemma HeaderStep(m: Machine, l: string)
    requires HeaderLevel(l) > 0
    ensures Step(m, l) == Buffered(if BreakBefore(m.prev, HeaderLevel(l)) then Flush(m) else m, l, KindOf(l))
  {
    HeaderIsOnlyHeader(l);
  }

  // ------------------------------------------------------------------ blank buffers

  /** Blank lines only ever accumulate in the buffer: they neither break nor set anything. */
  lemma AllBlankInit(lines: seq<string>)
    requires lines != [] && AllBlank(lines)
    ensures AllBlank(lines[..|lines| - 1]) && Strip(lines[|lines| - 1]) == ""
  {
    var init := lines[..|lines| - 1];
    forall k | 0 <= k < |init| ensures Strip(init[k]) == "" {
      assert init[k] == lines[k];
    }
  }

  /** Nothing but the buffer has moved from the initial state. */
  predicate Untouched(m: Machine) {
    m.drafts == [] && m.h1.None? && m.h2.None? && m.h3.None? && m.prev == 0
  }

  lemma BlankStepUntouched(m: Machine, l: string)
    requires Untouched(m) && Strip(l) == ""
    ensures Untouched(Step(m, l))
  {
    BlankStep(m, l);
  }

  lemma {:induction false} BlankRun(lines: seq<string>)
    requires AllBlank(lines)
    ensures Untouched(Run(lines))
    decreases |lines|
  {
    if lines != [] {
      AllBlankInit(lines);
      BlankRun(lines[..|lines| - 1]);
      BlankStepUntouched(Run(lines[..|lines| - 1]), lines[|lines| - 1]);
    }
  }

  lemma {:induction false} BlankKept(lines: seq<string>)
    requires AllBlank(lines)
    ensures NonDividers(lines) == lines
    decreases |lines|
  {
    if lines != [] {
      var init, l := lines[..|lines| - 1], lines[|lines| - 1];
      AllBlankInit(lines);
      BlankKept(init);
      BlankIsOnlyBlank(l);
      assert NonDividers(lines) == NonDividers(init) + [l];
      assert init + [l] == lines;
    }
  }

  /** A body of blank lines gives no page: `create_page` keeps a blank buffer instead of emitting it. */
  lemma AllBlankNoPages(lines: seq<string>)
    requires AllBlank(lines)
    ensures Drafts(lines) == [] && Leftover(lines) == lines
  {
    BlankRun(lines);
    RunConserves(lines);
    BlankKept(lines);
    assert Run(lines).buffer == lines;
  }

  /** A document of whitespace only has no pages. */
  lemma WhitespaceDocumentNoPages(document: string, option: Option<PageOption>, safeLoad: string -> Yaml)
    requires AllSpace(document)
    ensures Paginated(document, option, safeLoad) == []
  {
    StripEnds(document);
    NoFrontMatter(document, safeLoad);
    assert BodyLines(document, safeLoad) == [""];
    AllBlankNoPages([""]);
  }

  /** A body that is a single comment is a page: the emptiness test of `create_page` is `strip() == ''`, not `is_empty`. */
  lemma CommentOnlyPage(c: string)
    requires IsComment(c)
    ensures Drafts([c]) == [Draft([c], None, None, None)]
  {
    CommentIsOnlyComment(c);
    assert [] + [c] == [c];
    RunSnoc([], c);
  }

  /** A body that is a single decorator line is a page too. */
  lemma DecoOnlyPage(c: string)
    requires ContainsDeco(c)
    ensures Drafts([c]) == [Draft([c], None, None, None)]
  {
    DecoIsNotHeader(c);
    assert !IsDivider(c) by {
      if IsDivider(c) {
        DividerIsOnlyDivider(c);
      }
    }
    assert [] + [c] == [c];
    RunSnoc([], c);
  }

  // ------------------------------------------------------------------ breaks on lines

  /** A buffer with a line that does not strip to nothing is not blank. */
  lemma NotBlankSnoc(buffer: seq<string>, t: string)
    requires Strip(t) != ""
    ensures !AllBlank(buffer + [t])
  {
    assert (buffer + [t])[|buffer|] == t;
  }

  /** Wherever it happens, a line of text followed by a header closes the page after the text. */
  lemma TextThenHeaderSteps(m: Machine, t: string, h: string)
    requires Deciding(t) && HeaderLevel(t) == 0
    requires HeaderLevel(h) > 0
    ensures Step(Step(m, t), h).drafts == m.drafts + [Draft(m.buffer + [t], m.h1, m.h2, m.h3)]
    ensures Step(Step(m, t), h).buffer == [h]
  {
    TextStep(m, t);
    NotBlankSnoc(m.buffer, t);
    HeaderStep(Step(m, t), h);
  }

  /** A header right after a header of the same or a higher level stays on its page. */
  lemma HeaderThenDeeper(m: Machine, h: string, g: string)
    requires HeaderLevel(h) > 0 && HeaderLevel(g) >= HeaderLevel(h)
    ensures Step(Step(m, h), g) == Buffered(Step(m, h), g, KindOf(g))
    ensures Step(Step(m, h), g).buffer == Step(m, h).buffer + [g]
  {
    HeaderStep(m, h);
    HeaderStep(Step(m, h), g);
  }

  // ------------------------------------------------------------------ the option and the body

  /**
   * A given option takes the place of the front matter's, yet the front matter is still cut
   * off: the lines read are those of the stripped body alone.
   */
  lemma GivenOptionStripsFront(front: string, body: string, safeLoad: string -> Yaml, opt: PageOption)
    requires !Contains(front, "---")
    requires front == [] || front[|front| - 1] != '-'
    requires body == [] || !IsSpace(body[|body| - 1])
    ensures ChosenOption("---" + front + "---" + body, Some(opt), safeLoad) == opt
    ensures BodyLines("---" + front + "---" + body, safeLoad) == Split(Strip(body), '\n')
  {
    SplitFrontRoundTrip(front, body);
  }

  // ------------------------------------------------------------------ bodies without headers

  lemma InitLast(lines: seq<string>)
    requires lines != []
    ensures lines[..|lines| - 1] + [lines[|lines| - 1]] == lines
  {
  }

  /** A line that is no header and no divider is buffered, and no heading is set. */
  lemma QuietStep(m: Machine, l: string)
    requires HeaderLevel(l) == 0 && !IsDivider(l)
    ensures Step(m, l).drafts == m.drafts && Step(m, l).buffer == m.buffer + [l]
    ensures Step(m, l).h1 == m.h1 && Step(m, l).h2 == m.h2 && Step(m, l).h3 == m.h3
  {
  }

  /** Lines without a header or a divider are only buffered: no page is cut and no heading is set. */
  lemma {:induction false} NoHeaderRun(lines: seq<string>)
    requires forall i :: 0 <= i < |lines| ==> HeaderLevel(lines[i]) == 0 && !IsDivider(lines[i])
    ensures Run(lines).drafts == [] && Run(lines).buffer == lines
    ensures Run(lines).h1.None? && Run(lines).h2.None? && Run(lines).h3.None?
    decreases |lines|
  {
    if lines != [] {
      var init, l := lines[..|lines| - 1], lines[|lines| - 1];
      assert forall i :: 0 <= i < |init| ==> HeaderLevel(init[i]) == 0 && !IsDivider(init[i]) by {
        assert forall i :: 0 <= i < |init| ==> init[i] == lines[i];
      }
      NoHeaderRun(init);
      assert HeaderLevel(l) == 0 && !IsDivider(l);
      QuietStep(Run(init), l);
      assert Run(lines) == Step(Run(init), l);
      InitLast(lines);
    }
  }

  /** A body without a header and a divider is one page holding all its lines, or no page when it is blank. */
  lemma NoHeaderOnePage(lines: seq<string>)
    requires forall i :: 0 <= i < |lines| ==> HeaderLevel(lines[i]) == 0 && !IsDivider(lines[i])
    ensures !AllBlank(lines) ==> Drafts(lines) == [Draft(lines, None, None, None)]
    ensures AllBlank(lines) ==> Drafts(lines) == []
  {
    NoHeaderRun(lines);
  }
}
