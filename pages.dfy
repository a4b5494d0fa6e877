/**
 * Pages and their chunks (moffie/splitter.py, `Chunk` and `Page`): a page holds its markdown
 * body, its option, its headings and its decorator values; `chunk` removes the level 1-3
 * headings from the body and cuts it into image chunks and paragraph chunks.
 */
module Pages {
  import opened Wrappers
  import opened Text
  import opened MdHelper
  import opened Options

  /** The `type` of a chunk: `"paragraph"` or `"image"`. */
  datatype ChunkKind = Paragraph | Image

  datatype Chunk = Chunk(content: string, kind: ChunkKind)

  /** The value of a page's fields at one moment. */
  datatype PageRecord = PageRecord(
    rawMd: string,
    option: PageOption,
    chunks: seq<Chunk>,
    h1: Option<string>,
    h2: Option<string>,
    h3: Option<string>,
    deco: map<string, Value>)
  {
    /** `title`: the first present heading of h1, h2, h3; when none is present, h3 as it is. */
    function Title(): (t: Option<string>)
      ensures var i := FirstPresent([h1, h2, h3], 0); t == if i < 3 then [h1, h2, h3][i] else h3
      ensures Present(t) <==> Present(h1) || Present(h2) || Present(h3)
    {
      Or(Or(h1, h2), h3)
    }

    /**
     * `subtitle`: nothing unless h1 or h2 is present; otherwise the first present heading
     * after the title's, or h3 as it is when there is none.
     */
    function Subtitle(): (s: Option<string>)
      ensures var hs := [h1, h2, h3]; var i := FirstPresent(hs, 0);
        s == if i >= 2 then None else if FirstPresent(hs, i + 1) < 3 then hs[FirstPresent(hs, i + 1)] else h3
    {
      if Present(h1) then Or(h2, h3)
      else if Present(h2) then h3
      else None
    }
  }

  // ------------------------------------------------------------------ headings

  /** Python truthiness of an optional heading: present and not the empty text. */
  predicate Present(h: Option<string>) {
    h.Some? && h.value != ""
  }

  /** Python's `a or b` on optional headings. */
  function Or(a: Option<string>, b: Option<string>): Option<string> {
    if Present(a) then a else b
  }

  /** Index of the first present heading of `hs` at or after `from`, or `|hs|` when there is none. */
  function FirstPresent(hs: seq<Option<string>>, from: nat): (i: nat)
    requires from <= |hs|
    ensures from <= i <= |hs|
    ensures i < |hs| ==> Present(hs[i])
    ensures forall k :: from <= k < i ==> !Present(hs[k])
    decreases |hs| - from
  {
    if from == |hs| then from
    else if Present(hs[from]) then from
    else FirstPresent(hs, from + 1)
  }

  // ------------------------------------------------------------------ preprocessing

  /** The lines `_preprocess` keeps: all but those of header level 1 to 3, in order. */
  function KeepLines(lines: seq<string>): seq<string>
    decreases |lines|
  {
    if lines == [] then []
    else
      var init := KeepLines(lines[..|lines| - 1]);
      var last := lines[|lines| - 1];
      if 1 <= HeaderLevel(last) <= 3 then init else init + [last]
  }

  /** `_preprocess` keeps no heading of level 1 to 3, only lines it was given, and every other line. */
  lemma {:induction false} KeepLinesFilter(lines: seq<string>)
    ensures var kept := KeepLines(lines);
      (forall k :: 0 <= k < |kept| ==> !(1 <= HeaderLevel(kept[k]) <= 3)) &&
      (forall k :: 0 <= k < |kept| ==> kept[k] in lines) &&
      (forall k :: 0 <= k < |lines| && !(1 <= HeaderLevel(lines[k]) <= 3) ==> lines[k] in kept)
    decreases |lines|
  {
    if lines != [] {
      var init := lines[..|lines| - 1];
      KeepLinesFilter(init);
      assert forall k :: 0 <= k < |lines| - 1 ==> lines[k] == init[k];
    }
  }

  /** The body after `_preprocess`: level 1-3 heading lines removed, the rest joined and stripped. */
  function Preprocessed(rawMd: string): string {
    Strip(Join(KeepLines(SplitLines(rawMd)), '\n'))
  }

  /** A list of lines with no level 1-3 heading is kept whole. */
  lemma {:induction false} KeepPlain(lines: seq<string>)
    requires forall k :: 0 <= k < |lines| ==> !(1 <= HeaderLevel(lines[k]) <= 3)
    ensures KeepLines(lines) == lines
    decreases |lines|
  {
    if lines != [] {
      var init := lines[..|lines| - 1];
      KeepPlain(init);
      assert init + [lines[|lines| - 1]] == lines;
    }
  }

  /** Lines that `_preprocess` drops are exactly the headings of level 1 to 3. */
  lemma {:induction false} KeepDropsHeadings(lines: seq<string>)
    ensures |KeepLines(lines)| == |lines| - |HeadingLines(lines)|
    decreases |lines|
  {
    if lines != [] {
      KeepDropsHeadings(lines[..|lines| - 1]);
    }
  }

  /** The lines of header level 1 to 3, in order. */
  function HeadingLines(lines: seq<string>): (hs: seq<string>)
    ensures forall k :: 0 <= k < |hs| ==> 1 <= HeaderLevel(hs[k]) <= 3
    decreases |lines|
  {
    if lines == [] then []
    else
      var init := HeadingLines(lines[..|lines| - 1]);
      var last := lines[|lines| - 1];
      if 1 <= HeaderLevel(last) <= 3 then init + [last] else init
  }

  /** A body without level 1-3 headings and without surrounding whitespace is left as it is. */
  lemma PreprocessPlain(rawMd: string)
    requires Strip(rawMd) == rawMd
    requires forall k :: 0 <= k < |Split(rawMd, '\n')| ==> !(1 <= HeaderLevel(Split(rawMd, '\n')[k]) <= 3)
    ensures Preprocessed(rawMd) == rawMd
  {
    var parts := Split(rawMd, '\n');
    if rawMd == "" {
      assert SplitLines(rawMd) == [];
    } else {
      SplitLastEmpty(rawMd, '\n');
      assert !IsSpace(rawMd[|rawMd| - 1]);
      assert SplitLines(rawMd) == parts;
      KeepPlain(parts);
      JoinSplit(rawMd, '\n');
    }
  }

  // ------------------------------------------------------------------ chunking

  /** The state of the chunking loop: chunks so far, the paragraph buffer, the blank-line count. */
  datatype ChunkScan = ChunkScan(chunks: seq<Chunk>, current: seq<string>, blanks: nat)

  /** Emit the paragraph buffer as a chunk, unless it is empty. */
  function FlushParagraph(chunks: seq<Chunk>, current: seq<string>): seq<Chunk> {
    if current == [] then chunks else chunks + [Chunk(Join(current, '\n'), Paragraph)]
  }

  /** One iteration of the chunking loop for a line that is an image line or not, and empty or not. */
  function ChunkStepAs(st: ChunkScan, line: string, image: bool, empty: bool): ChunkScan {
    if image then
      ChunkScan(FlushParagraph(st.chunks, st.current) + [Chunk(line, Image)], [], 0)
    else if empty then
      if st.blanks + 1 == 2 then ChunkScan(FlushParagraph(st.chunks, st.current), [], 0)
      else ChunkScan(st.chunks, st.current + [line], st.blanks + 1)
    else ChunkScan(st.chunks, st.current + [line], 0)
  }

  /** One iteration of the chunking loop, without the last-line check. */
  function ChunkStep(st: ChunkScan, line: string): ChunkScan {
    ChunkStepAs(st, line, ContainsImage(line), IsEmpty(line))
  }

  /** The chunking loop over `lines`, from an empty state. */
  function ScanChunks(lines: seq<string>): ChunkScan
    decreases |lines|
  {
    if lines == [] then ChunkScan([], [], 0)
    else ChunkStep(ScanChunks(lines[..|lines| - 1]), lines[|lines| - 1])
  }

  /** The chunks of a (preprocessed) body: the loop, then the buffer left at the last line. */
  function ChunksOf(body: string): seq<Chunk> {
    var st := ScanChunks(Split(body, '\n'));
    FlushParagraph(st.chunks, st.current)
  }

  // ------------------------------------------------------------------ the page object

  class Page {
    var rawMd: string
    var option: PageOption
    var chunks: seq<Chunk>
    var h1: Option<string>
    var h2: Option<string>
    var h3: Option<string>
    var deco: map<string, Value>

    constructor(rawMd: string, option: PageOption, h1: Option<string>, h2: Option<string>,
                h3: Option<string>, deco: map<string, Value>)
      ensures this.rawMd == rawMd && this.option == option && this.chunks == []
      ensures this.h1 == h1 && this.h2 == h2 && this.h3 == h3 && this.deco == deco
    {
      this.rawMd := rawMd;
      this.option := option;
      this.chunks := [];
      this.h1 := h1;
      this.h2 := h2;
      this.h3 := h3;
      this.deco := deco;
    }

    /** `_preprocess`: rewrites the body, and nothing else. */
    method Preprocess()
      modifies this
      ensures RecordOf(this) == old(RecordOf(this)).(rawMd := Preprocessed(old(rawMd)))
    {
      rawMd := Preprocessed(rawMd);
    }

    /**
     * `chunk`: preprocesses the body, then appends its chunks to the page's chunks. Only the
     * body and the chunks change.
     */
    method MakeChunks()
      modifies this
      ensures RecordOf(this) == old(RecordOf(this)).(rawMd := Preprocessed(old(rawMd)),
                                                    chunks := old(chunks) + ChunksOf(Preprocessed(old(rawMd))))
    {
      Preprocess();
      var added := ChunkBody(rawMd);
      chunks := chunks + added;
    }
  }

  /** The fields of a page object as a value. */
  function RecordOf(p: Page): PageRecord
    reads p
  {
    PageRecord(p.rawMd, p.option, p.chunks, p.h1, p.h2, p.h3, p.deco)
  }

  /**
   * The loop of `chunk` over the lines of a preprocessed body: what it appends to the
   * page's chunks, including the paragraph still open at the last line.
   */
  method ChunkBody(body: string) returns (added: seq<Chunk>)
    ensures added == ChunksOf(body)
  {
    var lines := Split(body, '\n');
    added := [];
    var current: seq<string> := [];
    var blanks: nat := 0;
    var i := 0;
    assert lines[..0] == [];
    while i < |lines|
      invariant 0 <= i <= |lines|
      invariant i < |lines| ==> ScanChunks(lines[..i]) == ChunkScan(added, current, blanks)
      invariant i == |lines| ==> added == ChunksOf(body)
    {
      var line := lines[i];
      ghost var before := ChunkScan(added, current, blanks);
      assert lines[..i + 1][..i] == lines[..i];
      ChunkStepAppends(before, line);
      var emitted: seq<Chunk>;
      emitted, current, blanks := Absorb(current, blanks, line);
      added := added + emitted;
      if i == |lines| - 1 {
        assert lines[..i + 1] == lines;
        if current != [] {
          added := added + [Chunk(Join(current, '\n'), Paragraph)];
        }
      }
      i := i + 1;
    }
  }

  /**
   * The body of the chunking loop for one line: the chunks it appends, the new paragraph
   * buffer and the new blank-line count.
   */
  method Absorb(current: seq<string>, blanks: nat, line: string)
    returns (emitted: seq<Chunk>, current': seq<string>, blanks': nat)
    ensures var st := ChunkStep(ChunkScan([], current, blanks), line);
      emitted == st.chunks && current' == st.current && blanks' == st.blanks
  {
    emitted, current', blanks' := [], current, blanks;
    if ContainsImage(line) {
      if current' != [] {
        emitted := emitted + [Chunk(Join(current', '\n'), Paragraph)];
        current' := [];
      }
      emitted := emitted + [Chunk(line, Image)];
      blanks' := 0;
    } else if IsEmpty(line) {
      blanks' := blanks' + 1;
      if blanks' == 2 {
        if current' != [] {
          emitted := emitted + [Chunk(Join(current', '\n'), Paragraph)];
          current' := [];
        }
        blanks' := 0;
      } else {
        current' := current' + [line];
      }
    } else {
      current' := current' + [line];
      blanks' := 0;
    }
  }

  /** A step appends to the chunks it is given and does not look at them. */
  lemma ChunkStepAppends(st: ChunkScan, line: string)
    ensures var any := ChunkStep(ChunkScan([], st.current, st.blanks), line);
      ChunkStep(st, line) == ChunkScan(st.chunks + any.chunks, any.current, any.blanks)
  {
  }

  // ------------------------------------------------------------------ properties of chunking

  /** No line of `lines` holds a line break. */
  predicate LineFree(lines: seq<string>) {
    forall k :: 0 <= k < |lines| ==> '\n' !in lines[k]
  }

  /** No two consecutive lines of `lines` are both empty. */
  predicate NoBlankPair(lines: seq<string>) {
    forall k :: 0 <= k < |lines| - 1 ==> !(IsEmpty(lines[k]) && IsEmpty(lines[k + 1]))
  }

  /** What a paragraph may hold: no image line and no two consecutive empty lines. */
  predicate ParagraphLines(lines: seq<string>) {
    (forall k :: 0 <= k < |lines| ==> !ContainsImage(lines[k])) && NoBlankPair(lines)
  }

  /** A paragraph chunk's lines are paragraph lines; an image chunk is one line. */
  predicate WellFormedChunk(c: Chunk) {
    match c.kind
    case Paragraph => ParagraphLines(Split(c.content, '\n'))
    case Image => '\n' !in c.content && ContainsImage(c.content)
  }

  /** What holds of the chunking state after every line. */
  predicate WellFormedScan(st: ChunkScan) {
    (forall k :: 0 <= k < |st.chunks| ==> WellFormedChunk(st.chunks[k]))
    && LineFree(st.current) && ParagraphLines(st.current)
    && st.blanks <= 1
    && (st.blanks == 1 ==> st.current != [] && IsEmpty(st.current[|st.current| - 1]))
    && (st.blanks == 0 && st.current != [] ==> !IsEmpty(st.current[|st.current| - 1]))
  }

  lemma FlushWellFormed(chunks: seq<Chunk>, current: seq<string>)
    requires forall k :: 0 <= k < |chunks| ==> WellFormedChunk(chunks[k])
    requires LineFree(current) && ParagraphLines(current)
    ensures var r := FlushParagraph(chunks, current);
      forall k :: 0 <= k < |r| ==> WellFormedChunk(r[k])
  {
    if current != [] {
      SplitJoin(current, '\n');
    }
  }

  lemma AppendLine(current: seq<string>, line: string)
    requires ParagraphLines(current) && !ContainsImage(line)
    requires current != [] && IsEmpty(line) ==> !IsEmpty(current[|current| - 1])
    ensures ParagraphLines(current + [line])
  {
    var c := current + [line];
    assert forall k :: 0 <= k < |current| ==> c[k] == current[k];
  }

  /** One line keeps the chunking state well formed. */
  lemma ChunkStepWellFormed(st: ChunkScan, line: string)
    requires WellFormedScan(st) && '\n' !in line
    ensures WellFormedScan(ChunkStep(st, line))
  {
    StepAsWellFormed(st, line, ContainsImage(line), IsEmpty(line));
  }

  lemma StepAsWellFormed(st: ChunkScan, line: string, image: bool, empty: bool)
    requires WellFormedScan(st) && '\n' !in line
    requires image == ContainsImage(line) && empty == IsEmpty(line)
    ensures WellFormedScan(ChunkStepAs(st, line, image, empty))
  {
    FlushWellFormed(st.chunks, st.current);
    if !image && (!empty || st.blanks == 0) {
      AppendLine(st.current, line);
    }
  }

  lemma {:induction false} ScanWellFormed(lines: seq<string>)
    requires LineFree(lines)
    ensures WellFormedScan(ScanChunks(lines))
    decreases |lines|
  {
    if lines != [] {
      ScanWellFormed(lines[..|lines| - 1]);
      ChunkStepWellFormed(ScanChunks(lines[..|lines| - 1]), lines[|lines| - 1]);
    }
  }

  /**
   * Every chunk of a body is well formed: an image chunk is a single line with an image; a
   * paragraph chunk has no image line and never two empty lines in a row.
   */
  lemma ChunksWellFormed(body: string)
    ensures forall k :: 0 <= k < |ChunksOf(body)| ==> WellFormedChunk(ChunksOf(body)[k])
  {
    var lines := Split(body, '\n');
    SplitNoSep(body, '\n');
    ScanWellFormed(lines);
    var st := ScanChunks(lines);
    FlushWellFormed(st.chunks, st.current);
  }

  /** The contents of the image chunks, in order. */
  function ImageContents(chunks: seq<Chunk>): seq<string>
    decreases |chunks|
  {
    if chunks == [] then []
    else
      var c := chunks[|chunks| - 1];
      ImageContents(chunks[..|chunks| - 1]) + (if c.kind == Image then [c.content] else [])
  }

  /** The lines that contain an image, in order. */
  function ImageLines(lines: seq<string>): seq<string>
    decreases |lines|
  {
    if lines == [] then []
    else
      var l := lines[|lines| - 1];
      ImageLines(lines[..|lines| - 1]) + (if ContainsImage(l) then [l] else [])
  }

  lemma ImageContentsSnoc(chunks: seq<Chunk>, c: Chunk)
    ensures ImageContents(chunks + [c]) == ImageContents(chunks) + (if c.kind == Image then [c.content] else [])
  {
    assert (chunks + [c])[..|chunks|] == chunks;
  }

  lemma ImageLinesSnoc(lines: seq<string>, l: string)
    ensures ImageLines(lines + [l]) == ImageLines(lines) + (if ContainsImage(l) then [l] else [])
  {
    assert (lines + [l])[..|lines|] == lines;
  }

  lemma FlushImages(chunks: seq<Chunk>, current: seq<string>)
    ensures ImageContents(FlushParagraph(chunks, current)) == ImageContents(chunks)
  {
    if current != [] {
      ImageContentsSnoc(chunks, Chunk(Join(current, '\n'), Paragraph));
    }
  }

  /** One line adds itself to the image chunks exactly when it holds an image. */
  lemma ChunkStepImages(st: ChunkScan, l: string)
    ensures ImageContents(ChunkStep(st, l).chunks) == ImageContents(st.chunks) + (if ContainsImage(l) then [l] else [])
  {
    StepAsImages(st, l, ContainsImage(l), IsEmpty(l));
  }

  lemma StepAsImages(st: ChunkScan, l: string, image: bool, empty: bool)
    ensures ImageContents(ChunkStepAs(st, l, image, empty).chunks) == ImageContents(st.chunks) + (if image then [l] else [])
  {
    FlushImages(st.chunks, st.current);
    if image {
      ImageContentsSnoc(FlushParagraph(st.chunks, st.current), Chunk(l, Image));
    }
  }

  lemma {:induction false} ScanImages(lines: seq<string>)
    ensures ImageContents(ScanChunks(lines).chunks) == ImageLines(lines)
    decreases |lines|
  {
    if lines != [] {
      var init, l := lines[..|lines| - 1], lines[|lines| - 1];
      ScanImages(init);
      ChunkStepImages(ScanChunks(init), l);
    }
  }

  /** The image chunks of a body are exactly its image lines, in order. */
  lemma ChunkImages(body: string)
    ensures ImageContents(ChunksOf(body)) == ImageLines(Split(body, '\n'))
  {
    var st := ScanChunks(Split(body, '\n'));
    ScanImages(Split(body, '\n'));
    FlushImages(st.chunks, st.current);
  }

  /** The lines that are not empty (neither blank nor a comment), in order. */
  function Solid(lines: seq<string>): seq<string>
    decreases |lines|
  {
    if lines == [] then []
    else
      var l := lines[|lines| - 1];
      Solid(lines[..|lines| - 1]) + (if IsEmpty(l) then [] else [l])
  }

  lemma {:induction false} SolidAppend(a: seq<string>, b: seq<string>)
    ensures Solid(a + b) == Solid(a) + Solid(b)
    decreases |b|
  {
    if b == [] {
      assert a + b == a;
    } else {
      var init, l := b[..|b| - 1], b[|b| - 1];
      assert (a + b)[..|a + b| - 1] == a + init;
      SolidAppend(a, init);
    }
  }

  /** Every line of every chunk, in order. */
  function AllLines(chunks: seq<Chunk>): seq<string>
    decreases |chunks|
  {
    if chunks == [] then []
    else AllLines(chunks[..|chunks| - 1]) + Split(chunks[|chunks| - 1].content, '\n')
  }

  lemma AllLinesSnoc(chunks: seq<Chunk>, c: Chunk)
    ensures AllLines(chunks + [c]) == AllLines(chunks) + Split(c.content, '\n')
  {
    assert (chunks + [c])[..|chunks|] == chunks;
  }

  lemma FlushLines(chunks: seq<Chunk>, current: seq<string>)
    requires LineFree(current)
    ensures AllLines(FlushParagraph(chunks, current)) == AllLines(chunks) + current
  {
    if current != [] {
      AllLinesSnoc(chunks, Chunk(Join(current, '\n'), Paragraph));
      SplitJoin(current, '\n');
    }
  }

  lemma SingleLine(line: string)
    requires '\n' !in line
    ensures Split(line, '\n') == [line]
  {
    SplitJoin([line], '\n');
  }

  /** One line changes the non-empty lines held in chunks and buffer as it changes those of the input. */
  lemma ChunkStepSolid(st: ChunkScan, l: string)
    requires LineFree(st.current) && '\n' !in l
    ensures var st' := ChunkStep(st, l);
      Solid(AllLines(st'.chunks) + st'.current) == Solid(AllLines(st.chunks) + st.current) + Solid([l])
  {
    StepAsSolid(st, l, ContainsImage(l), IsEmpty(l));
  }

  lemma SolidOne(l: string)
    ensures Solid([l]) == if IsEmpty(l) then [] else [l]
  {
    assert [l][..0] == [];
  }

  lemma ImageStepLines(st: ChunkScan, l: string)
    requires LineFree(st.current) && '\n' !in l
    ensures AllLines(FlushParagraph(st.chunks, st.current) + [Chunk(l, Image)]) == AllLines(st.chunks) + st.current + [l]
  {
    FlushLines(st.chunks, st.current);
    AllLinesSnoc(FlushParagraph(st.chunks, st.current), Chunk(l, Image));
    SingleLine(l);
  }

  lemma StepAsSolid(st: ChunkScan, l: string, image: bool, empty: bool)
    requires LineFree(st.current) && '\n' !in l && empty == IsEmpty(l)
    ensures var st' := ChunkStepAs(st, l, image, empty);
      Solid(AllLines(st'.chunks) + st'.current) == Solid(AllLines(st.chunks) + st.current) + Solid([l])
  {
    var before := AllLines(st.chunks) + st.current;
    var st' := ChunkStepAs(st, l, image, empty);
    SolidOne(l);
    if image {
      assert st' == ChunkScan(FlushParagraph(st.chunks, st.current) + [Chunk(l, Image)], [], 0);
      ImageStepLines(st, l);
      assert AllLines(st'.chunks) + st'.current == before + [l];
      SolidAppend(before, [l]);
    } else if empty && st.blanks + 1 == 2 {
      assert st' == ChunkScan(FlushParagraph(st.chunks, st.current), [], 0);
      FlushLines(st.chunks, st.current);
      assert AllLines(st'.chunks) + st'.current == before;
    } else {
      assert st'.chunks == st.chunks && st'.current == st.current + [l];
      assert AllLines(st'.chunks) + st'.current == before + [l];
      SolidAppend(before, [l]);
    }
  }

  lemma {:induction false} ScanSolid(lines: seq<string>)
    requires LineFree(lines)
    ensures var st := ScanChunks(lines); Solid(AllLines(st.chunks) + st.current) == Solid(lines)
    decreases |lines|
  {
    if lines != [] {
      var init, l := lines[..|lines| - 1], lines[|lines| - 1];
      ScanSolid(init);
      ScanWellFormed(init);
      ChunkStepSolid(ScanChunks(init), l);
      assert lines == init + [l];
      SolidAppend(init, [l]);
    }
  }

  /**
   * Chunking loses no non-empty line and reorders nothing: the non-empty lines of all chunks,
   * in order, are the non-empty lines of the body. Only empty lines are dropped (the second
   * of each pair).
   */
  lemma ChunksKeepLines(body: string)
    ensures Solid(AllLines(ChunksOf(body))) == Solid(Split(body, '\n'))
  {
    var lines := Split(body, '\n');
    SplitNoSep(body, '\n');
    ScanSolid(lines);
    ScanWellFormed(lines);
    var st := ScanChunks(lines);
    FlushLines(st.chunks, st.current);
  }

  /** An empty body gives exactly one paragraph chunk, with empty content. */
  lemma EmptyBodyChunks()
    ensures ChunksOf("") == [Chunk("", Paragraph)]
  {
    assert Split("", '\n') == [""];
    assert [""][..0] == [];
    BlankLine();
    assert ScanChunks([""]) == ChunkStepAs(ChunkScan([], [], 0), "", false, true);
    assert Join([""], '\n') == "";
  }

  /** A line of ordinary text: no line break, not empty, no image. */
  predicate TextLine(l: string) {
    '\n' !in l && !IsEmpty(l) && !ContainsImage(l)
  }

  lemma BlankLine()
    ensures IsEmpty("") && !ContainsImage("")
  {
    assert Strip("") == "";
  }

  lemma ScanSnoc(lines: seq<string>, l: string)
    ensures ScanChunks(lines + [l]) == ChunkStep(ScanChunks(lines), l)
  {
    assert (lines + [l])[..|lines|] == lines;
  }

  lemma StepText(st: ChunkScan, x: string)
    requires TextLine(x)
    ensures ChunkStep(st, x) == ChunkScan(st.chunks, st.current + [x], 0)
  {
  }

  lemma StepBlank(st: ChunkScan)
    ensures st.blanks == 0 ==> ChunkStep(st, "") == ChunkScan(st.chunks, st.current + [""], 1)
    ensures st.blanks == 1 ==> ChunkStep(st, "") == ChunkScan(FlushParagraph(st.chunks, st.current), [], 0)
  {
    BlankLine();
  }

  lemma JoinThree(a: string, b: string, c: string)
    ensures Join([a, b, c], '\n') == a + "\n" + b + "\n" + c
  {
    assert [a, b, c][1..] == [b, c];
    assert [b, c][1..] == [c];
    assert Join([b, c], '\n') == b + "\n" + c;
    assert Join([a, b, c], '\n') == a + "\n" + (b + "\n" + c);
  }

  lemma JoinFour(a: string, b: string, c: string, d: string)
    ensures Join([a, b, c, d], '\n') == a + "\n" + b + "\n" + c + "\n" + d
  {
    assert [a, b, c, d][1..] == [b, c, d];
    JoinThree(b, c, d);
  }

  lemma ScanText(x: string)
    requires TextLine(x)
    ensures ScanChunks([x]) == ChunkScan([], [x], 0)
  {
    ScanSnoc([], x);
    StepText(ChunkScan([], [], 0), x);
    assert [] + [x] == [x];
  }

  lemma ScanTextBlank(x: string)
    requires TextLine(x)
    ensures ScanChunks([x, ""]) == ChunkScan([], [x, ""], 1)
  {
    ScanText(x);
    ScanSnoc([x], "");
    StepBlank(ChunkScan([], [x], 0));
    assert [x] + [""] == [x, ""];
  }

  lemma ScanTextBlankText(x: string, y: string)
    requires TextLine(x) && TextLine(y)
    ensures ScanChunks([x, "", y]) == ChunkScan([], [x, "", y], 0)
  {
    ScanTextBlank(x);
    ScanSnoc([x, ""], y);
    StepText(ChunkScan([], [x, ""], 1), y);
    assert [x, ""] + [y] == [x, "", y];
  }

  lemma ScanTextBlanks(x: string)
    requires TextLine(x)
    ensures ScanChunks([x, "", ""]) == ChunkScan([Chunk(x + "\n", Paragraph)], [], 0)
  {
    ScanTextBlank(x);
    ScanSnoc([x, ""], "");
    StepBlank(ChunkScan([], [x, ""], 1));
    assert Join([x, ""], '\n') == x + "\n" by { assert [x, ""][1..] == [""]; }
    assert [x, ""] + [""] == [x, "", ""];
  }

  lemma ScanTextBlanksText(x: string, y: string)
    requires TextLine(x) && TextLine(y)
    ensures ScanChunks([x, "", "", y]) == ChunkScan([Chunk(x + "\n", Paragraph)], [y], 0)
  {
    ScanTextBlanks(x);
    ScanSnoc([x, "", ""], y);
    StepText(ChunkScan([Chunk(x + "\n", Paragraph)], [], 0), y);
    assert [x, "", ""] + [y] == [x, "", "", y];
  }

  /** One empty line between two lines of text keeps them in one paragraph. */
  lemma OneBlankKeepsParagraph(x: string, y: string)
    requires TextLine(x) && TextLine(y)
    ensures ChunksOf(x + "\n\n" + y) == [Chunk(x + "\n\n" + y, Paragraph)]
  {
    JoinThree(x, "", y);
    assert x + "\n" + "" + "\n" + y == x + "\n\n" + y;
    SplitJoin([x, "", y], '\n');
    ScanTextBlankText(x, y);
  }

  /** Two empty lines end a paragraph: the first stays in it, the second is dropped. */
  lemma TwoBlanksSplitParagraphs(x: string, y: string)
    requires TextLine(x) && TextLine(y)
    ensures ChunksOf(x + "\n\n\n" + y) == [Chunk(x + "\n", Paragraph), Chunk(y, Paragraph)]
  {
    JoinFour(x, "", "", y);
    assert x + "\n" + "" + "\n" + "" + "\n" + y == x + "\n\n\n" + y;
    SplitJoin([x, "", "", y], '\n');
    ScanTextBlanksText(x, y);
    assert Join([y], '\n') == y;
  }

  /** An image line between two lines of text cuts them into a paragraph, the image and a paragraph. */
  lemma ImageBetweenParagraphs(x: string, img: string, y: string)
    requires TextLine(x) && TextLine(y)
    requires '\n' !in img && ContainsImage(img)
    ensures ChunksOf(x + "\n" + img + "\n" + y) == [Chunk(x, Paragraph), Chunk(img, Image), Chunk(y, Paragraph)]
  {
    JoinThree(x, img, y);
    SplitJoin([x, img, y], '\n');
    ScanText(x);
    ScanSnoc([x], img);
    assert [x] + [img] == [x, img];
    assert Join([x], '\n') == x;
    var st := ChunkScan([Chunk(x, Paragraph), Chunk(img, Image)], [], 0);
    assert ScanChunks([x, img]) == st;
    ScanSnoc([x, img], y);
    assert [x, img] + [y] == [x, img, y];
    StepText(st, y);
    assert Join([y], '\n') == y;
  }
}
