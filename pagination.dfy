/**
 * `paginate` of moffie/splitter.py: the body of a document is read line by line by a small
 * state machine that buffers lines and flushes the buffer as a page (`create_page`) before a
 * header that steps down and at every divider; a second pass lets pages inherit the headings
 * of earlier pages and chunks each page.
 *
 * The functions below are the specification: `Step` is one iteration of the line loop, `Run`
 * the loop, `Flush` one call of `create_page` on the abstract state, `BuildRecord` the page
 * object that call builds and `InheritScan` the heading pass. The methods `CreatePage` and
 * `Paginate` are the imperative procedure, proved to produce exactly those pages.
 */
module Pagination {
  import opened Wrappers
  import opened Text
  import opened MdHelper
  import opened Options
  import opened Deco
  import opened Frontmatter
  import opened Pages

  // ------------------------------------------------------------------ the line loop

  /** A page that `create_page` emits: the buffered lines and the headings in progress. */
  datatype Draft = Draft(lines: seq<string>, h1: Option<string>, h2: Option<string>, h3: Option<string>)

  /**
   * The variables of the line loop: the pages emitted so far (as drafts), `current_page_lines`,
   * `current_h1..3` and `prev_header_level`.
   */
  datatype Machine = Machine(drafts: seq<Draft>, buffer: seq<string>,
                             h1: Option<string>, h2: Option<string>, h3: Option<string>, prev: nat)

  const Start := Machine([], [], None, None, None, 0)

  /** Every line strips to nothing: the test that makes `create_page` emit nothing. */
  predicate AllBlank(lines: seq<string>) {
    forall k :: 0 <= k < |lines| ==> Strip(lines[k]) == ""
  }

  /** Whether a line of header level `level` closes the current page before it is buffered. */
  predicate BreakBefore(prev: nat, level: nat) {
    var downstep := prev == 0 || prev > level;
    var deeper := prev > level >= 3;
    level > 0 && downstep && !deeper
  }

  /**
   * `create_page`: a buffer of blank lines is kept, with the headings, for the next page;
   * otherwise the buffer becomes a page and the buffer and the headings are reset.
   * `prev_header_level` is not touched.
   */
  function Flush(m: Machine): Machine {
    if AllBlank(m.buffer) then m
    else Machine(m.drafts + [Draft(m.buffer, m.h1, m.h2, m.h3)], [], None, None, None, m.prev)
  }

  /** The heading a header line sets: the line without its leading `#`s, stripped. */
  function HeadingText(line: string): string {
    Strip(LStripChar(line, '#'))
  }

  /** What the line loop reads off a line: its header level, whether it is a divider, whether it resets `prev_header_level`, and the heading it sets. */
  datatype Kind = Kind(level: nat, divider: bool, resets: bool, heading: string)

  function KindOf(line: string): Kind {
    Kind(HeaderLevel(line), IsDivider(line), !IsEmpty(line) && !ContainsDeco(line), HeadingText(line))
  }

  /** The buffer and headings after a (non-divider) line of kind `k` is buffered. */
  function Buffered(m: Machine, line: string, k: Kind): Machine {
    Machine(m.drafts, m.buffer + [line],
            if k.level == 1 then Some(k.heading) else m.h1,
            if k.level == 2 then Some(k.heading) else m.h2,
            if k.level == 3 then Some(k.heading) else m.h3,
            if k.level > 0 then k.level else if k.resets then 0 else m.prev)
  }

  /** One iteration of the line loop, for a line of kind `k`. */
  function StepAs(m: Machine, line: string, k: Kind): Machine {
    var m1 := if BreakBefore(m.prev, k.level) then Flush(m) else m;
    if k.divider then Flush(m1) else Buffered(m1, line, k)
  }

  /** One iteration of the line loop of `paginate`. */
  function Step(m: Machine, line: string): Machine {
    StepAs(m, line, KindOf(line))
  }

  /** The line loop over `lines`, from the initial state. */
  function Run(lines: seq<string>): Machine
    decreases |lines|
  {
    if lines == [] then Start else Step(Run(lines[..|lines| - 1]), lines[|lines| - 1])
  }

  /** The pages of the body before inheritance: the loop, then the final `create_page`. */
  function Drafts(lines: seq<string>): seq<Draft> {
    Flush(Run(lines)).drafts
  }

  /** What the final `create_page` leaves in the buffer: blank lines only, or nothing. */
  function Leftover(lines: seq<string>): seq<string> {
    Flush(Run(lines)).buffer
  }

  // ------------------------------------------------------------------ building a page

  /** `raw_md` of a page: `"\n" + line` for every buffered line that is not a decorator line. */
  function RawOf(lines: seq<string>): string
    decreases |lines|
  {
    if lines == [] then ""
    else
      var last := lines[|lines| - 1];
      RawOf(lines[..|lines| - 1]) + if ContainsDeco(last) then "" else "\n" + last
  }

  /** The page's option: `base` updated by the decorator lines in order. */
  function OptionOf(base: PageOption, lines: seq<string>): PageOption
    decreases |lines|
  {
    if lines == [] then base
    else
      var last := lines[|lines| - 1];
      var o := OptionOf(base, lines[..|lines| - 1]);
      if ContainsDeco(last) then ApplyKnown(o, DecoPairs(last)) else o
  }

  /** The page's `deco`: the unknown keys of the decorator lines, later lines winning. */
  function DecoOf(lines: seq<string>): map<string, Value>
    decreases |lines|
  {
    if lines == [] then map[]
    else
      var last := lines[|lines| - 1];
      var d := DecoOf(lines[..|lines| - 1]);
      if ContainsDeco(last) then d + Remaining(DecoPairs(last)) else d
  }

  /** The page object `create_page` builds from a draft. */
  function BuildRecord(d: Draft, option: PageOption): PageRecord {
    PageRecord(RawOf(d.lines), OptionOf(option, d.lines), [], d.h1, d.h2, d.h3, DecoOf(d.lines))
  }

  function Builds(ds: seq<Draft>, option: PageOption): (rs: seq<PageRecord>)
    ensures |rs| == |ds|
    decreases |ds|
  {
    if ds == [] then []
    else Builds(ds[..|ds| - 1], option) + [BuildRecord(ds[|ds| - 1], option)]
  }

  // ------------------------------------------------------------------ heading inheritance

  /** `env_h1..3`: the headings most recently set by a page. */
  datatype Env = Env(h1: Option<string>, h2: Option<string>, h3: Option<string>)

  /** The environment after a page: its own h1 resets h2 and h3, its own h2 resets h3. */
  function EnvAfter(env: Env, p: PageRecord): Env {
    var e1 := if p.h1.Some? then Env(p.h1, None, None) else env;
    var e2 := if p.h2.Some? then Env(e1.h1, p.h2, None) else e1;
    if p.h3.Some? then Env(e2.h1, e2.h2, p.h3) else e2
  }

  /** A page after inheritance: a heading is filled in from `env` when no own heading of that level or above blocks it and the option asks for it. */
  function InheritOne(env: Env, p: PageRecord): PageRecord {
    var e := EnvAfter(env, p);
    var i1 := Truthy(p.option.defaultH1) && p.h1.None?;
    var i2 := Truthy(p.option.defaultH2) && p.h1.None? && p.h2.None?;
    var i3 := Truthy(p.option.defaultH3) && p.h1.None? && p.h2.None? && p.h3.None?;
    p.(h1 := if i1 then e.h1 else p.h1,
       h2 := if i2 then e.h2 else p.h2,
       h3 := if i3 then e.h3 else p.h3)
  }

  /** The inheritance pass over `ps`: the final environment and the updated pages. */
  function InheritScan(ps: seq<PageRecord>): (r: (Env, seq<PageRecord>))
    ensures |r.1| == |ps|
    decreases |ps|
  {
    if ps == [] then (Env(None, None, None), [])
    else
      var (env, out) := InheritScan(ps[..|ps| - 1]);
      var p := ps[|ps| - 1];
      (EnvAfter(env, p), out + [InheritOne(env, p)])
  }

  /** A page after `chunk`: body preprocessed, its chunks appended. */
  function Finalize(r: PageRecord): PageRecord {
    r.(rawMd := Preprocessed(r.rawMd), chunks := r.chunks + ChunksOf(Preprocessed(r.rawMd)))
  }

  function Finalized(rs: seq<PageRecord>): (fs: seq<PageRecord>)
    ensures |fs| == |rs|
    decreases |rs|
  {
    if rs == [] then [] else Finalized(rs[..|rs| - 1]) + [Finalize(rs[|rs| - 1])]
  }

  lemma {:induction false} FinalizedAt(rs: seq<PageRecord>, k: nat)
    requires k < |rs|
    ensures Finalized(rs)[k] == Finalize(rs[k])
    decreases |rs|
  {
    if k < |rs| - 1 {
      FinalizedAt(rs[..|rs| - 1], k);
    }
  }

  /** The option `paginate` uses: the one given, or else the one the front matter sets. */
  function ChosenOption(document: string, option: Option<PageOption>, safeLoad: string -> Yaml): PageOption {
    if option.None? then ParseFrontmatter(document, safeLoad).1 else option.value
  }

  /** The lines of the body that `paginate` reads. */
  function BodyLines(document: string, safeLoad: string -> Yaml): seq<string> {
    Split(ParseFrontmatter(document, safeLoad).0, '\n')
  }

  /** The pages `paginate` returns, as values. */
  function Paginated(document: string, option: Option<PageOption>, safeLoad: string -> Yaml): seq<PageRecord> {
    var built := Builds(Drafts(BodyLines(document, safeLoad)), ChosenOption(document, option, safeLoad));
    Finalized(InheritScan(built).1)
  }

  // ------------------------------------------------------------------ the procedure

  /** The fields of a list of page objects, as values. */
  function Records(ps: seq<Page>): (rs: seq<PageRecord>)
    reads ps
    ensures |rs| == |ps|
    ensures forall k :: 0 <= k < |ps| ==> rs[k] == RecordOf(ps[k])
    decreases |ps|
  {
    if ps == [] then [] else Records(ps[..|ps| - 1]) + [RecordOf(ps[|ps| - 1])]
  }

  /** `qs` is `ps` followed by zero or more pages. */
  predicate Extends(ps: seq<Page>, qs: seq<Page>) {
    |ps| <= |qs| && forall k :: 0 <= k < |ps| ==> qs[k] == ps[k]
  }

  predicate Distinct(ps: seq<Page>) {
    forall j, k :: 0 <= j < k < |ps| ==> ps[j] != ps[k]
  }

  /** The loop variables of `paginate` hold the abstract state `m`. */
  predicate Holds(pages: seq<Page>, buffer: seq<string>, h1: Option<string>, h2: Option<string>,
                  h3: Option<string>, prev: nat, m: Machine, option: PageOption)
    reads pages
  {
    Records(pages) == Builds(m.drafts, option) && buffer == m.buffer &&
    h1 == m.h1 && h2 == m.h2 && h3 == m.h3 && prev == m.prev
  }

  /** The loop of `create_page` over its buffer: the body, the option and the decorator values of the page. */
  method ReadBuffer(buffer: seq<string>, option: PageOption)
    returns (raw: string, local: PageOption, deco: map<string, Value>)
    ensures raw == RawOf(buffer) && local == OptionOf(option, buffer) && deco == DecoOf(buffer)
  {
    deco := map[];
    raw := "";
    local := option;
    var i := 0;
    while i < |buffer|
      invariant 0 <= i <= |buffer|
      invariant raw == RawOf(buffer[..i])
      invariant local == OptionOf(option, buffer[..i])
      invariant deco == DecoOf(buffer[..i])
    {
      var line := buffer[i];
      assert buffer[..i + 1][..i] == buffer[..i];
      if ContainsDeco(line) {
        var r := ParseDeco(line, Some(local));
        local := r.value.option;
        deco := deco + r.value.remained;
      } else {
        raw := raw + "\n" + line;
      }
      i := i + 1;
    }
    assert buffer[..|buffer|] == buffer;
  }

  /**
   * `create_page`: emits the buffer as a new page object built with `option`, unless every
   * buffered line is blank.
   */
  method CreatePage(pages: seq<Page>, buffer: seq<string>, h1: Option<string>, h2: Option<string>,
                    h3: Option<string>, prev: nat, option: PageOption, ghost m: Machine)
    returns (pages': seq<Page>, buffer': seq<string>, h1': Option<string>, h2': Option<string>,
             h3': Option<string>)
    requires Holds(pages, buffer, h1, h2, h3, prev, m, option) && Distinct(pages)
    ensures Holds(pages', buffer', h1', h2', h3', prev, Flush(m), option) && Distinct(pages')
    ensures Extends(pages, pages') && forall k :: |pages| <= k < |pages'| ==> fresh(pages'[k])
  {
    if AllBlank(buffer) {
      return pages, buffer, h1, h2, h3;
    }
    var raw, local, deco := ReadBuffer(buffer, option);
    var page := new Page(raw, local, h1, h2, h3, deco);
    pages' := pages + [page];
    assert pages'[..|pages|] == pages;
    buffer', h1', h2', h3' := [], None, None, None;
    BuildsSnoc(m.drafts, Draft(m.buffer, m.h1, m.h2, m.h3), option);
  }

  lemma BuildsSnoc(ds: seq<Draft>, d: Draft, option: PageOption)
    ensures Builds(ds + [d], option) == Builds(ds, option) + [BuildRecord(d, option)]
  {
    assert (ds + [d])[..|ds|] == ds;
  }

  /** One iteration of the line loop of `paginate`, on the loop variables. */
  method ReadLine(pages: seq<Page>, buffer: seq<string>, h1: Option<string>, h2: Option<string>,
                  h3: Option<string>, prev: nat, line: string, option: PageOption, ghost m: Machine,
                  ghost k: Kind)
    returns (pages': seq<Page>, buffer': seq<string>, h1': Option<string>, h2': Option<string>,
             h3': Option<string>, prev': nat)
    requires Holds(pages, buffer, h1, h2, h3, prev, m, option) && Distinct(pages) && k == KindOf(line)
    ensures Holds(pages', buffer', h1', h2', h3', prev', StepAs(m, line, k), option) && Distinct(pages')
    ensures Extends(pages, pages') && forall j :: |pages| <= j < |pages'| ==> fresh(pages'[j])
  {
    var level := HeaderLevel(line);
    pages', buffer', h1', h2', h3' := HeaderBreak(pages, buffer, h1, h2, h3, prev, level, option, m);
    ghost var m1 := if BreakBefore(m.prev, k.level) then Flush(m) else m;
    ghost var m2 := if k.divider then Flush(m1) else Buffered(m1, line, k);
    pages', buffer', h1', h2', h3', prev' := PlaceLine(pages', buffer', h1', h2', h3', prev, line, level, option, k, m1);
    StepUnfold(m, line, k, m1, m2);
  }

  /** The rest of an iteration: a divider closes the page, any other line is buffered. */
  method PlaceLine(pages: seq<Page>, buffer: seq<string>, h1: Option<string>, h2: Option<string>,
                   h3: Option<string>, prev: nat, line: string, level: nat, option: PageOption,
                   ghost k: Kind, ghost m: Machine)
    returns (pages': seq<Page>, buffer': seq<string>, h1': Option<string>, h2': Option<string>,
             h3': Option<string>, prev': nat)
    requires Holds(pages, buffer, h1, h2, h3, prev, m, option) && Distinct(pages)
    requires k == KindOf(line) && level == k.level
    ensures Holds(pages', buffer', h1', h2', h3', prev', if k.divider then Flush(m) else Buffered(m, line, k), option)
    ensures Distinct(pages')
    ensures Extends(pages, pages') && forall j :: |pages| <= j < |pages'| ==> fresh(pages'[j])
  {
    if IsDivider(line) {
      pages', buffer', h1', h2', h3' := CreatePage(pages, buffer, h1, h2, h3, prev, option, m);
      prev' := prev;
    } else {
      pages' := pages;
      buffer', h1', h2', h3', prev' := BufferLine(buffer, h1, h2, h3, prev, line, level, k, m);
    }
  }

  /** The start of an iteration: a header line that is not a deeper subheading closes the current page. */
  method HeaderBreak(pages: seq<Page>, buffer: seq<string>, h1: Option<string>, h2: Option<string>,
                     h3: Option<string>, prev: nat, level: nat, option: PageOption, ghost m: Machine)
    returns (pages': seq<Page>, buffer': seq<string>, h1': Option<string>, h2': Option<string>,
             h3': Option<string>)
    requires Holds(pages, buffer, h1, h2, h3, prev, m, option) && Distinct(pages)
    ensures Holds(pages', buffer', h1', h2', h3', prev, if BreakBefore(m.prev, level) then Flush(m) else m, option)
    ensures Distinct(pages')
    ensures Extends(pages, pages') && forall j :: |pages| <= j < |pages'| ==> fresh(pages'[j])
  {
    pages', buffer', h1', h2', h3' := pages, buffer, h1, h2, h3;
    var downstep := prev == 0 || prev > level;
    var deeper := prev > level >= 3;
    if level > 0 && downstep && !deeper {
      pages', buffer', h1', h2', h3' := CreatePage(pages, buffer, h1, h2, h3, prev, option, m);
    }
  }

  lemma StepUnfold(m: Machine, line: string, k: Kind, m1: Machine, m2: Machine)
    requires m1 == if BreakBefore(m.prev, k.level) then Flush(m) else m
    requires m2 == if k.divider then Flush(m1) else Buffered(m1, line, k)
    ensures StepAs(m, line, k) == m2
  {
  }

  /** The rest of the iteration for a line that is not a divider: heading, buffer and `prev_header_level`. */
  method BufferLine(buffer: seq<string>, h1: Option<string>, h2: Option<string>, h3: Option<string>,
                    prev: nat, line: string, level: nat, ghost k: Kind, ghost m: Machine)
    returns (buffer': seq<string>, h1': Option<string>, h2': Option<string>, h3': Option<string>, prev': nat)
    requires k == KindOf(line) && level == k.level
    requires m.buffer == buffer && m.h1 == h1 && m.h2 == h2 && m.h3 == h3 && m.prev == prev
    ensures Buffered(m, line, k) == Machine(m.drafts, buffer', h1', h2', h3', prev')
  {
    buffer', h1', h2', h3', prev' := buffer, h1, h2, h3, prev;
    match level {
      case 1 => h1' := Some(Strip(LStripChar(line, '#')));
      case 2 => h2' := Some(Strip(LStripChar(line, '#')));
      case 3 => h3' := Some(Strip(LStripChar(line, '#')));
      case _ =>
    }
    buffer' := buffer' + [line];
    if level > 0 {
      prev' := level;
    }
    if level == 0 && !IsEmpty(line) && !ContainsDeco(line) {
      prev' := 0;
    }
  }

  /** The heading pass on one page object: fills in the inherited headings and returns the new environment. */
  method InheritInto(page: Page, env: Env) returns (env': Env)
    modifies page
    ensures RecordOf(page) == InheritOne(env, old(RecordOf(page)))
    ensures env' == EnvAfter(env, old(RecordOf(page)))
  {
    var inherit1 := Truthy(page.option.defaultH1);
    var inherit2 := Truthy(page.option.defaultH2);
    var inherit3 := Truthy(page.option.defaultH3);
    env' := env;
    if page.h1.Some? {
      env' := Env(page.h1, None, None);
      inherit1, inherit2, inherit3 := false, false, false;
    }
    if page.h2.Some? {
      env' := Env(env'.h1, page.h2, None);
      inherit2, inherit3 := false, false;
    }
    if page.h3.Some? {
      env' := Env(env'.h1, env'.h2, page.h3);
      inherit3 := false;
    }
    if inherit1 {
      page.h1 := env'.h1;
    }
    if inherit2 {
      page.h2 := env'.h2;
    }
    if inherit3 {
      page.h3 := env'.h3;
    }
  }

  /** The line loop of `paginate` and the final `create_page`: the pages of the body, before inheritance. */
  method CutPages(lines: seq<string>, option: PageOption) returns (pages: seq<Page>)
    ensures Records(pages) == Builds(Drafts(lines), option)
    ensures Distinct(pages) && forall k :: 0 <= k < |pages| ==> fresh(pages[k])
  {
    pages := [];
    var buffer: seq<string> := [];
    var h1: Option<string>, h2: Option<string>, h3: Option<string> := None, None, None;
    var prev: nat := 0;
    ghost var m := Start;
    var i := 0;
    while i < |lines|
      invariant 0 <= i <= |lines| && m == Run(lines[..i])
      invariant Holds(pages, buffer, h1, h2, h3, prev, m, option) && Distinct(pages)
      invariant forall k :: 0 <= k < |pages| ==> fresh(pages[k])
    {
      pages, buffer, h1, h2, h3, prev := ReadLine(pages, buffer, h1, h2, h3, prev, lines[i], option, m, KindOf(lines[i]));
      RunPrefix(lines, i);
      m := Step(m, lines[i]);
      i := i + 1;
    }
    pages, buffer, h1, h2, h3 := CreatePage(pages, buffer, h1, h2, h3, prev, option, m);
    DraftsOfRun(lines, m);
  }

  lemma RunPrefix(lines: seq<string>, i: nat)
    requires i < |lines|
    ensures Run(lines[..i + 1]) == Step(Run(lines[..i]), lines[i])
  {
    assert lines[..i + 1][..i] == lines[..i];
  }

  lemma DraftsOfRun(lines: seq<string>, m: Machine)
    requires m == Run(lines[..|lines|])
    ensures Flush(m).drafts == Drafts(lines)
  {
    assert lines[..|lines|] == lines;
  }

  /** One iteration of the heading pass: inheritance, then `chunk`. */
  method ProcessPage(page: Page, env: Env) returns (env': Env)
    modifies page
    ensures RecordOf(page) == Finalize(InheritOne(env, old(RecordOf(page))))
    ensures env' == EnvAfter(env, old(RecordOf(page)))
  {
    env' := InheritInto(page, env);
    page.MakeChunks();
  }

  /** The heading pass of `paginate`, with `chunk` on every page, in place. */
  method InheritPages(pages: seq<Page>, ghost built: seq<PageRecord>)
    requires Distinct(pages) && |built| == |pages|
    requires forall k :: 0 <= k < |pages| ==> RecordOf(pages[k]) == built[k]
    modifies pages
    ensures Records(pages) == Finalized(InheritScan(built).1)
  {
    ghost var want := Finalized(InheritScan(built).1);
    var env := Env(None, None, None);
    var j := 0;
    assert built[..0] == [];
    while j < |pages|
      invariant 0 <= j <= |pages|
      invariant env == InheritScan(built[..j]).0
      invariant forall k :: 0 <= k < j ==> RecordOf(pages[k]) == want[k]
      invariant forall k :: j <= k < |pages| ==> RecordOf(pages[k]) == built[k]
    {
      label before:
      env := FinishPage(pages[j], env, built, j);
      forall k | 0 <= k < |pages| && k != j
        ensures RecordOf(pages[k]) == old@before(RecordOf(pages[k]))
      {
        assert pages[k] != pages[j];
      }
      j := j + 1;
    }
    RecordsAre(pages, want);
  }

  /** The loop body of the heading pass on page `j`, given the environment the pages before it leave. */
  method FinishPage(page: Page, env: Env, ghost built: seq<PageRecord>, ghost j: nat) returns (env': Env)
    requires j < |built| && RecordOf(page) == built[j] && env == InheritScan(built[..j]).0
    modifies page
    ensures RecordOf(page) == Finalized(InheritScan(built).1)[j]
    ensures env' == InheritScan(built[..j + 1]).0
  {
    assert built[..j + 1][..j] == built[..j];
    WantAt(built, j, env);
    env' := ProcessPage(page, env);
  }

  lemma RecordsAre(pages: seq<Page>, want: seq<PageRecord>)
    requires |want| == |pages| && forall k :: 0 <= k < |pages| ==> RecordOf(pages[k]) == want[k]
    ensures Records(pages) == want
  {
  }

  /** The value of a finished page, given the environment the pages before it leave. */
  lemma WantAt(built: seq<PageRecord>, j: nat, env: Env)
    requires j < |built| && env == InheritScan(built[..j]).0
    ensures Finalized(InheritScan(built).1)[j] == Finalize(InheritOne(env, built[j]))
  {
    InheritAt(built, j);
    FinalizedAt(InheritScan(built).1, j);
  }

  /** Page `j` of the heading pass is inherited from the environment the pages before it leave. */
  lemma {:induction false} InheritAt(ps: seq<PageRecord>, j: nat)
    requires j < |ps|
    ensures InheritScan(ps).1[j] == InheritOne(InheritScan(ps[..j]).0, ps[j])
    decreases |ps|
  {
    var init := ps[..|ps| - 1];
    if j < |ps| - 1 {
      InheritAt(init, j);
      assert init[..j] == ps[..j];
    }
  }

  /**
   * `paginate`: the front matter is split off, the body is cut into pages by the line loop
   * and a final `create_page`, then each page inherits headings and is chunked, in place.
   */
  method Paginate(document: string, option: Option<PageOption>, safeLoad: string -> Yaml)
    returns (pages: seq<Page>)
    ensures Records(pages) == Paginated(document, option, safeLoad)
    ensures Distinct(pages) && forall k :: 0 <= k < |pages| ==> fresh(pages[k])
  {
    var front := ParseFrontmatter(document, safeLoad);
    var opt := if option.None? then front.1 else option.value;
    var lines := Split(front.0, '\n');
    pages := CutPages(lines, opt);
    ghost var built := Records(pages);
    InheritPages(pages, built);
    PaginatedIs(document, option, safeLoad, lines, opt);
  }

  lemma PaginatedIs(document: string, option: Option<PageOption>, safeLoad: string -> Yaml,
                    lines: seq<string>, opt: PageOption)
    requires lines == BodyLines(document, safeLoad) && opt == ChosenOption(document, option, safeLoad)
    ensures Paginated(document, option, safeLoad) == Finalized(InheritScan(Builds(Drafts(lines), opt)).1)
  {
  }
}
