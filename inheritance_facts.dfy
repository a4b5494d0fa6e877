/**
 * What the heading pass of `paginate` guarantees (the loop over the pages after the line
 * loop), how a page's option and `deco` come out of its decorator lines, and what the whole
 * procedure returns page by page.
 */
module InheritanceFacts {
  import opened Wrappers
  import opened Text
  import opened MdHelper
  import opened Options
  import opened Deco
  import opened Frontmatter
  import opened Pages
  import opened Pagination
  import opened PaginationFacts

  // ------------------------------------------------------------------ one page

  /** The environment a page leaves: its own h1 replaces all three, its own h2 replaces h2 and h3, its own h3 replaces h3. */
  lemma EnvResets(env: Env, p: PageRecord)
    ensures p.h1.Some? ==> EnvAfter(env, p) == Env(p.h1, p.h2, p.h3)
    ensures p.h1.None? && p.h2.Some? ==> EnvAfter(env, p) == Env(env.h1, p.h2, p.h3)
    ensures p.h1.None? && p.h2.None? && p.h3.Some? ==> EnvAfter(env, p) == Env(env.h1, env.h2, p.h3)
    ensures p.h1.None? && p.h2.None? && p.h3.None? ==> EnvAfter(env, p) == env
  {
  }

  /**
   * Inheritance changes only headings, never one the page has: a page with its own h1 keeps
   * all three, one with its own h2 keeps h2 and h3, one with its own h3 keeps h3; otherwise
   * hK becomes the environment's hK exactly when the page's `default_hK` is truthy.
   */
  lemma InheritOneSpec(env: Env, p: PageRecord)
    ensures var q := InheritOne(env, p);
      q.rawMd == p.rawMd && q.option == p.option && q.chunks == p.chunks && q.deco == p.deco
    ensures p.h1.Some? ==> InheritOne(env, p) == p
    ensures p.h2.Some? ==> InheritOne(env, p).h2 == p.h2 && InheritOne(env, p).h3 == p.h3
    ensures p.h3.Some? ==> InheritOne(env, p).h3 == p.h3
    ensures InheritOne(env, p).h1 ==
      if p.h1.None? && Truthy(p.option.defaultH1) then env.h1 else p.h1
    ensures InheritOne(env, p).h2 ==
      if p.h1.None? && p.h2.None? && Truthy(p.option.defaultH2) then env.h2 else p.h2
    ensures InheritOne(env, p).h3 ==
      if p.h1.None? && p.h2.None? && p.h3.None? && Truthy(p.option.defaultH3) then env.h3 else p.h3
  {
  }

  /** With the default options h1 is never inherited, while h2 and h3 are. */
  lemma DefaultInheritsNoH1(env: Env, p: PageRecord)
    requires p.option == DefaultOption && p.h1.None? && p.h2.None? && p.h3.None?
    ensures InheritOne(env, p).h1 == None
    ensures InheritOne(env, p).h2 == env.h2 && InheritOne(env, p).h3 == env.h3
  {
    InheritOneSpec(env, p);
  }

  // ------------------------------------------------------------------ the most recent headings

  /** The index of the last page with its own hK, or -1. */
  function LastWith(ps: seq<PageRecord>, level: nat): (i: int)
    ensures -1 <= i < |ps|
    decreases |ps|
  {
    if ps == [] then -1
    else if Own(ps[|ps| - 1], level) then |ps| - 1
    else LastWith(ps[..|ps| - 1], level)
  }

  /** The page has its own heading of the given level. */
  predicate Own(p: PageRecord, level: nat) {
    if level == 1 then p.h1.Some? else if level == 2 then p.h2.Some? else if level == 3 then p.h3.Some? else false
  }

  /**
   * The environment defined without the loop: env_h1 is the h1 of the last page with one;
   * env_h2 the h2 of the last page with one unless a later page has an h1; env_h3 the h3 of
   * the last page with one unless a later page has an h1 or an h2.
   */
  function Latest(ps: seq<PageRecord>): Env {
    var j1 := LastWith(ps, 1);
    var j2 := LastWith(ps, 2);
    var j3 := LastWith(ps, 3);
    Env(if j1 >= 0 then ps[j1].h1 else None,
        if j2 >= 0 && j2 >= j1 then ps[j2].h2 else None,
        if j3 >= 0 && j3 >= j1 && j3 >= j2 then ps[j3].h3 else None)
  }

  lemma LatestSnoc(ps: seq<PageRecord>, p: PageRecord)
    ensures Latest(ps + [p]) == EnvAfter(Latest(ps), p)
  {
    var qs := ps + [p];
    assert qs[..|ps|] == ps;
    assert qs[|ps|] == p;
    assert forall k :: 0 <= k < |ps| ==> qs[k] == ps[k];
  }

  /** The loop's `env_h1..3` after a list of pages is the most recent headings as `Latest` defines them. */
  lemma {:induction false} InheritEnv(ps: seq<PageRecord>)
    ensures InheritScan(ps).0 == Latest(ps)
    decreases |ps|
  {
    if ps != [] {
      var init := ps[..|ps| - 1];
      InheritEnv(init);
      assert init + [ps[|ps| - 1]] == ps;
      LatestSnoc(init, ps[|ps| - 1]);
    }
  }

  /**
   * Inheritance keeps the number of pages; page `k` keeps what it has and otherwise takes the
   * most recent heading of the pages before it, when its option asks for that level.
   */
  lemma InheritedHeadings(ps: seq<PageRecord>, k: nat)
    requires k < |ps|
    ensures |InheritScan(ps).1| == |ps|
    ensures InheritScan(ps).1[k] == InheritOne(Latest(ps[..k]), ps[k])
    ensures var p, q, env := ps[k], InheritScan(ps).1[k], Latest(ps[..k]);
      q.h1 == (if p.h1.None? && Truthy(p.option.defaultH1) then env.h1 else p.h1) &&
      q.h2 == (if p.h1.None? && p.h2.None? && Truthy(p.option.defaultH2) then env.h2 else p.h2) &&
      q.h3 == (if p.h1.None? && p.h2.None? && p.h3.None? && Truthy(p.option.defaultH3) then env.h3 else p.h3)
  {
    InheritAt(ps, k);
    InheritEnv(ps[..k]);
    InheritOneSpec(Latest(ps[..k]), ps[k]);
  }

  /** `# A`, then a page without headings, with the default options: the second page gets no h1. */
  lemma DefaultExample(p: PageRecord, q: PageRecord)
    requires p.h1 == Some("A") && p.h2.None? && p.h3.None?
    requires q.option == DefaultOption && q.h1.None? && q.h2.None? && q.h3.None?
    ensures InheritScan([p, q]).1[1].h1 == None
    ensures InheritScan([p, q]).1[1].h2 == None && InheritScan([p, q]).1[1].h3 == None
  {
    InheritedHeadings([p, q], 1);
    assert [p, q][..1] == [p];
    assert [p][..0] == [];
    assert Latest([p]) == Env(Some("A"), None, None);
  }

  // ------------------------------------------------------------------ decorators of a page

  /** The pairs of all decorator lines among `lines`, later lines winning. */
  function MergedPairs(lines: seq<string>): map<string, string>
    decreases |lines|
  {
    if lines == [] then map[]
    else
      var last := lines[|lines| - 1];
      var d := MergedPairs(lines[..|lines| - 1]);
      if ContainsDeco(last) then d + DecoPairs(last) else d
  }

  /** Folding `parse_deco` over the lines sets the known keys of all their pairs at once, later lines winning. */
  lemma {:induction false} OptionOfMerged(base: PageOption, lines: seq<string>)
    ensures OptionOf(base, lines) == ApplyKnown(base, MergedPairs(lines))
    decreases |lines|
  {
    if lines != [] {
      var last := lines[|lines| - 1];
      OptionOfMerged(base, lines[..|lines| - 1]);
      if ContainsDeco(last) {
        ApplyKnownTwice(base, MergedPairs(lines[..|lines| - 1]), DecoPairs(last));
      }
    }
  }

  lemma RemainingUnion(d1: map<string, string>, d2: map<string, string>)
    ensures Remaining(d1) + Remaining(d2) == Remaining(d1 + d2)
  {
    var l, r := Remaining(d1) + Remaining(d2), Remaining(d1 + d2);
    assert l.Keys == r.Keys;
    forall key | key in l ensures l[key] == r[key] {
      if key in d2 {
        assert l[key] == ParseValue(d2[key]);
      }
    }
  }

  /** A page's `deco` is the unknown keys of all its decorator pairs, each through `parse_value`, later lines winning. */
  lemma {:induction false} DecoOfMerged(lines: seq<string>)
    ensures DecoOf(lines) == Remaining(MergedPairs(lines))
    ensures DecoOf(lines).Keys !! KnownFields
    decreases |lines|
  {
    if lines != [] {
      var last := lines[|lines| - 1];
      DecoOfMerged(lines[..|lines| - 1]);
      if ContainsDeco(last) {
        RemainingUnion(MergedPairs(lines[..|lines| - 1]), DecoPairs(last));
      }
    }
  }

  // ------------------------------------------------------------------ the whole procedure

  lemma {:induction false} BuildsAt(ds: seq<Draft>, option: PageOption, k: nat)
    requires k < |ds|
    ensures Builds(ds, option)[k] == BuildRecord(ds[k], option)
    decreases |ds|
  {
    if k < |ds| - 1 {
      BuildsAt(ds[..|ds| - 1], option, k);
    }
  }

  /**
   * The pages `paginate` returns, one per draft of the line loop: page `k` has the draft's
   * body preprocessed and chunked, the chosen option updated by the draft's decorator pairs,
   * the unknown decorator keys as `deco`, and every heading the draft's own headers set; a
   * level it does not set, with none above it set either, takes the most recent heading of
   * the pages before it when the page's option asks for that level.
   */
  lemma PaginatedPage(document: string, option: Option<PageOption>, safeLoad: string -> Yaml, k: nat)
    requires k < |Drafts(BodyLines(document, safeLoad))|
    ensures |Paginated(document, option, safeLoad)| == |Drafts(BodyLines(document, safeLoad))|
    ensures var d := Drafts(BodyLines(document, safeLoad))[k];
      var p := Paginated(document, option, safeLoad)[k];
      var raw := Preprocessed(RawOf(d.lines));
      p.rawMd == raw && p.chunks == ChunksOf(raw) &&
      p.option == ApplyKnown(ChosenOption(document, option, safeLoad), MergedPairs(d.lines)) &&
      p.deco == Remaining(MergedPairs(d.lines))
    ensures var ds := Drafts(BodyLines(document, safeLoad));
      var p := Paginated(document, option, safeLoad)[k];
      var own1, own2, own3 := LastHeading(1, ds[k].lines), LastHeading(2, ds[k].lines), LastHeading(3, ds[k].lines);
      var env := Latest(Builds(ds, ChosenOption(document, option, safeLoad))[..k]);
      p.h1 == (if own1.None? && Truthy(p.option.defaultH1) then env.h1 else own1) &&
      p.h2 == (if own1.None? && own2.None? && Truthy(p.option.defaultH2) then env.h2 else own2) &&
      p.h3 == (if own1.None? && own2.None? && own3.None? && Truthy(p.option.defaultH3) then env.h3 else own3)
  {
    var ds := Drafts(BodyLines(document, safeLoad));
    var o := ChosenOption(document, option, safeLoad);
    var built := Builds(ds, o);
    BuildsAt(ds, o, k);
    InheritAt(built, k);
    InheritOneSpec(InheritScan(built[..k]).0, built[k]);
    InheritEnv(built[..k]);
    FinalizedAt(InheritScan(built).1, k);
    OptionOfMerged(o, ds[k].lines);
    DecoOfMerged(ds[k].lines);
    DraftHeadings(BodyLines(document, safeLoad), k);
  }
}
