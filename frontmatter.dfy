/**
 * YAML front matter (moffie/splitter.py, `parse_frontmatter`): a stripped document that
 * starts with `---` and has a second `---` carries a YAML block between the two; its keys
 * override the defaults of `PageOption`. The YAML loader is a parameter of the model.
 */
module Frontmatter {
  import opened Wrappers
  import opened Text
  import opened Options

  /** What `yaml.safe_load` gives back: a mapping of keys to scalars, or a decode error. */
  datatype Yaml = Mapping(fields: map<string, Value>) | LoadError

  /** The first occurrence of `pat` in `s` at or after `p`, as `str.find` looks for it. */
  function FindFrom(s: string, pat: string, p: nat): (r: Option<nat>)
    requires |pat| > 0
    ensures r.Some? ==> p <= r.value && OccursAt(s, pat, r.value)
    ensures r.Some? ==> forall i :: p <= i < r.value ==> !OccursAt(s, pat, i)
    ensures r.None? ==> forall i :: p <= i ==> !OccursAt(s, pat, i)
    decreases |s| - p
  {
    if p + |pat| > |s| then None
    else if s[p..p + |pat|] == pat then Some(p)
    else FindFrom(s, pat, p + 1)
  }

  /**
   * `document.split('---', 2)` on the stripped document: when it starts with `---` and a
   * second, non-overlapping `---` follows, the stripped text between them and the stripped
   * rest; otherwise no front matter and the whole stripped document.
   */
  function SplitFront(document: string): (r: (string, string))
    ensures r.0 != "" ==> StartsWith(Strip(document), "---")
    ensures !StartsWith(Strip(document), "---") ==> r == ("", Strip(document))
    ensures FindFrom(Strip(document), "---", 3).None? ==> r == ("", Strip(document))
    ensures StartsWith(Strip(document), "---") && FindFrom(Strip(document), "---", 3).Some? ==>
      var doc, j := Strip(document), FindFrom(Strip(document), "---", 3).value;
      j + 3 <= |doc| && r == (Strip(doc[3..j]), Strip(doc[j + 3..]))
  {
    var doc := Strip(document);
    if !StartsWith(doc, "---") then ("", doc)
    else
      match FindFrom(doc, "---", 3)
      case None => ("", doc)
      case Some(j) => (Strip(doc[3..j]), Strip(doc[j + 3..]))
  }

  /** `yaml_data.get(key, default)`. */
  function Get(fields: map<string, Value>, key: string, default: Value): Value {
    if key in fields then fields[key] else default
  }

  /** The option a YAML mapping describes: each known key present overrides its default. */
  function OptionFrom(fields: map<string, Value>): (o: PageOption)
    ensures o.defaultH1 == Get(fields, "default_h1", DefaultOption.defaultH1)
    ensures o.defaultH2 == Get(fields, "default_h2", DefaultOption.defaultH2)
    ensures o.defaultH3 == Get(fields, "default_h3", DefaultOption.defaultH3)
    ensures o.layout == Get(fields, "layout", DefaultOption.layout)
  {
    PageOption(
      Get(fields, "default_h1", Bool(false)),
      Get(fields, "default_h2", Bool(true)),
      Get(fields, "default_h3", Bool(true)),
      Get(fields, "layout", Str("top-down")))
  }

  /**
   * `parse_frontmatter`: the content without its front matter and the option the front
   * matter sets. An empty front matter is not loaded, and a decode error counts as an
   * empty mapping; either way every field keeps its default.
   */
  function ParseFrontmatter(document: string, safeLoad: string -> Yaml): (r: (string, PageOption))
    ensures r.0 == SplitFront(document).1
    ensures SplitFront(document).0 == "" || safeLoad(SplitFront(document).0).LoadError? ==>
      r.1 == DefaultOption
    ensures SplitFront(document).0 != "" && safeLoad(SplitFront(document).0).Mapping? ==>
      r.1 == OptionFrom(safeLoad(SplitFront(document).0).fields)
  {
    var (front, content) := SplitFront(document);
    var data := if front != "" then safeLoad(front) else Mapping(map[]);
    match data
    case LoadError => (content, OptionFrom(map[]))
    case Mapping(fields) => (content, OptionFrom(fields))
  }

  /** A document that does not start with `---` keeps all its text and gets the default option. */
  lemma NoFrontMatter(document: string, safeLoad: string -> Yaml)
    requires !StartsWith(Strip(document), "---")
    ensures ParseFrontmatter(document, safeLoad) == (Strip(document), DefaultOption)
  {
  }

  /** The search finds the first occurrence. */
  lemma {:induction false} FindFromFirst(s: string, pat: string, p: nat, j: nat)
    requires |pat| > 0 && p <= j && OccursAt(s, pat, j)
    requires forall i :: p <= i < j ==> !OccursAt(s, pat, i)
    ensures FindFrom(s, pat, p) == Some(j)
    decreases j - p
  {
    if p < j {
      assert !OccursAt(s, pat, p);
      FindFromFirst(s, pat, p + 1, j);
    }
  }

  /** One position inside the block: no `---` starts there. */
  lemma NoDelimiterAt(doc: string, front: string, i: nat)
    requires forall k :: !OccursAt(front, "---", k)
    requires front == [] || front[|front| - 1] != '-'
    requires 3 + |front| <= |doc|
    requires forall k :: 0 <= k < |front| ==> doc[3 + k] == front[k]
    requires 3 <= i < 3 + |front|
    ensures !OccursAt(doc, "---", i)
  {
    var j := 3 + |front|;
    if i + 3 <= j {
      assert !OccursAt(front, "---", i - 3);
      var w := doc[i..i + 3];
      var v := front[i - 3..i];
      assert w[0] == v[0] && w[1] == v[1] && w[2] == v[2];
      assert w == v;
    } else if i + 3 <= |doc| {
      assert doc[i..i + 3][j - 1 - i] == doc[j - 1] == front[|front| - 1];
    }
  }

  /** No `---` starts inside a block that holds none and does not end in `-`. */
  lemma NoDelimiterInside(doc: string, front: string)
    requires !Contains(front, "---")
    requires front == [] || front[|front| - 1] != '-'
    requires |doc| >= 3 + |front| && doc[3..3 + |front|] == front
    ensures forall i :: 3 <= i < 3 + |front| ==> !OccursAt(doc, "---", i)
  {
    ContainsAt(front, "---");
    assert forall k :: 0 <= k < |front| ==> doc[3 + k] == front[k];
    forall i | 3 <= i < 3 + |front|
      ensures !OccursAt(doc, "---", i)
    {
      NoDelimiterAt(doc, front, i);
    }
  }

  /** Splitting a stripped document made of a `---` line, a block, `---` and a body. */
  lemma SplitFrontParts(doc: string, front: string, body: string)
    requires |doc| == 6 + |front| + |body|
    requires doc[..3] == "---" && doc[3..3 + |front|] == front
    requires doc[3 + |front|..6 + |front|] == "---" && doc[6 + |front|..] == body
    requires Strip(doc) == doc
    requires !Contains(front, "---")
    requires front == [] || front[|front| - 1] != '-'
    ensures SplitFront(doc) == (Strip(front), Strip(body))
  {
    var j := 3 + |front|;
    NoDelimiterInside(doc, front);
    assert OccursAt(doc, "---", j);
    FindFromFirst(doc, "---", 3, j);
    assert StartsWith(doc, "---");
  }

  lemma WrittenDocument(front: string, body: string, doc: string)
    requires body == [] || !IsSpace(body[|body| - 1])
    requires doc == "---" + front + "---" + body
    ensures |doc| == 6 + |front| + |body|
    ensures doc[..3] == "---" && doc[3..3 + |front|] == front
    ensures doc[3 + |front|..6 + |front|] == "---" && doc[6 + |front|..] == body
    ensures Strip(doc) == doc
  {
    assert doc[0] == '-';
    assert !IsSpace(doc[|doc| - 1]) by {
      if body == [] {
        assert doc[|doc| - 1] == '-';
      } else {
        assert doc[|doc| - 1] == body[|body| - 1];
      }
    }
    StripUnpadded(doc);
  }

  /**
   * Writing a front matter block and a body and splitting the result gives both back,
   * stripped, when the block holds no `---` and does not end in `-`.
   */
  lemma SplitFrontRoundTrip(front: string, body: string)
    requires !Contains(front, "---")
    requires front == [] || front[|front| - 1] != '-'
    requires body == [] || !IsSpace(body[|body| - 1])
    ensures SplitFront("---" + front + "---" + body) == (Strip(front), Strip(body))
  {
    var doc := "---" + front + "---" + body;
    WrittenDocument(front, body, doc);
    SplitFrontParts(doc, front, body);
  }

  /** A written front matter that loads as a mapping sets the option; the body is the content. */
  lemma ParseFrontmatterRoundTrip(front: string, body: string, safeLoad: string -> Yaml)
    requires !Contains(front, "---")
    requires front == [] || front[|front| - 1] != '-'
    requires body == [] || !IsSpace(body[|body| - 1])
    requires Strip(front) != "" && safeLoad(Strip(front)).Mapping?
    ensures ParseFrontmatter("---" + front + "---" + body, safeLoad) ==
      (Strip(body), OptionFrom(safeLoad(Strip(front)).fields))
  {
    SplitFrontRoundTrip(front, body);
  }

  /** An opening `---` without a closing one is not front matter: the document is kept whole. */
  lemma UnclosedFrontMatter(document: string, safeLoad: string -> Yaml)
    requires StartsWith(Strip(document), "---")
    requires forall i :: 3 <= i ==> !OccursAt(Strip(document), "---", i)
    ensures ParseFrontmatter(document, safeLoad) == (Strip(document), DefaultOption)
  {
    assert FindFrom(Strip(document), "---", 3).None?;
  }
}
