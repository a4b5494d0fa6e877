/**
 * Decorator lines `@(key=value, ...)` (moffie/splitter.py, `parse_deco`): the pair scanner
 * that `re.findall` runs over the decorator body, the later-wins dictionary built from it, and
 * the merge of known keys into a copy of a `PageOption`.
 */
module Deco {
  import opened Wrappers
  import opened Text
  import opened Options
  import opened MdHelper

  /** Group 1 of `^\s*@\((.*?)\)\s*$`: what lies between `@(` and the closing `)`. */
  function DecoBody(line: string): (body: string)
    requires ContainsDeco(line)
    ensures '\n' !in body
    ensures Strip(line) == "@(" + body + ")"
  {
    var t := Strip(line);
    assert t == t[..2] + t[2..|t| - 1] + [t[|t| - 1]];
    t[2..|t| - 1]
  }

  /** `\w` over ASCII: letters, digits and the underscore. */
  predicate IsWordChar(c: char) {
    ('a' <= c <= 'z') || ('A' <= c <= 'Z') || ('0' <= c <= '9') || c == '_'
  }

  predicate IsWord(s: string) {
    |s| > 0 && forall k :: 0 <= k < |s| ==> IsWordChar(s[k])
  }

  /** Length of the run of word characters starting at `p`. */
  function WordRun(s: string, p: nat): (n: nat)
    requires p <= |s|
    ensures p + n <= |s|
    decreases |s| - p
  {
    if p < |s| && IsWordChar(s[p]) then 1 + WordRun(s, p + 1) else 0
  }

  /** The run is all word characters and stops at the end or at a character that is not one. */
  lemma {:induction false} WordRunSpec(s: string, p: nat)
    requires p <= |s|
    ensures forall k :: p <= k < p + WordRun(s, p) ==> IsWordChar(s[k])
    ensures p + WordRun(s, p) < |s| ==> !IsWordChar(s[p + WordRun(s, p)])
    decreases |s| - p
  {
    if p < |s| && IsWordChar(s[p]) {
      WordRunSpec(s, p + 1);
    }
  }

  /** Length of the run of whitespace starting at `p`. */
  function SpaceRun(s: string, p: nat): (n: nat)
    requires p <= |s|
    ensures p + n <= |s|
    ensures p + n < |s| ==> !IsSpace(s[p + n])
    decreases |s| - p
  {
    if p < |s| && IsSpace(s[p]) then 1 + SpaceRun(s, p + 1) else 0
  }

  /** Index of the first comma at or after `p`, or the length of `s` when there is none. */
  function NextComma(s: string, p: nat): (e: nat)
    requires p <= |s|
    ensures p <= e <= |s|
    decreases |s| - p
  {
    if p == |s| || s[p] == ',' then p else NextComma(s, p + 1)
  }

  /** No comma lies before the index found, and a comma lies at it unless it is the end. */
  lemma {:induction false} NextCommaSpec(s: string, p: nat)
    requires p <= |s|
    ensures forall k :: p <= k < NextComma(s, p) ==> s[k] != ','
    ensures NextComma(s, p) < |s| ==> s[NextComma(s, p)] == ','
    decreases |s| - p
  {
    if p < |s| && s[p] != ',' {
      NextCommaSpec(s, p + 1);
    }
  }

  /** One match of `(\w+)\s*=\s*([^,]+)(?:,|$)`: the key, the text after `=` up to the comma (group 2 after `strip()`), where the match ends. */
  datatype PairMatch = PairMatch(key: string, value: string, end: nat)

  /**
   * The match of `(\w+)\s*=\s*([^,]+)(?:,|$)` starting at `p`, if any. The word must be the
   * whole run of word characters from `p`; after `=` at least one character other than a
   * comma must follow; the value runs to the next comma or the end, and the match consumes
   * that comma.
   */
  function MatchPairAt(s: string, p: nat): (m: Option<PairMatch>)
    requires p <= |s|
    ensures m.Some? ==> p < m.value.end <= |s| && IsWord(m.value.key)
    ensures m.Some? ==> |m.value.value| > 0 && ',' !in m.value.value
  {
    var w := WordRun(s, p);
    if w == 0 then None
    else
      var q := p + w + SpaceRun(s, p + w);
      if q >= |s| || s[q] != '=' then None
      else if q + 1 >= |s| || s[q + 1] == ',' then None
      else
        var e := NextComma(s, q + 1);
        WordRunSpec(s, p);
        NextCommaSpec(s, q + 1);
        WordSlice(s, p, w);
        CommaFreeSlice(s, q + 1, e);
        Some(PairMatch(s[p..p + w], s[q + 1..e], if e < |s| then e + 1 else e))
  }

  lemma WordSlice(s: string, p: nat, w: nat)
    requires 0 < w && p + w <= |s|
    requires forall k :: p <= k < p + w ==> IsWordChar(s[k])
    ensures IsWord(s[p..p + w])
  {
    var t := s[p..p + w];
    assert forall k :: 0 <= k < w ==> t[k] == s[p + k];
  }

  lemma CommaFreeSlice(s: string, a: nat, b: nat)
    requires a <= b <= |s|
    requires forall k :: a <= k < b ==> s[k] != ','
    ensures ',' !in s[a..b]
  {
    var t := s[a..b];
    assert forall k :: 0 <= k < b - a ==> t[k] == s[a + k];
  }

  /** A pair as the pattern yields it: a word for the key and a non-empty value without a comma. */
  predicate WellFormedPair(pair: (string, string)) {
    IsWord(pair.0) && |pair.1| > 0 && ',' !in pair.1
  }

  /** `re.findall` of the pair pattern from position `p`: try a match, else move on by one. */
  function FindPairs(s: string, p: nat): (pairs: seq<(string, string)>)
    requires p <= |s|
    decreases |s| - p
  {
    if p == |s| then []
    else
      var m := MatchPairAt(s, p);
      if m.None? then FindPairs(s, p + 1)
      else [(m.value.key, m.value.value)] + FindPairs(s, m.value.end)
  }

  lemma ConsWellFormed(pair: (string, string), rest: seq<(string, string)>)
    requires WellFormedPair(pair) && forall k :: 0 <= k < |rest| ==> WellFormedPair(rest[k])
    ensures forall k :: 0 <= k < |[pair] + rest| ==> WellFormedPair(([pair] + rest)[k])
  {
    assert forall k :: 1 <= k < |[pair] + rest| ==> ([pair] + rest)[k] == rest[k - 1];
  }

  /** Every pair found has a word for its key and a comma-free value. */
  lemma {:induction false} FindPairsWellFormed(s: string, p: nat)
    requires p <= |s|
    ensures forall k :: 0 <= k < |FindPairs(s, p)| ==> WellFormedPair(FindPairs(s, p)[k])
    decreases |s| - p
  {
    if p < |s| {
      var m := MatchPairAt(s, p);
      if m.None? {
        FindPairsWellFormed(s, p + 1);
      } else {
        FindPairsWellFormed(s, m.value.end);
        var rest := FindPairs(s, m.value.end);
        var pairs := FindPairs(s, p);
        assert pairs == [(m.value.key, m.value.value)] + rest;
        ConsWellFormed((m.value.key, m.value.value), rest);
      }
    }
  }

  /** The keys of a sequence of pairs. */
  function KeysOf(pairs: seq<(string, string)>): (keys: set<string>)
    ensures forall k :: 0 <= k < |pairs| ==> pairs[k].0 in keys
    decreases |pairs|
  {
    if pairs == [] then {} else KeysOf(pairs[..|pairs| - 1]) + {pairs[|pairs| - 1].0}
  }

  /** `{key.strip(): value.strip() for key, value in pairs}`: later pairs with the same key win. */
  function PairsMap(pairs: seq<(string, string)>): (m: map<string, string>)
    ensures m.Keys == KeysOf(pairs)
    decreases |pairs|
  {
    if pairs == [] then map[]
    else PairsMap(pairs[..|pairs| - 1])[pairs[|pairs| - 1].0 := Strip(pairs[|pairs| - 1].1)]
  }

  /** Each key maps to the value of its last occurrence. */
  lemma {:induction false} PairsMapLastWins(pairs: seq<(string, string)>, k: nat)
    requires k < |pairs|
    requires forall j :: k < j < |pairs| ==> pairs[j].0 != pairs[k].0
    ensures pairs[k].0 in PairsMap(pairs) && PairsMap(pairs)[pairs[k].0] == Strip(pairs[k].1)
    decreases |pairs|
  {
    if k < |pairs| - 1 {
      var init := pairs[..|pairs| - 1];
      assert forall j :: k < j < |init| ==> init[j] == pairs[j];
      PairsMapLastWins(init, k);
    }
  }

  /** Every key of the dictionary occurs in the pairs. */
  lemma {:induction false} KeysOfSound(pairs: seq<(string, string)>, key: string)
    requires key in KeysOf(pairs)
    ensures exists k :: 0 <= k < |pairs| && pairs[k].0 == key
    decreases |pairs|
  {
    if key != pairs[|pairs| - 1].0 {
      var init := pairs[..|pairs| - 1];
      KeysOfSound(init, key);
      var k :| 0 <= k < |init| && init[k].0 == key;
      assert pairs[k] == init[k];
    }
  }

  /** The key/value dictionary of a decorator line. */
  function DecoPairs(line: string): map<string, string>
    requires ContainsDeco(line)
  {
    var body := DecoBody(line);
    PairsMap(FindPairs(body, 0))
  }

  /** The option after `setattr` of every known key of `deco`, each value through `parse_value`. */
  function ApplyKnown(o: PageOption, deco: map<string, string>): (r: PageOption)
    ensures r.defaultH1 == if "default_h1" in deco then ParseValue(deco["default_h1"]) else o.defaultH1
    ensures r.defaultH2 == if "default_h2" in deco then ParseValue(deco["default_h2"]) else o.defaultH2
    ensures r.defaultH3 == if "default_h3" in deco then ParseValue(deco["default_h3"]) else o.defaultH3
    ensures r.layout == if "layout" in deco then ParseValue(deco["layout"]) else o.layout
  {
    PageOption(
      if "default_h1" in deco then ParseValue(deco["default_h1"]) else o.defaultH1,
      if "default_h2" in deco then ParseValue(deco["default_h2"]) else o.defaultH2,
      if "default_h3" in deco then ParseValue(deco["default_h3"]) else o.defaultH3,
      if "layout" in deco then ParseValue(deco["layout"]) else o.layout)
  }

  /** The unknown keys of `deco`, each value through `parse_value`: the `remained_deco`. */
  function Remaining(deco: map<string, string>): (r: map<string, Value>)
    ensures r.Keys == deco.Keys - KnownFields
    ensures forall key :: key in r ==> r[key] == ParseValue(deco[key])
  {
    map key | key in deco && key !in KnownFields :: ParseValue(deco[key])
  }

  /** What `parse_deco` returns: the raw pairs without a base option, or the remainder and the updated copy. */
  datatype DecoResult = Raw(pairs: map<string, string>) | Merged(remained: map<string, Value>, option: PageOption)

  function Restrict(m: map<string, string>, keys: set<string>): (r: map<string, string>)
    ensures r.Keys == m.Keys * keys
    ensures forall key :: key in r ==> r[key] == m[key]
  {
    map key | key in m && key in keys :: m[key]
  }

  /**
   * The loop of `parse_deco` over the pairs: each known key is set on a copy of `base`,
   * every other key goes to the remainder, both through `parse_value`, whatever the order
   * in which the keys are visited.
   */
  method MergeDeco(deco: map<string, string>, base: PageOption)
    returns (remained: map<string, Value>, updated: PageOption)
    ensures remained == Remaining(deco)
    ensures updated == ApplyKnown(base, deco)
  {
    updated := base;
    remained := map[];
    var todo := deco.Keys;
    while todo != {}
      invariant todo <= deco.Keys
      invariant updated == ApplyKnown(base, Restrict(deco, deco.Keys - todo))
      invariant remained == Remaining(Restrict(deco, deco.Keys - todo))
      decreases todo
    {
      var key :| key in todo;
      ghost var done := Restrict(deco, deco.Keys - todo);
      assert Restrict(deco, deco.Keys - (todo - {key})) == done[key := deco[key]];
      ApplyKnownStep(base, done, key, deco[key]);
      RemainingStep(done, key, deco[key]);
      if key in KnownFields {
        updated := SetField(updated, key, ParseValue(deco[key]));
      } else {
        remained := remained[key := ParseValue(deco[key])];
      }
      todo := todo - {key};
    }
    assert Restrict(deco, deco.Keys - todo) == deco;
  }

  /** Adding one pair to the dictionary sets that one field when the key is known, and nothing otherwise. */
  lemma ApplyKnownStep(base: PageOption, done: map<string, string>, key: string, value: string)
    ensures ApplyKnown(base, done[key := value]) ==
      if key in KnownFields then SetField(ApplyKnown(base, done), key, ParseValue(value)) else ApplyKnown(base, done)
  {
  }

  /** Adding one pair to the dictionary adds it to the remainder exactly when the key is unknown. */
  lemma RemainingStep(done: map<string, string>, key: string, value: string)
    ensures Remaining(done[key := value]) ==
      if key in KnownFields then Remaining(done) else Remaining(done)[key := ParseValue(value)]
  {
  }

  /**
   * `parse_deco`: fails on a line that is not a decorator line; without a base option returns
   * the raw pairs; with one, returns the unknown keys and the updated copy of the base.
   */
  method ParseDeco(line: string, base: Option<PageOption>) returns (r: Result<DecoResult>)
    ensures r.Err? <==> !ContainsDeco(line)
    ensures r.Err? ==> r.message == "Input line should contain a deco, " + line + " received."
    ensures ContainsDeco(line) && base.None? ==> r == Ok(Raw(DecoPairs(line)))
    ensures ContainsDeco(line) && base.Some? ==>
      r == Ok(Merged(Remaining(DecoPairs(line)), ApplyKnown(base.value, DecoPairs(line))))
  {
    if !ContainsDeco(line) {
      return Err("Input line should contain a deco, " + line + " received.");
    }
    var deco := DecoPairs(line);
    if base.None? {
      return Ok(Raw(deco));
    }
    var remained, updated := MergeDeco(deco, base.value);
    return Ok(Merged(remained, updated));
  }

  /** No key goes both into the option and into the remainder, and none is lost. */
  lemma MergePartitionsKeys(deco: map<string, string>, base: PageOption)
    ensures Remaining(deco).Keys !! KnownFields
    ensures Remaining(deco).Keys + (deco.Keys * KnownFields) == deco.Keys
    ensures forall f :: f in KnownFields && f !in deco ==>
      ApplyKnown(base, deco) == ApplyKnown(base, deco - {f})
  {
  }

  /** Applying two decorators in turn is applying their union, where the later one wins. */
  lemma ApplyKnownTwice(o: PageOption, d1: map<string, string>, d2: map<string, string>)
    ensures ApplyKnown(ApplyKnown(o, d1), d2) == ApplyKnown(o, d1 + d2)
  {
  }

  /** `key=value`, the simplest text the pair pattern reads back as that pair. */
  function RenderPair(pair: (string, string)): string {
    pair.0 + "=" + pair.1
  }

  /** The pairs written out as `k1=v1,k2=v2,...`. */
  function RenderPairs(pairs: seq<(string, string)>): string
    decreases |pairs|
  {
    if pairs == [] then ""
    else if |pairs| == 1 then RenderPair(pairs[0])
    else RenderPair(pairs[0]) + "," + RenderPairs(pairs[1..])
  }

  lemma {:induction false} WordRunExact(s: string, p: nat, n: nat)
    requires p + n <= |s|
    requires forall j :: p <= j < p + n ==> IsWordChar(s[j])
    requires p + n == |s| || !IsWordChar(s[p + n])
    ensures WordRun(s, p) == n
    decreases n
  {
    if n > 0 {
      WordRunExact(s, p + 1, n - 1);
    }
  }

  lemma {:induction false} NextCommaExact(s: string, p: nat, n: nat)
    requires p + n <= |s|
    requires forall j :: p <= j < p + n ==> s[j] != ','
    requires p + n == |s| || s[p + n] == ','
    ensures NextComma(s, p) == p + n
    decreases n
  {
    if n > 0 {
      NextCommaExact(s, p + 1, n - 1);
    }
  }

  /** The pattern matches `word=value` at `p` when the value runs to a comma or to the end. */
  lemma MatchPairParts(s: string, p: nat, n: nat, m: nat)
    requires 0 < n && 0 < m && p + n + 1 + m <= |s|
    requires forall j :: p <= j < p + n ==> IsWordChar(s[j])
    requires s[p + n] == '='
    requires forall j :: p + n + 1 <= j < p + n + 1 + m ==> s[j] != ','
    requires p + n + 1 + m == |s| || s[p + n + 1 + m] == ','
    ensures MatchPairAt(s, p) == Some(PairMatch(s[p..p + n], s[p + n + 1..p + n + 1 + m],
      if p + n + 1 + m == |s| then |s| else p + n + 1 + m + 1))
  {
    WordRunExact(s, p, n);
    assert SpaceRun(s, p + n) == 0;
    NextCommaExact(s, p + n + 1, m);
  }

  /** The pattern matches a written-out pair where it starts, and the match ends after its comma. */
  lemma MatchRenderedPair(s: string, p: nat, pair: (string, string))
    requires WellFormedPair(pair)
    requires p + |RenderPair(pair)| <= |s|
    requires s[p..p + |RenderPair(pair)|] == RenderPair(pair)
    requires p + |RenderPair(pair)| == |s| || s[p + |RenderPair(pair)|] == ','
    ensures MatchPairAt(s, p) == Some(PairMatch(pair.0, pair.1,
      if p + |RenderPair(pair)| == |s| then |s| else p + |RenderPair(pair)| + 1))
  {
    RenderedParts(s, p, pair);
    MatchPairParts(s, p, |pair.0|, |pair.1|);
  }

  /** Where `key=value` is written out, the key's characters are word characters and the value's are not commas. */
  lemma RenderedParts(s: string, p: nat, pair: (string, string))
    requires WellFormedPair(pair)
    requires p + |RenderPair(pair)| <= |s|
    requires s[p..p + |RenderPair(pair)|] == RenderPair(pair)
    ensures var n, m := |pair.0|, |pair.1|;
      s[p..p + n] == pair.0 && s[p + n] == '=' && s[p + n + 1..p + n + 1 + m] == pair.1 &&
      (forall j :: p <= j < p + n ==> IsWordChar(s[j])) &&
      (forall j :: p + n + 1 <= j < p + n + 1 + m ==> s[j] != ',')
  {
    var k, v := pair.0, pair.1;
    var n, m := |k|, |v|;
    var t := RenderPair(pair);
    assert t[..n] == k && t[n] == '=' && t[n + 1..] == v;
    assert s[p..p + n] == k by {
      assert s[p..p + n] == s[p..p + |t|][..n];
    }
    assert s[p + n + 1..p + n + 1 + m] == v by {
      assert s[p + n + 1..p + n + 1 + m] == s[p..p + |t|][n + 1..];
    }
    forall j | p <= j < p + n ensures IsWordChar(s[j]) {
      assert s[j] == k[j - p];
    }
    assert s[p + n] == t[n];
    forall j | p + n + 1 <= j < p + n + 1 + m ensures s[j] != ',' {
      assert s[j] == v[j - (p + n + 1)];
    }
  }

  /**
   * Reading written-out pairs back: `re.findall` of the pair pattern over `k1=v1,...,kn=vn`
   * yields exactly those pairs, in order, whenever each key is a word and each value is a
   * non-empty text without a comma.
   */
  lemma FindPairsRender(s: string, p: nat, pairs: seq<(string, string)>)
    requires p <= |s| && s[p..] == RenderPairs(pairs)
    requires forall k :: 0 <= k < |pairs| ==> WellFormedPair(pairs[k])
    ensures FindPairs(s, p) == pairs
  {
    if pairs == [] {
      assert |s[p..]| == 0;
    } else {
      SlotsOfRendered(s, p, pairs);
      MatchesAtSlots(s, p, pairs);
      FindPairsFromSlot(s, p, pairs, 0);
      assert pairs[0..] == pairs;
    }
  }

  /** Where each of the written-out pairs starts, the first at `p`, each after the comma that ends the one before. */
  function Starts(p: nat, pairs: seq<(string, string)>): (st: seq<nat>)
    ensures |st| == |pairs|
    ensures pairs != [] ==> st[0] == p
    decreases |pairs|
  {
    if pairs == [] then [] else [p] + Starts(p + |RenderPair(pairs[0])| + 1, pairs[1..])
  }

  lemma {:induction false} StartsNext(p: nat, pairs: seq<(string, string)>, i: nat)
    requires i + 1 < |pairs|
    ensures Starts(p, pairs)[i + 1] == Starts(p, pairs)[i] + |RenderPair(pairs[i])| + 1
    decreases |pairs|
  {
    if i > 0 {
      StartsNext(p + |RenderPair(pairs[0])| + 1, pairs[1..], i - 1);
    }
  }

  /** `pair` is written out at `a`, followed by a comma, or by the end of `s` when it is the last. */
  predicate Slot(s: string, a: nat, pair: (string, string), last: bool) {
    var n := |RenderPair(pair)|;
    a + n <= |s| && s[a..a + n] == RenderPair(pair) &&
    if last then a + n == |s| else a + n < |s| && s[a + n] == ','
  }

  /** Every pair is written out at its start. */
  predicate SlotsAt(s: string, p: nat, pairs: seq<(string, string)>) {
    forall i :: 0 <= i < |pairs| ==> Slot(s, Starts(p, pairs)[i], pairs[i], i == |pairs| - 1)
  }

  lemma {:induction false} SlotsOfRendered(s: string, p: nat, pairs: seq<(string, string)>)
    requires p <= |s| && s[p..] == RenderPairs(pairs)
    ensures SlotsAt(s, p, pairs)
    decreases |pairs|
  {
    if pairs != [] {
      var t := RenderPair(pairs[0]);
      if |pairs| == 1 {
        assert s[p..p + |t|] == t by {
          assert s[p..][..|t|] == t;
        }
      } else {
        var q := p + |t| + 1;
        SplitRendered(s, p, pairs);
        SlotsOfRendered(s, q, pairs[1..]);
        SlotsShift(s, p, pairs);
      }
    }
  }

  lemma SlotsShift(s: string, p: nat, pairs: seq<(string, string)>)
    requires |pairs| >= 2
    requires Slot(s, p, pairs[0], false)
    requires SlotsAt(s, p + |RenderPair(pairs[0])| + 1, pairs[1..])
    ensures SlotsAt(s, p, pairs)
  {
    var q := p + |RenderPair(pairs[0])| + 1;
    forall i | 0 <= i < |pairs|
      ensures Slot(s, Starts(p, pairs)[i], pairs[i], i == |pairs| - 1)
    {
      if i > 0 {
        assert Starts(p, pairs)[i] == Starts(q, pairs[1..])[i - 1];
        assert pairs[i] == pairs[1..][i - 1];
      }
    }
  }

  /** Where the `i`-th match ends: at the end of `s` for the last pair, else after its comma. */
  function EndOf(s: string, p: nat, pairs: seq<(string, string)>, i: nat): nat
    requires i < |pairs|
  {
    if i == |pairs| - 1 then |s| else Starts(p, pairs)[i] + |RenderPair(pairs[i])| + 1
  }

  /** At each start the pattern matches its pair. */
  predicate MatchedAt(s: string, p: nat, pairs: seq<(string, string)>) {
    forall i {:trigger Starts(p, pairs)[i]} :: 0 <= i < |pairs| ==>
      Starts(p, pairs)[i] <= |s| &&
      MatchPairAt(s, Starts(p, pairs)[i]) == Some(PairMatch(pairs[i].0, pairs[i].1, EndOf(s, p, pairs, i)))
  }

  lemma MatchesAtSlots(s: string, p: nat, pairs: seq<(string, string)>)
    requires forall k :: 0 <= k < |pairs| ==> WellFormedPair(pairs[k])
    requires SlotsAt(s, p, pairs)
    ensures MatchedAt(s, p, pairs)
  {
    forall i | 0 <= i < |pairs|
      ensures Starts(p, pairs)[i] <= |s| &&
        MatchPairAt(s, Starts(p, pairs)[i]) == Some(PairMatch(pairs[i].0, pairs[i].1, EndOf(s, p, pairs, i)))
    {
      SlotMatches(s, Starts(p, pairs)[i], pairs[i], i == |pairs| - 1);
    }
  }

  lemma SlotMatches(s: string, a: nat, pair: (string, string), last: bool)
    requires WellFormedPair(pair) && Slot(s, a, pair, last)
    ensures a <= |s|
    ensures MatchPairAt(s, a) == Some(PairMatch(pair.0, pair.1, if last then |s| else a + |RenderPair(pair)| + 1))
  {
    MatchRenderedPair(s, a, pair);
  }

  /** The `j`-th match, and where the next one starts. */
  lemma MatchedAtOne(s: string, p: nat, pairs: seq<(string, string)>, j: nat)
    requires j < |pairs| && MatchedAt(s, p, pairs)
    ensures Starts(p, pairs)[j] < |s|
    ensures MatchPairAt(s, Starts(p, pairs)[j]) == Some(PairMatch(pairs[j].0, pairs[j].1, EndOf(s, p, pairs, j)))
    ensures j + 1 < |pairs| ==> EndOf(s, p, pairs, j) == Starts(p, pairs)[j + 1]
  {
    if j + 1 < |pairs| {
      StartsNext(p, pairs, j);
    }
  }

  /** From the `j`-th start on, `re.findall` yields the pairs from the `j`-th on. */
  lemma {:induction false} FindPairsFromSlot(s: string, p: nat, pairs: seq<(string, string)>, j: nat)
    requires j < |pairs| && MatchedAt(s, p, pairs)
    ensures Starts(p, pairs)[j] <= |s| && FindPairs(s, Starts(p, pairs)[j]) == pairs[j..]
    decreases |pairs| - j
  {
    var a := Starts(p, pairs)[j];
    MatchedAtOne(s, p, pairs, j);
    FindPairsMatched(s, a, pairs[j], EndOf(s, p, pairs, j));
    DropCons(pairs, j);
    if j + 1 < |pairs| {
      FindPairsFromSlot(s, p, pairs, j + 1);
    }
  }

  lemma DropCons<T>(xs: seq<T>, j: nat)
    requires j < |xs|
    ensures xs[j..] == [xs[j]] + xs[j + 1..]
  {
  }

  /** Two or more written-out pairs: the first, a comma, then the rest. */
  lemma SplitRendered(s: string, p: nat, pairs: seq<(string, string)>)
    requires |pairs| >= 2 && p <= |s| && s[p..] == RenderPairs(pairs)
    ensures p + |RenderPair(pairs[0])| < |s|
    ensures s[p..p + |RenderPair(pairs[0])|] == RenderPair(pairs[0])
    ensures s[p + |RenderPair(pairs[0])|] == ','
    ensures s[p + |RenderPair(pairs[0])| + 1..] == RenderPairs(pairs[1..])
  {
    var t := RenderPair(pairs[0]);
    var rest := RenderPairs(pairs[1..]);
    assert s[p..] == t + "," + rest;
    assert s[p..p + |t|] == t by {
      assert s[p..][..|t|] == t;
    }
    assert s[p + |t|] == ',' by {
      assert s[p..][|t|] == ',';
    }
    assert s[p + |t| + 1..] == rest by {
      assert s[p..][|t| + 1..] == rest;
    }
  }

  /** Where the pattern matches, `re.findall` yields that pair and resumes after the match. */
  lemma FindPairsMatched(s: string, p: nat, pair: (string, string), end: nat)
    requires p < |s| && MatchPairAt(s, p) == Some(PairMatch(pair.0, pair.1, end))
    ensures end <= |s|
    ensures FindPairs(s, p) == [pair] + FindPairs(s, end)
  {
    assert pair == (pair.0, pair.1);
  }

  lemma {:induction false} RenderNoNewline(pairs: seq<(string, string)>)
    requires forall k :: 0 <= k < |pairs| ==> WellFormedPair(pairs[k]) && '\n' !in pairs[k].1
    ensures '\n' !in RenderPairs(pairs)
    decreases |pairs|
  {
    if pairs != [] {
      assert '\n' !in pairs[0].0 by {
        assert !IsWordChar('\n');
        assert forall j :: 0 <= j < |pairs[0].0| ==> IsWordChar(pairs[0].0[j]);
      }
      assert '\n' !in RenderPair(pairs[0]);
      if |pairs| > 1 {
        RenderNoNewline(pairs[1..]);
      }
    }
  }

  /** A decorator line written from pairs is recognised as one, and its body is the written pairs. */
  lemma RenderedDecoLine(pairs: seq<(string, string)>)
    requires forall k :: 0 <= k < |pairs| ==> WellFormedPair(pairs[k]) && '\n' !in pairs[k].1
    ensures ContainsDeco("@(" + RenderPairs(pairs) + ")")
    ensures DecoBody("@(" + RenderPairs(pairs) + ")") == RenderPairs(pairs)
  {
    RenderNoNewline(pairs);
    WrappedDeco(RenderPairs(pairs));
  }

  /** `@(body)` is a decorator line with that body whenever the body has no line break. */
  lemma WrappedDeco(body: string)
    requires '\n' !in body
    ensures ContainsDeco("@(" + body + ")")
    ensures DecoBody("@(" + body + ")") == body
  {
    var line := "@(" + body + ")";
    StripUnpadded(line);
    assert line[..2] == "@(";
    assert '\n' !in line;
    assert line[2..|line| - 1] == body;
  }

  /**
   * Reading a decorator line written from pairs gives the dictionary of those pairs
   * (stripped values, the last occurrence of a key winning).
   */
  lemma DecoRoundTrip(pairs: seq<(string, string)>)
    requires forall k :: 0 <= k < |pairs| ==> WellFormedPair(pairs[k]) && '\n' !in pairs[k].1
    ensures ContainsDeco("@(" + RenderPairs(pairs) + ")")
    ensures DecoPairs("@(" + RenderPairs(pairs) + ")") == PairsMap(pairs)
  {
    var body := RenderPairs(pairs);
    RenderedDecoLine(pairs);
    FindPairsRender(body, 0, pairs);
    assert body[0..] == body;
  }
}
