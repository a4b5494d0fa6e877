# moffee pagination, modelled in Dafny

moffee turns a markdown document into slides. This project models the engine that does it:

- `mdbeamer/md_helper.py` classifies one markdown line. It decides whether the line is a
  comment, a header and of which level, empty, a divider, an image line or a decorator line
  `@(key=value, ...)`.
- `moffie/splitter.py` does the paging:
  - it splits off the YAML front matter and builds the `PageOption` it describes;
  - it cuts the body into pages, at dividers and before headers that step down;
  - it reads decorator lines into page options and extra `deco` values;
  - it passes headings on from page to page, following the `default_h1..3` options;
  - it splits every page into paragraph and image chunks.

The modules follow the source:

- `Text`: Python string helpers on ASCII text (`strip`, `lstrip`, `split`, `join`, `lower`, `find`).
- `MdHelper`: the six line predicates of `md_helper.py`. Each one is proved equal to a direct
  reading of its regular expression. They are also proved disjoint where paging relies on it,
  and proved against the expected values in that file's `__main__` block.
- `Options`: `PageOption`, the values `parse_value` yields, Python truthiness and `parse_value`.
- `Deco`: `parse_deco`. The `re.findall` scanner for `key=value` pairs returns exactly the pairs
  that were rendered into a decorator line (a round trip). A `MergeDeco` method models the
  `hasattr`/`setattr` loop.
- `Frontmatter`: `parse_frontmatter`, with the YAML loader as a parameter.
- `Pages`: `Chunk`, the `Page` class (`title`, `subtitle`, `_preprocess`, `chunk`) and the
  chunking loop, proved against a fold over the lines.
- `Pagination`: the value-level semantics of `paginate`:
  - a state machine `Step`/`Run` for the line loop;
  - `Flush` for `create_page`;
  - `InheritScan` for the heading pass.

  The imperative `Paginate`, `CutPages`, `CreatePage` and `InheritPages` methods are proved to
  build exactly those pages, as fresh `Page` objects updated in place.
- `PaginationFacts` and `InheritanceFacts`: what `paginate` guarantees:
  - the break rule;
  - no line is lost except dividers;
  - no page is blank;
  - each page carries its own last headings;
  - how inheritance and decorators come out.
- `PageLines`: no line of a finished page's body or chunks is a divider or a decorator line.

Where the code differs from its own comments or docstrings, the model follows the code:

- The comment at `moffie/splitter.py:237` says only levels 1-3 break, but a level 4-6 header
  after a text line also starts a page (`BreakRule`, `BreakExamples`).
- An h2 directly after an h1 does not break.
- The docstring at `moffie/splitter.py:186` lists `+++` as a divider, but `is_divider` accepts
  only `-`, `*` and `_`.
- `default_h1` defaults to false, so with the default options no page inherits an h1.
  `DefaultExample` shows it for `# A` followed by a page without headings.
- The three inheritance tests are independent `if`s, and they test `!= None`, not truthiness.

## Model

| member | source | states |
|---|---|---|
| `MdHelper.CommentMatchesRegex` | mdbeamer/md_helper.py:4-12 | `is_comment` holds exactly when some span reads as whitespace, `<!--`, text without line breaks, `-->`, whitespace |
| `MdHelper.LeadingHashes` | mdbeamer/md_helper.py:22 | the run of `#` at the front of the line is maximal |
| `MdHelper.HeaderLevel` | mdbeamer/md_helper.py:15-26 | a nonzero level is at most 6, the line starts with `#`, and whitespace stands at that position (the all-hash prefix is `HeaderLevelExact`) |
| `MdHelper.HeaderLevelExact` | mdbeamer/md_helper.py:15-26 | level k >= 1 exactly when the line starts with exactly k <= 6 hashes and then whitespace (both directions) |
| `MdHelper.SevenHashesNotHeader` | mdbeamer/md_helper.py:22 | seven or more leading hashes give level 0 |
| `MdHelper.CloseParenAt` | mdbeamer/md_helper.py:65 | the lazy `.*?\)` matches exactly when a `)` comes before any line break |
| `MdHelper.BracketParenSound` | mdbeamer/md_helper.py:65 | a match of `.*?\]\(.*?\)` has a `](` and a later `)` on one line |
| `MdHelper.BracketParenComplete` | mdbeamer/md_helper.py:65 | any such `](` ... `)` on one line is found |
| `MdHelper.ImageSound` | mdbeamer/md_helper.py:57-65 | `contains_image` yields positions of `![`, `](` and `)` in order, without a line break between them |
| `MdHelper.ImageComplete` | mdbeamer/md_helper.py:57-65 | any such positions make `contains_image` true |
| `MdHelper.ContainsImageMatch` | mdbeamer/md_helper.py:57-65 | `contains_image` holds exactly when the image pattern matches somewhere |
| `MdHelper.ImageAtMarks` | mdbeamer/md_helper.py:65 | the image marks at given indices of a one-line string give a match |
| `MdHelper.NoBangNoImage` | mdbeamer/md_helper.py:65 | a line without `!` contains no image |
| `MdHelper.DecoMatchesRegex` | mdbeamer/md_helper.py:68-76 | `contains_deco` holds exactly when the line reads as whitespace, `@(`, text without line breaks, `)`, whitespace |
| `MdHelper.DividerIsOnlyDivider` | mdbeamer/md_helper.py:40-54 | a divider is not a header, not empty and not a decorator line |
| `MdHelper.DecoIsNotHeader` | mdbeamer/md_helper.py:68-76 | a decorator line is neither a header nor empty |
| `MdHelper.HeaderIsOnlyHeader` | mdbeamer/md_helper.py:15-26 | a header is not a divider, not a decorator line and not empty |
| `MdHelper.BlankIsOnlyBlank` | mdbeamer/md_helper.py:29-37 | a whitespace-only line is empty and is none of the other kinds |
| `MdHelper.CommentIsOnlyComment` | mdbeamer/md_helper.py:29-37 | a comment line is empty without being blank, and is none of the other kinds |
| `MdHelper.SelfTestComment` | mdbeamer/md_helper.py:82 | `<!-- This is a comment -->` is a comment and empty |
| `MdHelper.SelfTestNotComment` | mdbeamer/md_helper.py:83 | plain text is neither a comment nor empty |
| `MdHelper.SelfTestBlank` | mdbeamer/md_helper.py:88 | `" \n"` is empty |
| `MdHelper.SelfTestHeaderOne` | mdbeamer/md_helper.py:91 | `# Header 1` has level 1 |
| `MdHelper.SelfTestHeaderThree` | mdbeamer/md_helper.py:92 | `### Header 3` has level 3 |
| `MdHelper.SelfTestNotHeader` | mdbeamer/md_helper.py:93 | plain text has level 0 |
| `MdHelper.SelfTestSevenHashes` | mdbeamer/md_helper.py:94 | seven hashes give level 0 |
| `MdHelper.SelfTestDashes` | mdbeamer/md_helper.py:97 | `---` is a divider |
| `MdHelper.SelfTestStars` | mdbeamer/md_helper.py:98 | `***` is a divider |
| `MdHelper.SelfTestUnderscores` | mdbeamer/md_helper.py:99 | `___` is a divider |
| `MdHelper.SelfTestPaddedDivider` | mdbeamer/md_helper.py:100 | `  ----  ` is a divider |
| `MdHelper.SelfTestTwoDashes` | mdbeamer/md_helper.py:101 | `--` is not a divider |
| `MdHelper.SelfTestSpacedDashes` | mdbeamer/md_helper.py:102 | `- - -` is not a divider |
| `MdHelper.SelfTestNotDivider` | mdbeamer/md_helper.py:103 | plain text is not a divider |
| `MdHelper.SelfTestImage` | mdbeamer/md_helper.py:106 | `![Alt text](image.jpg)` contains an image |
| `MdHelper.SelfTestInlineImage` | mdbeamer/md_helper.py:107-109 | an image after text is found |
| `MdHelper.SelfTestNotImage` | mdbeamer/md_helper.py:110 | plain text contains no image |
| `MdHelper.SelfTestEmptyAlt` | mdbeamer/md_helper.py:111 | an image with empty alt text is found |
| `MdHelper.SelfTestEmptyAltAndUrl` | mdbeamer/md_helper.py:112 | `![]()` is an image |
| `MdHelper.SelfTestDeco` | mdbeamer/md_helper.py:115 | `@(layout=split, background=blue)` is a decorator line |
| `MdHelper.SelfTestPaddedDeco` | mdbeamer/md_helper.py:116 | surrounding spaces are allowed |
| `MdHelper.SelfTestNotDeco` | mdbeamer/md_helper.py:117 | plain text is not a decorator line |
| `MdHelper.SelfTestDecoWithText` | mdbeamer/md_helper.py:118 | text after the `)` rules it out |
| `MdHelper.SelfTestEmptyDeco` | mdbeamer/md_helper.py:119 | `@()` is a decorator line |
| `MdHelper.PaddedDeco` | mdbeamer/md_helper.py:76 | `@(` ... `)` between whitespace on one line is a decorator line |
| `Text.StripEnds` | moffie/splitter.py:102 | `strip()` is empty exactly for whitespace-only text, and otherwise starts and ends with non-whitespace |
| `Text.StripSpec` | moffie/splitter.py:102 | `strip()` is the part of the text between its leading and trailing whitespace |
| `Text.SplitLines` | moffie/splitter.py:90 | `splitlines()` gives pieces without line breaks |
| `Text.JoinSplit` | moffie/splitter.py:53 | joining the pieces of `split("\n")` with `"\n"` gives back the text |
| `Text.SplitJoin` | moffie/splitter.py:60 | splitting a join of line-free pieces gives back the pieces |
| `Options.SetField` | moffie/splitter.py:159 | `setattr` on a known field changes that field only |
| `Options.ParseValue` | moffie/splitter.py:166-176 | the result is a bool exactly for `true`/`false` in any case; otherwise an int exactly for digit strings, with their value; otherwise a float for digits with one dot; otherwise the text unchanged |
| `Options.ParseValueNum` | moffie/splitter.py:174-175 | a float comes out exactly for one dot, digits elsewhere and at least one digit |
| `Options.IntTruthyLikeNum` | moffie/splitter.py:173 | an int read from digits is truthy exactly when some digit is not `0` |
| `Options.ParseValueTrue` | moffie/splitter.py:168-169 | `true` gives the bool true |
| `Options.ParseValueFalse` | moffie/splitter.py:170-171 | `False` gives the bool false |
| `Options.ParseValueInt` | moffie/splitter.py:172-173 | `42` gives the int 42 |
| `Options.ParseValueFloat` | moffie/splitter.py:174-175 | `3.14` gives a float |
| `Options.ParseValueTwoDots` | moffie/splitter.py:174-176 | `1.2.3` stays text |
| `Options.ParseValueText` | moffie/splitter.py:176 | `top-down` stays text |
| `Deco.DecoBody` | moffie/splitter.py:143-147 | group 1 of the decorator pattern has no line break, and the stripped line is `@(` + group + `)` |
| `Deco.WordRunSpec` | moffie/splitter.py:148 | `\w+` takes the longest run of word characters |
| `Deco.NextCommaSpec` | moffie/splitter.py:148 | `[^,]+` stops at the first comma or at the end |
| `Deco.MatchPairAt` | moffie/splitter.py:148 | a match consumes input, and gives a word key and a non-empty value without commas |
| `Deco.FindPairsWellFormed` | moffie/splitter.py:148 | every pair `findall` returns has a word key and a comma-free value |
| `Deco.KeysOf` | moffie/splitter.py:149 | every key of the pairs is among the dict's keys |
| `Deco.PairsMap` | moffie/splitter.py:149 | the dict has exactly the keys of the pairs |
| `Deco.PairsMapLastWins` | moffie/splitter.py:149 | for a repeated key the last pair wins, with its value stripped |
| `Deco.KeysOfSound` | moffie/splitter.py:149 | every key of the dict comes from some pair |
| `Deco.FindPairsRender` | moffie/splitter.py:148 | on a rendered list of pairs `k=v,k=v`, `findall` returns exactly those pairs |
| `Deco.DecoRoundTrip` | moffie/splitter.py:143-149 | the line `@(` + rendered pairs + `)` is a decorator line, and its dict is the dict of those pairs |
| `Deco.RenderedDecoLine` | moffie/splitter.py:143-147 | the rendered line is a decorator line, and its body is given back unchanged |
| `Deco.ApplyKnown` | moffie/splitter.py:154-159 | each known key present sets its field to its parsed value; other fields keep the base value |
| `Deco.Remaining` | moffie/splitter.py:155-161 | exactly the unknown keys remain, each with its parsed value |
| `Deco.MergeDeco` | moffie/splitter.py:154-163 | the `setattr` loop yields the remaining dict and the updated option defined above |
| `Deco.ApplyKnownStep` | moffie/splitter.py:158-159 | one more key updates the option through `SetField` exactly when it is known |
| `Deco.RemainingStep` | moffie/splitter.py:160-161 | one more key extends the remaining dict exactly when it is unknown |
| `Deco.ParseDeco` | moffie/splitter.py:130-163 | an error with the source's message exactly when the line is no decorator line; without a base option, the raw dict; with one, the remaining dict and the updated option |
| `Deco.MergePartitionsKeys` | moffie/splitter.py:157-161 | known and remaining keys split the dict's keys, and known keys missing from the dict do not change the option |
| `Deco.ApplyKnownTwice` | moffie/splitter.py:216-217 | applying two dicts one after the other is applying their merge, the later one winning |
| `Frontmatter.FindFrom` | moffie/splitter.py:108 | the first non-overlapping `---` at or after a position, or none |
| `Frontmatter.SplitFront` | moffie/splitter.py:102-111 | front matter comes only from a stripped document starting with `---`; without a second `---` after it the content is the whole stripped document; with one, the front matter and the content are the stripped parts before and after it |
| `Frontmatter.OptionFrom` | moffie/splitter.py:120-125 | each field takes the YAML value of its key, or its dataclass default |
| `Frontmatter.ParseFrontmatter` | moffie/splitter.py:95-127 | the content is the part after the front matter; with empty front matter or a YAML error the option is the default; otherwise it comes from the loaded mapping |
| `Frontmatter.NoFrontMatter` | moffie/splitter.py:107 | without a leading `---` the whole stripped document is content and the option is the default |
| `Frontmatter.UnclosedFrontMatter` | moffie/splitter.py:108-109 | a leading `---` with no second one is content, not front matter |
| `Frontmatter.FindFromFirst` | moffie/splitter.py:108 | `find` returns the first occurrence |
| `Frontmatter.SplitFrontRoundTrip` | moffie/splitter.py:102-111 | `---` + front + `---` + body splits back into the stripped front and body |
| `Frontmatter.ParseFrontmatterRoundTrip` | moffie/splitter.py:95-127 | such a document gives the stripped body and the option its front matter loads to |
| `Pages.PageRecord.Title` | moffie/splitter.py:31-33 | the first truthy heading of h1, h2, h3, or else h3; truthy exactly when one of them is |
| `Pages.PageRecord.Subtitle` | moffie/splitter.py:35-41 | none unless h1 or h2 is truthy; otherwise the first truthy heading after the title's, or else h3 |
| `Pages.KeepLinesFilter` | moffie/splitter.py:91 | the kept lines are exactly the lines that are not level 1-3 headings |
| `Pages.KeepPlain` | moffie/splitter.py:91 | lines without level 1-3 headings are all kept |
| `Pages.KeepDropsHeadings` | moffie/splitter.py:91 | the filter drops as many lines as there are level 1-3 headings |
| `Pages.HeadingLines` | moffie/splitter.py:91 | the dropped lines are level 1-3 headings |
| `Pages.PreprocessPlain` | moffie/splitter.py:81-92 | a stripped body without level 1-3 headings is left unchanged |
| `Pages.Page.constructor` | moffie/splitter.py:21-29 | a page is created with the given fields and no chunks |
| `Pages.Page.Preprocess` | moffie/splitter.py:81-92 | the body is replaced by its preprocessed form, and nothing else changes |
| `Pages.Page.MakeChunks` | moffie/splitter.py:43-79 | the body is preprocessed and its chunks are appended, and nothing else changes |
| `Pages.ChunkBody` | moffie/splitter.py:53-79 | the chunking loop yields the chunks of the fold |
| `Pages.Absorb` | moffie/splitter.py:58-75 | one iteration of the loop is one step of the fold |
| `Pages.ChunkStepAppends` | moffie/splitter.py:58-75 | a step only ever appends to the chunks |
| `Pages.ChunksWellFormed` | moffie/splitter.py:43-79 | image chunks are single image lines; paragraph chunks contain no image and never two empty lines in a row |
| `Pages.ChunkImages` | moffie/splitter.py:58-63 | the image chunks are exactly the image lines, in order |
| `Pages.ChunksKeepLines` | moffie/splitter.py:43-79 | dropping empty lines, the chunks hold exactly the body's lines in order |
| `Pages.EmptyBodyChunks` | moffie/splitter.py:53-79 | an empty body gives one empty paragraph chunk |
| `Pages.OneBlankKeepsParagraph` | moffie/splitter.py:64-72 | one blank line between two lines stays in one paragraph |
| `Pages.TwoBlanksSplitParagraphs` | moffie/splitter.py:64-70 | two blank lines end the paragraph |
| `Pages.ImageBetweenParagraphs` | moffie/splitter.py:57-79 | an image line between two lines of text gives a paragraph, the image and a paragraph |
| `Pagination.ReadBuffer` | moffie/splitter.py:211-219 | the loop of `create_page` gives the body, the option and the `deco` of its lines |
| `Pagination.CreatePage` | moffie/splitter.py:204-231 | the page list and loop variables move as `Flush` says, and only fresh pages are appended |
| `Pagination.ReadLine` | moffie/splitter.py:233-268 | one iteration of the line loop moves the state as `Step` says |
| `Pagination.PlaceLine` | moffie/splitter.py:247-268 | a divider flushes; any other line is buffered with its heading and level |
| `Pagination.HeaderBreak` | moffie/splitter.py:238-242 | the page is flushed exactly when the break rule holds |
| `Pagination.BufferLine` | moffie/splitter.py:251-268 | buffering sets the heading of the line's level and updates `prev_header_level` |
| `Pagination.CutPages` | moffie/splitter.py:192-271 | the line loop and the final `create_page` build exactly the pages of `Drafts`, as distinct fresh objects |
| `Pagination.InheritInto` | moffie/splitter.py:276-295 | a page gains the inherited headings of one pass step, and the environment moves on |
| `Pagination.ProcessPage` | moffie/splitter.py:276-297 | a page is inherited into and then chunked |
| `Pagination.InheritPages` | moffie/splitter.py:274-297 | the pass leaves every page as the heading scan and `chunk` say |
| `Pagination.FinishPage` | moffie/splitter.py:276-297 | page j after the pass, with the environment of pages before it |
| `Pagination.FinalizedAt` | moffie/splitter.py:297 | each page is chunked on its own |
| `Pagination.InheritAt` | moffie/splitter.py:274-295 | page j inherits from the environment of the pages before it |
| `Pagination.WantAt` | moffie/splitter.py:274-297 | page j's final value from the environment before it |
| `Pagination.Paginate` | moffie/splitter.py:179-299 | the returned pages are exactly `Paginated(document)`, as distinct fresh objects |
| `PaginationFacts.BreakRule` | moffie/splitter.py:238-240 | a header breaks exactly when its level is positive and the previous level is 0, or is larger with the new level at most 2 |
| `PaginationFacts.BreakExamples` | moffie/splitter.py:236-240 | levels 4-6 after text do break; h2 after h1 and h3 after h3 do not; level 0 never does |
| `PaginationFacts.PrevStep` | moffie/splitter.py:265-268 | `prev_header_level` becomes the level of a header or text line, and blank, comment, decorator and divider lines leave it |
| `PaginationFacts.FlushKeepsPrev` | moffie/splitter.py:204-231 | `create_page` does not touch `prev_header_level` |
| `PaginationFacts.RunPrev` | moffie/splitter.py:233-268 | after the loop, `prev_header_level` is the level set by the last header or text line |
| `PaginationFacts.LastDecidingAt` | moffie/splitter.py:265-268 | the last header or text line sets `prev_header_level` |
| `PaginationFacts.NoDecidingLevel` | moffie/splitter.py:196 | without any header or text line, the level stays 0 |
| `PaginationFacts.DraftsConserve` | moffie/splitter.py:233-271 | the pages' lines, plus a blank leftover, are exactly the non-divider lines in order |
| `PaginationFacts.RawConservation` | moffie/splitter.py:214-219 | the pages' bodies, plus the leftover, are the bodies of the non-divider lines |
| `PaginationFacts.RawOfSkipsDecorators` | moffie/splitter.py:214-219 | the body is the line-by-line concatenation in which a decorator line adds nothing and every other line adds a line break and itself; so all-decorator lines give an empty body and decorator-free lines a body of their lengths plus one per line |
| `PaginationFacts.DraftsShaped` | moffie/splitter.py:208-209 | no page is blank, and no page holds a divider |
| `PaginationFacts.GivenOptionStripsFront` | moffie/splitter.py:198-202 | a given option replaces the front matter's, and the front matter is still removed from the body whose lines are read |
| `PaginationFacts.NoHeaderRun` | moffie/splitter.py:233-268 | lines without headers and dividers are all buffered, emit no page and set no heading |
| `PaginationFacts.NoHeaderOnePage` | moffie/splitter.py:233-271 | a body without headers and dividers is one page of all its lines, or no page when it is blank |
| `PageLines.RawOfLines` | moffie/splitter.py:214-219 | the lines of `raw_md` are an empty first line followed by the page's non-decorator lines, in order |
| `PageLines.StripKeepsPlain` | moffie/splitter.py:92 | `strip()` of a text none of whose lines is a divider or a decorator line leaves no such line |
| `PageLines.PreprocessedPlain` | moffie/splitter.py:81-92 | `_preprocess` of such a text leaves no divider and no decorator line |
| `PageLines.ChunkLinesPlain` | moffie/splitter.py:43-79 | cutting such a text into chunks leaves no divider and no decorator line in any chunk |
| `PageLines.DraftsLineFree` | moffie/splitter.py:202-271 | the lines a page is built from hold no line break |
| `PageLines.PageOfDraftPlain` | moffie/splitter.py:204-231 | a page built from lines without dividers has no divider and no decorator line in its body or its chunks |
| `PageLines.PaginatedLinesPlain` | moffie/splitter.py:179-299 | no line of a page's body and no line of any of its chunks is a divider or a decorator line |
| `PaginationFacts.DraftHeadings` | moffie/splitter.py:251-257 | each page's h1..h3 are the last headings of its own lines |
| `PaginationFacts.AllBlankNoPages` | moffie/splitter.py:208-209 | only blank lines give no page and keep all of them as leftover |
| `PaginationFacts.WhitespaceDocumentNoPages` | moffie/splitter.py:179-299 | a whitespace-only document gives no pages |
| `PaginationFacts.CommentOnlyPage` | moffie/splitter.py:208-209 | a comment line alone still makes a page (it is not blank) |
| `PaginationFacts.DecoOnlyPage` | moffie/splitter.py:208-209 | a decorator line alone makes a page |
| `PaginationFacts.BlankStep` | moffie/splitter.py:261 | a blank line is buffered and changes nothing else |
| `PaginationFacts.TextStep` | moffie/splitter.py:261-268 | a text line is buffered and resets the level |
| `PaginationFacts.DividerStep` | moffie/splitter.py:247-249 | a divider line only flushes |
| `PaginationFacts.HeaderStep` | moffie/splitter.py:238-266 | a header flushes when the rule says so, then is buffered |
| `PaginationFacts.TextThenHeaderSteps` | moffie/splitter.py:238-242 | a header after text closes the page holding the text and opens a new one |
| `PaginationFacts.HeaderThenDeeper` | moffie/splitter.py:238-242 | a same-or-deeper header after a header stays on the same page |
| `InheritanceFacts.EnvResets` | moffie/splitter.py:279-289 | a page's own h1 replaces the whole environment, its own h2 replaces h2 and h3, its own h3 replaces h3 |
| `InheritanceFacts.InheritOneSpec` | moffie/splitter.py:276-295 | only headings change; own headings are kept; hK is inherited exactly when no own heading of level <= K exists and `default_hK` is truthy |
| `InheritanceFacts.DefaultInheritsNoH1` | moffie/splitter.py:10-12 | with the default options, h2 and h3 are inherited and h1 never is |
| `InheritanceFacts.InheritEnv` | moffie/splitter.py:274-295 | after the pass, the environment is the latest headings, an h1 cancelling earlier h2/h3 and an h2 cancelling an earlier h3 |
| `InheritanceFacts.InheritedHeadings` | moffie/splitter.py:274-295 | each page keeps its own headings and otherwise takes the latest ones of the pages before it, when its option asks for them |
| `InheritanceFacts.DefaultExample` | moffie/splitter.py:276-295 | `# A` followed by a page without headings: with default options the second page gets no h1 |
| `InheritanceFacts.OptionOfMerged` | moffie/splitter.py:214-217 | a page's option is the chosen option updated by the merged pairs of all its decorator lines |
| `InheritanceFacts.DecoOfMerged` | moffie/splitter.py:214-217 | a page's `deco` is the unknown keys of the merged pairs, parsed, and contains no known field |
| `InheritanceFacts.PaginatedPage` | moffie/splitter.py:179-299 | page k has its draft's preprocessed body and chunks, the decorated option and `deco`, and each heading is its own last heading of that level unless it has none of that level or above and its option inherits, when it is the environment's from the pages before it |

## Left out

- `yaml.safe_load` is a parameter `safeLoad` returning a mapping or a load error.
  A document whose front matter loads to something other than a mapping (`None`, a list, a
  scalar) makes the source fail at `yaml_data.get`, and is not modelled.
- YAML values are limited to bools, ints, floats and strings; nested YAML values are not modelled.
- Floats from `parse_value` keep their decimal text (`Num`). Their truthiness is "some digit is
  not 0"; floating point itself is not modelled.
- Whitespace, `\s`, `\w`, `strip`, `lower` and `isdigit` are treated as ASCII. Whitespace is
  space, `\t`, `\n`, `\r`, `\x0b`, `\x0c` and the separators `\x1c`-`\x1f`, as Python counts
  them. Unicode whitespace, word characters and digits are not modelled.
- Deco.Remaining: a decorator key that names one of the attributes every Python object has
  (`__doc__`, `__class__`, `__init__`, ...) is not modelled. `hasattr` finds it at
  `moffie/splitter.py:158`, so the source `setattr`s it (or fails) and keeps it out of `deco`,
  while the model treats it as an unknown key and puts it into `deco`. Only the four fields of
  `PageOption` count as known (`Options.KnownFields`).
- `splitlines()` in `_preprocess` is treated like `split("\n")` with a final empty line dropped.
  The other line boundaries it knows (`\r`, `\x1c`-`\x1e`, `\x85`, `\u2028`, ...) are not modelled.
- The regular expressions are modelled only as the six patterns of `md_helper.py` and the two
  of `parse_deco`, each as its own scanner. Python's general regex engine is not modelled.
- `line_count` is omitted: it is only written (lines 195, 230, 263), and its one reader, the
  size limit at lines 244-245, is commented out.
- `deepcopy` of the option is modelled by value semantics: options and dicts are values, so no
  aliasing between pages arises.
- Dafny maps keep no insertion order, so the key order of a page's `deco` (built by
  `{**deco, **_deco}` at `moffie/splitter.py:217`) is not modelled; nothing in the source reads it.
- The `ValueError` raised by `parse_deco` is an `Err` result carrying the same message.
- `print` output, the `__main__` block's printing, and `mdbeamer/main.py` are not part of this model.
