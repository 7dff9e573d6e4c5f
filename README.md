# Crafting Interpreters book build: the chapter preprocessor

This project models the core of `util/build.py`, the script that turns the
book's markdown chapters into HTML pages. It covers:

- **The table of contents.** Flattening it to the linear page order
  (`flatten_pages`) and numbering it (`number_chapters`, with `roman`). It
  also covers the page helpers `title_to_file`, `adjacent_page`, `pretty`
  and `look_up_chapters`.
- **`format_code`.** It peels the blank lines off both ends of a slice of
  code, counts them, and fences the rest for the markdown renderer. It then
  puts the peeled lines back as `<br>` tags inside the rendered `<pre>`.
- **`include_section`, the `^code` directive.** It reads the argument
  `N`, `N (B before)`, `N (A after)` or `N (B before, A after)`. It then
  looks up section `N` in the chapter's dict of code sections:
  - An undefined or already-consumed number brackets the whole chapter text
    with error markers.
  - An available one is consumed in place and its markup is appended. The
    markup is the context before, a caption, the removed or added lines,
    and the context after.
- **The line loop of `format_file`.** It handles:
  - `^title`, `^part`, `^template` and `^code` (any other command is fatal);
  - the `## Challenges` and `## Design Note:` headings;
  - level-2 and level-3 headers, numbered after the chapter and collected
    into the section navigation;
  - every other line, which passes through `pretty`;
  - the final check that puts one "Unused section" marker at the top of the
    chapter for every section never consumed, but only when the chapter has
    more than one section.

Modules:

- `wrappers.dfy`:
  - `Option` and `Result`, where `Fatal` stands for a Python exception;
  - the `BuildError` cases;
  - `Distinct`.
- `pytext.dfy`: the Python string operations the code uses, on `seq<char>`. These are:
  - `lstrip` and `rstrip`, plain and with a character, and `strip`;
  - `find` and `partition`;
  - `replace` and `*`;
  - `int()` and `str()`.
- `toc.dfy`: the table of contents, its page order and numbering table, and the page helpers.
- `codeformat.dfy`: `format_code`, as a method with its two peeling loops.
- `sections.dfy`:
  - parsing the `^code` argument;
  - the rendered section;
  - the `Resolve` specification of one reference;
  - the class `SectionTracker`, whose `sections` field is the dict that `include_section` mutates.
- `preprocessor.dfy`:
  - the specification of one loop pass (`Step`) and of the whole scan (`Scan`, `Chapter`);
  - the imperative loop `FormatChapter` with its per-line helpers;
  - the properties of the scan.

Several things are inputs to the model:
- The source-code indexer (`source_code.find_all`), given as `Env.findAll`. Each `^title` gets a fresh `SectionTracker` over its result.
- The chapter-number table (`NUMBERS`), given as `Env.numbers`.
- The markdown renderer's highlighting of a fenced block, given as a function `highlight`.

The source's exceptions are `Fatal` results.

## Model

| member | source | states |
|---|---|---|
| Toc.FlattenPages | util/build.py:298-309 | The result is `Pages(toc)`: each named part's own page, then its chapters, in table order; front and back matter add no part page |
| Toc.AppendPartPages | util/build.py:301-307 | One pass of the outer loop appends exactly the part's pages to the list so far |
| Toc.PagesMembers | util/build.py:298-309 | A string is a page exactly when it is the name of a named part or the name of some chapter |
| Toc.Roman | util/build.py:314-323 | A numeral exists exactly for `n < 10`; anything larger is the exception |
| Toc.RomanRoundTrip | util/build.py:314-323 | For 1..9 the numeral reads back as `n` under roman-numeral value, the subtractive "IV" included |
| Toc.RomanSpelling | util/build.py:314-323 | Only 4 is written with the subtractive rule: every other numeral from 1 to 9 has non-increasing symbols, all of them I or V, so 9 is "VIIII" |
| Toc.NumberChapters | util/build.py:325-346 | The loop computes the numbering table `Numbering(toc)`, or `None` once a part number has no numeral |
| Toc.NumberPartChapters | util/build.py:338-344 | The inner loop records "" for every matter chapter, or consecutive decimals from the running count, and advances the count only outside the matter |
| Toc.NumberingFailureSticks | util/build.py:322-323 | Once a prefix of the table fails in `roman`, the whole numbering fails |
| Toc.NumberingKeys | util/build.py:325-346 | The table has an entry for every page and for nothing else |
| Toc.NumberingOfParts | util/build.py:333-336 | With distinct page names, the k-th named part is numbered with the numeral of k |
| Toc.NumberingOfChapters | util/build.py:338-344 | With distinct page names, the k-th chapter of the named parts, counting across parts, is numbered with the decimal k |
| Toc.NumberingOfMatter | util/build.py:339-341 | Front- and back-matter chapters are numbered with the empty string |
| Toc.PartChapterNumber | util/build.py:338-344 | A named part's j-th chapter is numbered after the chapters of the named parts before it, plus j |
| Toc.LookUpChapters | util/build.py:424-436 | A title that names no part gives `[]`. For the first part with that name, the result pairs each chapter with the number recorded for the first chapter plus its position. A part without chapters, a missing key or a non-numeric number is the matching failure |
| Toc.LookUpFirstNumber | util/build.py:424-428 | A named part's first chapter is numbered one past the numbered chapters before the part |
| Toc.LookUpAgreesWithNumbering | util/build.py:424-436 | The numbers `look_up_chapters` counts up from the first chapter are those the numbering table records for each chapter |
| Toc.LookUpOfMatterFails | util/build.py:426-428 | For the unnamed matter part, the first chapter's number is "", which `int` rejects |
| Toc.TitleToFile | util/build.py:392-402 | A file name has no spaces, no upper-case ASCII letters and none of `,.?!:/"` |
| Toc.TitleToFileIdempotent | util/build.py:392-402 | A file name is its own file name |
| Toc.TitleToFileOfPlainTitle | util/build.py:392-402 | A title other than the two special pages and without `,.?!:/"` keeps its length, with every space a hyphen and every ASCII capital lower-cased |
| Toc.HeaderAnchor | util/build.py:624-625 | A header's anchor is its file name: the second removal of `.?!:/"` changes nothing |
| Toc.AdjacentPage | util/build.py:405-410 | The lookup fails exactly when the title is not a page |
| Toc.AdjacentOfDistinct | util/build.py:405-410 | With distinct pages, the neighbour of page k at offset d is page k+d, or none past either end |
| Toc.AdjacentInverse | util/build.py:405-410 | With distinct pages, b is next after a exactly when a is previous before b |
| Toc.PrettyReplacesAccents | util/build.py:413-421 | None of à, ï, ø, æ survives `pretty` |
| Toc.PrettyKeepsPlainText | util/build.py:413-421 | Text without hyphens and without those letters passes through unchanged |
| CodeFormat.FormatCode | util/build.py:439-457 | The peeled counts satisfy `Peeled`: every peeled line is blank, the kept lines neither start nor end blank, and an all-blank slice is peeled from the front. The markup is the fence around the kept lines |
| CodeFormat.FenceLines | util/build.py:440-457 | The markup is the opening fence with the language, each kept line and a newline, then the closing fence |
| CodeFormat.FormatCodeIsFormatted | util/build.py:439-457 | Any result meeting `FormatCode`'s contract is `Formatted(language, lines)`: the peeled counts are determined by the lines |
| CodeFormat.PeeledUnique | util/build.py:444-452 | At most one pair of counts satisfies the peeling conditions |
| CodeFormat.PeeledSplits | util/build.py:444-452 | The leading blanks, the kept lines and the trailing blanks give the slice back |
| CodeFormat.PeeledAllBlank | util/build.py:444-452 | A slice of blank lines is peeled wholly by the first loop |
| CodeFormat.FormattedPeels | util/build.py:444-452 | The counts `Formatted` computes satisfy the peeling conditions |
| CodeSections.ParseBeforeShape | util/build.py:478-481 | `N (B before)` followed by anything reads as section N (N > 0) with B lines before and none after |
| CodeSections.ParseAfterShape | util/build.py:483-486 | `N (A after)` followed by anything reads as section N with no lines before and A after |
| CodeSections.ParseAroundShape | util/build.py:488-492 | `N (B before, A after)` followed by anything reads as section N with B before and A after |
| CodeSections.ParseExample | util/build.py:488-492 | "4 (2 before, 3 after)" reads as section 4 with 2 lines before and 3 after |
| CodeSections.ParseBareShape | util/build.py:494-495 | A bare integer of either sign reads as that section with no context |
| CodeSections.ParseZeroWithContextFails | util/build.py:494-495 | Section 0 with context in any of the three shapes, `0 (B before)`, `0 (A after)` or `0 (B before, A after)`, falls back to `int(arg)` and fails |
| CodeSections.ReadCodeArg | util/build.py:474-495 | The argument-reading head of `include_section` computes `ParseCodeArg`: the three patterns in turn, later ones overriding, then `int(arg)` when no number or 0 came out |
| CodeSections.LastLines | util/build.py:517-518 | `lines[-n:]` for n > 0: the last `min(n, len)` lines |
| CodeSections.FirstLines | util/build.py:544-545 | `lines[:n]`: the first `min(n, len)` lines |
| CodeSections.ReplaceNoteShown | util/build.py:527-529 | The "replace k line(s)" note appears exactly when the section both removes and adds lines, and is plural exactly when more than one line is removed |
| CodeSections.LayoutOf | util/build.py:516-547 | Context blocks appear exactly when asked for. The removed lines show, as a deletion, only when nothing is added. Added lines are marked as an insertion exactly when shown with context |
| CodeSections.RenderSection | util/build.py:514-549 | The appended markup is `SectionHtml`: the wrapper div, the context before, the caption (the file path, the location when it is non-empty, then the replace note, built by `RenderWhere`), the body block and the context after |
| CodeSections.RenderBody | util/build.py:532-541 | The body block is the one `LayoutOf` chooses |
| CodeSections.FormatBlock | util/build.py:517-519 | `format_code` followed by the class replacement yields the `Html` of `Formatted` |
| CodeSections.Consume | util/build.py:509-510 | Consuming marks exactly the one entry; the keys, their order and every other entry stay |
| CodeSections.ResolveUndefined | util/build.py:497-500 | An undefined number leaves the dict unchanged and puts "Undefined section N" before the whole text and "Missing section N" after it |
| CodeSections.ResolveReused | util/build.py:502-505 | A consumed number leaves the dict unchanged and puts "Reused section N" on both sides |
| CodeSections.ResolveConsumes | util/build.py:507-551 | An available number consumes exactly that entry, so it leaves the available set. The keys and order stay, and the old text is a prefix of the new |
| CodeSections.ResolveKeepsKeys | util/build.py:497-551 | Whatever the outcome, the keys and order stay, and the available set can only shrink |
| CodeSections.ResolveRemovesNumber | util/build.py:497-510 | Every reference, undefined, reused or available, leaves its number unavailable and takes no other number away |
| CodeSections.ResolveTwice | util/build.py:502-510 | A second reference to a number already looked up takes the reuse path and changes nothing |
| CodeSections.PrependUnusedIsMarkers | util/build.py:652-654 | The check's loop yields one marker per available entry, in reverse dict order, in front of the text |
| CodeSections.UnusedNumbersAreAvailable | util/build.py:652-654 | The marked numbers are exactly the available entries, each once |
| CodeSections.ReportUnusedMarkers | util/build.py:651-654 | With at most one section the text is unchanged. Otherwise it gains exactly one marker per unconsumed section and no other |
| CodeSections.NothingUnused | util/build.py:651-654 | When every section was used, there are no markers |
| CodeSections.SectionTracker.constructor | util/build.py:600 | The tracker holds the dict the indexer returned for the title |
| CodeSections.SectionTracker.Include | util/build.py:473-551 | A non-numeric argument is fatal and leaves the dict alone. Otherwise the text and the dict become what `Resolve` gives for the parsed reference on the old dict |
| CodeSections.SectionTracker.ReportUnusedSections | util/build.py:651-654 | The loop over the dict's items computes `ReportUnused` |
| Preprocessor.FormatChapter | util/build.py:580-654 | The loop and the final check compute `Chapter(env, lines)`: the scan of the lines from the initial locals, stopping at the first failure, then the unused-section check |
| Preprocessor.ScanLine | util/build.py:584-646 | One pass over line i, given locals equal to the scan of the first i lines, yields the scan of the first i+1. The tracker afterwards holds the new dict, is the same object, or is fresh |
| Preprocessor.DirectiveLine | util/build.py:588-608 | The directive branch is `DirectiveStep`. After `^title` the tracker is a fresh object over the new dict; after any other command it is the same tracker, so `^code` consumes from the existing dict in place |
| Preprocessor.TextLine | util/build.py:610-646 | The other branches are `Step` and leave the dict alone |
| Preprocessor.HeaderLine | util/build.py:619-643 | The header branch yields the counters, number, navigation and text of `HeaderStep`, or its failure |
| Preprocessor.HeaderParts | util/build.py:621-623 | The header type and text split the line at its first space. Without a space the cut falls before the last character (`find` gives -1) |
| Preprocessor.HeaderPartsOf | util/build.py:621-623 | For hashes, a space and text, the type is the hashes and the rest is the space and the text |
| Preprocessor.SectionHeader | util/build.py:630-633 | `## text` fails exactly when the title has no number. Otherwise it advances the section count, resets the subsection count, numbers the header chapter.N and appends it to the navigation. The dict is unchanged and the old text is a prefix |
| Preprocessor.SubsectionHeader | util/build.py:634-636 | `### text` fails exactly when the title has no number. Otherwise it advances the subsection count and numbers chapter.N.M, leaving the navigation alone |
| Preprocessor.TopHeader | util/build.py:619-639 | `# text` fails exactly when no number has been set yet. Otherwise it reuses the last number and leaves counters and navigation alone |
| Preprocessor.ChapterNavigation | util/build.py:619-643 | The section navigation is `SectionTitles(lines)`, the texts of the chapter's level-2 headers in line order, paired with 1, 2, ... |
| Preprocessor.ScanNavigation | util/build.py:619-643 | After any number of lines the navigation is the numbered level-2 header texts so far, and the section count is their number |
| Preprocessor.StepNavigation | util/build.py:610-646 | One line appends its level-2 header text, if it has one, under the next section index, and otherwise leaves the navigation and the count alone |
| Preprocessor.NavigationEntryOf | util/build.py:610-643 | `## text` reaches the navigation with its pretty text unless it is the challenges or design-note heading; `# text` and `### text` do not |
| Preprocessor.DeepHeaderIsText | util/build.py:619-646 | A line of four or more hashes is not numbered: it is appended through `pretty` and nothing else changes |
| Preprocessor.ChallengesLine | util/build.py:610-612 | `## Challenges` is taken before the header numbering: it sets the flag, appends the heading, and keeps the counters, the number and the navigation |
| Preprocessor.DesignNoteCaption | util/build.py:614-617 | A design-note heading sets the caption to the line from the sixteenth character on, newline included, and appends the heading |
| Preprocessor.DropCaption | util/build.py:616 | For `## Design Note: caption` the caption is exactly the text after the space |
| Preprocessor.SplitDirectiveOf | util/build.py:589-590 | `^command arg\n` splits into the command and the argument |
| Preprocessor.StripDirectiveMarks | util/build.py:589 | The trailing newline and the leading caret come off a directive line |
| Preprocessor.PartitionAtFirstSpace | util/build.py:589 | The first space of `command arg` separates command and argument |
| Preprocessor.UnknownCommandFails | util/build.py:607-608 | Any command other than title, part, template and code stops the build with that command and argument |
| Preprocessor.TitleLoadsSections | util/build.py:592-600 | `^title` sets the title without soft hyphens and loads that title's sections afresh; an argument without `&` is the title unchanged |
| Preprocessor.CodeBeforeTitleFails | util/build.py:605-606 | `^code` before any `^title` fails: on the argument if it is not a number, else on the missing dict |
| Preprocessor.ScanStops | util/build.py:608 | A failure ends the scan: the result is that failure whatever lines follow |
| Preprocessor.NoTitleFails | util/build.py:651 | A chapter that never sets its title fails at the unused-section check |
| Preprocessor.ChapterReportsUnused | util/build.py:648-654 | The finished text is one marker per unconsumed section, when the chapter has more than one section, followed by the scanned text |
| Preprocessor.StepConsumption | util/build.py:588-608 | `^title` loads the dict for the new title; any other line keeps the title and uses up at most the number its `^code` names, keeping keys and order |
| Preprocessor.ScanConsumption | util/build.py:584-608 | After any lines, the dict is the one loaded at the last `^title` with exactly the numbers named by the `^code` lines since then used up |
| Preprocessor.ChapterConsumption | util/build.py:584-654 | Over a whole chapter the dict keeps the loaded keys and order, a section is used up exactly when a `^code` after the last `^title` names it, and the unused-section check marks exactly the sections available at load and never named |

## Left out

- Rendering and output:
  - the markdown rendering of the chapter (`markdown.markdown`);
  - the `<aside>`/`<div>` rewrites;
  - the jinja templates;
  - the page data dict;
  - writing the output file;
  - the word and chapter counts (lines 656-716).
  These are I/O or calls into libraries. The calls to `look_up_chapters` and `adjacent_page` there are modelled on their own, in `Toc`.
- The development server, the sass build and the up-to-date check on file modification times. These are I/O and clocks.
- `title_html` is assigned but never read, so it is not modelled.
- The `<pre>` class and `<br>` replacements (lines 462-470, 519, 534, 540, 546) are modelled as the class and the counts on the one `<pre>` element of a rendered block. The model assumes the renderer produces exactly one `<pre>` and no `</div>` inside highlighted code.
- Regex `\d` and `int()` accept only ASCII digits; `int()`'s underscores are not modelled. `lower()` is modelled for ASCII letters only. Each of these is a choice of character class for non-ASCII input.
- The `ValueError`, `KeyError`, `TypeError` and `UnboundLocalError` exceptions are `Fatal` results with a `BuildError` case. The messages are not modelled.
- Toc.NumberChapters: `roman` raising for a part number of ten or more is the result `None`, not a specific exception.
- The per-line work is split into helper methods (`DirectiveLine`, `TextLine`, `HeaderLine`). The loop's locals are passed in and out as values.
- The tracker is a fresh object per `^title`, so an earlier title's dict, still referenced elsewhere, is not modelled. The source rebinds `code_sections` the same way. The model assumes that `find_all` returns a dict that nothing else holds or mutates; the indexer is a cache kept across rebuilds, and `source_code` is not part of this model.
