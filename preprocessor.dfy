/**
 * The chapter preprocessor: the line-by-line scan `format_file` makes over a
 * chapter's markdown before it is rendered. Directive lines (`^title`,
 * `^part`, `^template`, `^code`) set the page's metadata or pull in code
 * sections; level-2 and level-3 headers are numbered after the chapter and
 * given anchors; the challenges and design-note headings are recognised;
 * every other line is passed through `pretty`. At the end, sections the
 * chapter never used are reported at its top.
 */
module Preprocessor {
  import opened Wrappers
  import opened Errors
  import opened PyText
  import opened CodeSections
  import Toc

  /** What the scan gets from the rest of the build. */
  datatype Env = Env(
    numbers: map<string, string>,      // `NUMBERS`: page title to its number
    findAll: string -> Sections,       // `source_code.find_all`: a chapter's code sections
    highlight: string -> string)       // the markdown renderer's highlighting of a fenced block

  /** The local variables of `format_file`'s loop. */
  datatype State = State(
    title: string,
    part: Option<string>,
    template: string,
    navigation: seq<(int, string)>,
    headerIndex: int,
    subheaderIndex: int,
    hasChallenges: bool,
    designNote: Option<string>,
    codeSections: Option<Sections>,
    number: Option<string>,
    contents: string)

  /** The values before the first line. */
  function Initial(): State {
    State("", None, "page", [], 0, 0, false, None, None, None, "")
  }

  /** What the scan hands on to the page renderer. */
  datatype ChapterPage = ChapterPage(
    title: string,
    part: Option<string>,
    template: string,
    navigation: seq<(int, string)>,
    designNote: Option<string>,
    hasChallenges: bool,
    contents: string)

  // ---- directives ------------------------------------------------------

  /** The command and argument of a `^` line: the newline and leading carets off, split at the first space. */
  function SplitDirective(stripped: string): (string, string) {
    var body := LStripChar(RStripChar(stripped, '\n'), '^');
    var (command, arg) := Partition(body, ' ');
    (command, Strip(arg))
  }

  /** `^code` on the dict the chapter has so far, or on none before any `^title`. */
  function CodeStep(env: Env, st: State, arg: string): Result<State, BuildError> {
    match ParseCodeArg(arg)
    case None => Fatal(NotAnInteger(arg))
    case Some(ref) =>
      match st.codeSections
      case None => Fatal(CodeBeforeTitle)
      case Some(d) =>
        var res := Resolve(d, ref, st.contents, env.highlight);
        Ok(st.(contents := res.contents, codeSections := Some(res.sections)))
  }

  function DirectiveStep(env: Env, st: State, stripped: string): Result<State, BuildError> {
    var (command, arg) := SplitDirective(stripped);
    if command == "title" then
      var title := ReplaceAll(arg, "&shy;", "");
      Ok(st.(title := title, codeSections := Some(env.findAll(title))))
    else if command == "part" then Ok(st.(part := Some(arg)))
    else if command == "template" then Ok(st.(template := arg))
    else if command == "code" then CodeStep(env, st, arg)
    else Fatal(UnknownCommand(command, arg))
  }

  // ---- headers ---------------------------------------------------------

  const ChallengesHeading := "<h2><a href=\"#challenges\" name=\"challenges\">Challenges</a></h2>\n"

  function DesignNoteHeading(note: string): string {
    "<h2><a href=\"#design-note\" name=\"design-note\">Design Note: " + note + "</a></h2>\n"
  }

  /** `s[k:]` in Python, for `k >= 0`. */
  function Drop(s: string, k: nat): string {
    if k <= |s| then s[k..] else ""
  }

  /**
   * The header's marker and text: split at the first space, or, when there is
   * none, before the last character (`find` gives -1, read as an index from the end).
   */
  function HeaderParts(stripped: string): (r: (string, string))
    requires stripped != []
    ensures Find(stripped, ' ') >= 0 ==> r.0 + r.1 == stripped && ' ' !in r.0 && r.1 != [] && r.1[0] == ' '
    ensures Find(stripped, ' ') < 0 ==> r.0 + r.1 == stripped && |r.1| == 1
  {
    var index := Find(stripped, ' ');
    var cut := if index < 0 then |stripped| - 1 else index;
    FindFacts(stripped, ' ');
    assert stripped[..cut] + stripped[cut..] == stripped;
    (stripped[..cut], stripped[cut..])
  }

  /** `&#8202;.&#8202;`, the thin-spaced dot between the parts of a header number. */
  const Dot := "&#8202;.&#8202;"

  function HeaderLink(anchor: string, number: string, header: string): string {
    "<a href=\"#" + anchor + "\" name=\"" + anchor + "\"><small>" + number + "</small> " + header + "</a>\n"
  }

  /**
   * A header line: levels 2 and 3 are numbered after the chapter (`##` resets
   * the subheader count, `###` counts within the last `##`); any other level
   * reuses the last number, which must exist.
   */
  function HeaderStep(env: Env, st: State, stripped: string, indentation: string): Result<State, BuildError>
    requires stripped != []
  {
    var (headerType, rest) := HeaderParts(stripped);
    var header := Toc.Pretty(Strip(rest));
    var anchor := Toc.HeaderAnchor(header);
    var level := |headerType|;
    if level == 2 || level == 3 then
      if st.title !in env.numbers then Fatal(MissingKey(st.title))
      else
        var headerIndex := if level == 2 then st.headerIndex + 1 else st.headerIndex;
        var subheaderIndex := if level == 2 then 0 else st.subheaderIndex + 1;
        var number := if level == 2 then env.numbers[st.title] + Dot + IntToString(headerIndex)
          else env.numbers[st.title] + Dot + IntToString(headerIndex) + Dot + IntToString(subheaderIndex);
        Ok(st.(
          headerIndex := headerIndex,
          subheaderIndex := subheaderIndex,
          number := Some(number),
          contents := st.contents + indentation + headerType + HeaderLink(anchor, number, header),
          navigation := if level == 2 then st.navigation + [(headerIndex, header)] else st.navigation))
    else
      match st.number
      case None => Fatal(HeaderNumberUnbound)
      case Some(number) =>
        Ok(st.(contents := st.contents + indentation + headerType + HeaderLink(anchor, number, header)))
  }

  // ---- one line, the whole chapter -------------------------------------

  /** One line of the chapter. */
  function Step(env: Env, st: State, line: string): Result<State, BuildError> {
    var stripped := LStrip(line);
    var indentation := line[..|line| - |stripped|];
    if StartsWith(stripped, "^") then DirectiveStep(env, st, stripped)
    else if StartsWith(stripped, "## Challenges") then
      Ok(st.(hasChallenges := true, contents := st.contents + ChallengesHeading))
    else if StartsWith(stripped, "## Design Note:") then
      var note := Drop(stripped, 16);
      Ok(st.(designNote := Some(note), contents := st.contents + DesignNoteHeading(note)))
    else if StartsWith(stripped, "#") && !StartsWith(stripped, "####") then
      HeaderStep(env, st, stripped, indentation)
    else Ok(st.(contents := st.contents + Toc.Pretty(line)))
  }

  /** The lines scanned in order from the initial values; the first failure ends the scan. */
  function Scan(env: Env, lines: seq<string>): Result<State, BuildError> {
    if lines == [] then Ok(Initial())
    else match Scan(env, lines[..|lines| - 1])
      case Fatal(e) => Fatal(e)
      case Ok(st) => Step(env, st, lines[|lines| - 1])
  }

  /** One more line: the scan so far, then that line. */
  lemma {:induction false} ScanSnoc(env: Env, lines: seq<string>, i: nat, st: State)
    requires i < |lines| && Scan(env, lines[..i]) == Ok(st)
    ensures Scan(env, lines[..i + 1]) == Step(env, st, lines[i])
  {
    assert lines[..i + 1][..i] == lines[..i];
  }

  /** After the scan: a chapter without `^title` has no dict, and the unused sections are reported. */
  function Finish(st: State): Result<ChapterPage, BuildError> {
    match st.codeSections
    case None => Fatal(NoTitle)
    case Some(d) =>
      Ok(ChapterPage(st.title, st.part, st.template, st.navigation, st.designNote, st.hasChallenges,
        ReportUnused(d, st.contents)))
  }

  /** The preprocessing of a whole chapter. */
  function Chapter(env: Env, lines: seq<string>): Result<ChapterPage, BuildError> {
    match Scan(env, lines)
    case Fatal(e) => Fatal(e)
    case Ok(st) => Finish(st)
  }

  /** A failure ends the scan: the lines after it are not looked at. */
  lemma {:induction false} ScanStops(env: Env, lines: seq<string>, k: nat, e: BuildError)
    requires k <= |lines| && Scan(env, lines[..k]) == Fatal(e)
    ensures Scan(env, lines) == Fatal(e) && Chapter(env, lines) == Fatal(e)
    decreases |lines| - k
  {
    if k < |lines| {
      assert lines[..k + 1][..k] == lines[..k];
      ScanStops(env, lines, k + 1, e);
    } else {
      assert lines[..k] == lines;
    }
  }

  // ---- properties of the scan -----------------------------------------

  lemma {:induction false} DirectiveKeepsNavigation(env: Env, st: State, stripped: string)
    ensures var r := DirectiveStep(env, st, stripped);
      r.Ok? ==> r.value.navigation == st.navigation && r.value.headerIndex == st.headerIndex
  {
  }

  /**
   * The level-2 header a line adds to the section navigation: the pretty text
   * of a header whose marker has two characters, and nothing for any other
   * line, the challenges and design-note headings included.
   */
  function NavigationEntry(line: string): Option<string> {
    var stripped := LStrip(line);
    if StartsWith(stripped, "^") || StartsWith(stripped, "## Challenges")
       || StartsWith(stripped, "## Design Note:") || !StartsWith(stripped, "#") || StartsWith(stripped, "####")
    then None
    else
      var (headerType, rest) := HeaderParts(stripped);
      if |headerType| == 2 then Some(Toc.Pretty(Strip(rest))) else None
  }

  /** The texts of a chapter's level-2 headers, in line order. */
  function SectionTitles(lines: seq<string>): seq<string> {
    if lines == [] then []
    else
      var entry := NavigationEntry(lines[|lines| - 1]);
      SectionTitles(lines[..|lines| - 1]) + (if entry.Some? then [entry.value] else [])
  }

  /** Titles paired with 1, 2, ... */
  function Numbered(titles: seq<string>): seq<(int, string)> {
    seq(|titles|, j requires 0 <= j < |titles| => (j + 1, titles[j]))
  }

  /** One line adds its level-2 header, if it has one, to the navigation under the next index. */
  lemma {:induction false} StepNavigation(env: Env, st: State, line: string)
    ensures var r := Step(env, st, line);
      r.Ok? ==>
        && r.value.headerIndex == st.headerIndex + (if NavigationEntry(line).Some? then 1 else 0)
        && r.value.navigation == st.navigation
             + (if NavigationEntry(line).Some? then [(st.headerIndex + 1, NavigationEntry(line).value)] else [])
  {
    var stripped := LStrip(line);
    var indentation := line[..|line| - |stripped|];
    if StartsWith(stripped, "^") {
      assert NavigationEntry(line) == None;
      DirectiveKeepsNavigation(env, st, stripped);
    } else if StartsWith(stripped, "## Challenges") || StartsWith(stripped, "## Design Note:") {
      assert NavigationEntry(line) == None;
    } else if StartsWith(stripped, "#") && !StartsWith(stripped, "####") {
      var (headerType, rest) := HeaderParts(stripped);
      assert NavigationEntry(line) == if |headerType| == 2 then Some(Toc.Pretty(Strip(rest))) else None;
      assert Step(env, st, line) == HeaderStep(env, st, stripped, indentation);
      HeaderStepNavigation(env, st, stripped, indentation);
    } else {
      assert NavigationEntry(line) == None;
    }
  }

  lemma {:induction false} HeaderStepNavigation(env: Env, st: State, stripped: string, indentation: string)
    requires stripped != []
    ensures var r := HeaderStep(env, st, stripped, indentation);
      var (headerType, rest) := HeaderParts(stripped);
      r.Ok? ==>
        && r.value.headerIndex == st.headerIndex + (if |headerType| == 2 then 1 else 0)
        && r.value.navigation == st.navigation
             + (if |headerType| == 2 then [(st.headerIndex + 1, Toc.Pretty(Strip(rest)))] else [])
  {
  }

  lemma {:induction false} NumberedSnoc(titles: seq<string>, h: string)
    ensures Numbered(titles) + [(|titles| + 1, h)] == Numbered(titles + [h])
  {
  }

  /** After any lines, the navigation is their level-2 header texts numbered 1, 2, ..., and the section count is how many. */
  lemma {:induction false} ScanNavigation(env: Env, lines: seq<string>)
    ensures Scan(env, lines).Ok? ==>
      && Scan(env, lines).value.navigation == Numbered(SectionTitles(lines))
      && Scan(env, lines).value.headerIndex == |SectionTitles(lines)|
  {
    if lines != [] {
      var init, last := lines[..|lines| - 1], lines[|lines| - 1];
      ScanNavigation(env, init);
      var prev := Scan(env, init);
      if prev.Ok? {
        var st := prev.value;
        var r := Step(env, st, last);
        assert Scan(env, lines) == r;
        StepNavigation(env, st, last);
        var t := SectionTitles(init);
        var entry := NavigationEntry(last);
        assert SectionTitles(lines) == t + (if entry.Some? then [entry.value] else []);
        if entry.Some? {
          NumberedSnoc(t, entry.value);
        } else {
          assert t + [] == t;
        }
      }
    }
  }

  /**
   * The page's section navigation lists the texts of the chapter's level-2
   * headers in line order, numbered 1, 2, ...
   */
  lemma {:induction false} ChapterNavigation(env: Env, lines: seq<string>)
    ensures Chapter(env, lines).Ok? ==> Chapter(env, lines).value.navigation == Numbered(SectionTitles(lines))
  {
    ScanNavigation(env, lines);
  }

  /**
   * Which header lines reach the navigation: `## text` does, with its pretty
   * text, unless it is the challenges or design-note heading; `# text` and
   * `### text` do not.
   */
  lemma {:induction false} NavigationEntryOf(text: string)
    ensures !StartsWith(text, "Challenges") && !StartsWith(text, "Design Note:") ==>
      NavigationEntry("## " + text) == Some(Toc.Pretty(Strip(" " + text)))
    ensures StartsWith(text, "Challenges") || StartsWith(text, "Design Note:") ==>
      NavigationEntry("## " + text) == None
    ensures NavigationEntry("# " + text) == None
    ensures NavigationEntry("### " + text) == None
  {
    SectionEntry(text);
    OtherLevelEntry("#", text);
    assert "#" + " " + text == "# " + text;
    OtherLevelEntry("###", text);
    assert "###" + " " + text == "### " + text;
  }

  lemma {:induction false} SectionEntry(text: string)
    ensures !StartsWith(text, "Challenges") && !StartsWith(text, "Design Note:") ==>
      NavigationEntry("## " + text) == Some(Toc.Pretty(Strip(" " + text)))
    ensures StartsWith(text, "Challenges") || StartsWith(text, "Design Note:") ==>
      NavigationEntry("## " + text) == None
  {
    var line := "## " + text;
    HeaderLineStripped(line);
    StartsWithPrefixed("## ", text, "Challenges");
    StartsWithPrefixed("## ", text, "Design Note:");
    assert "## " + "Challenges" == "## Challenges";
    assert "## " + "Design Note:" == "## Design Note:";
    assert !StartsWith(line, "^") && !StartsWith(line, "####") by { assert line[2] == ' '; }
    assert line == "##" + " " + text;
    HeaderPartsOf("##", text);
  }

  /** A header of one or three hashes adds nothing to the navigation. */
  lemma {:induction false} OtherLevelEntry(hashes: string, text: string)
    requires hashes == "#" || hashes == "###"
    ensures NavigationEntry(hashes + " " + text) == None
  {
    var line := hashes + " " + text;
    assert line[0] == '#' && line[|hashes|] == ' ';
    HeaderLineStripped(line);
    assert !StartsWith(line, "^") && !StartsWith(line, "####");
    HeaderPartsOf(hashes, text);
  }

  /** A line of four or more hashes is not a numbered header: it passes through `pretty` like text. */
  lemma {:induction false} DeepHeaderIsText(env: Env, st: State, line: string)
    requires StartsWith(LStrip(line), "####")
    ensures Step(env, st, line) == Ok(st.(contents := st.contents + Toc.Pretty(line)))
  {
    var stripped := LStrip(line);
    assert stripped[0] == '#';
    assert !StartsWith(stripped, "^");
    assert !StartsWith(stripped, "## Challenges") by { assert stripped[2] == '#'; }
    assert !StartsWith(stripped, "## Design Note:") by { assert stripped[2] == '#'; }
  }

  /**
   * `## Challenges` is taken before the header numbering: it sets the flag and
   * appends the heading, and the counters, the number and the navigation stay.
   */
  lemma {:induction false} ChallengesLine(env: Env, st: State, line: string)
    requires StartsWith(LStrip(line), "## Challenges")
    ensures Step(env, st, line) == Ok(st.(hasChallenges := true, contents := st.contents + ChallengesHeading))
    ensures var r := Step(env, st, line).value;
      && r.headerIndex == st.headerIndex && r.subheaderIndex == st.subheaderIndex
      && r.number == st.number && r.navigation == st.navigation
  {
    var stripped := LStrip(line);
    assert stripped[..13] == "## Challenges";
    assert stripped[0] == '#';
    assert !StartsWith(stripped, "^");
  }

  /** A marker of hashes, a space and the text: the marker is the header type and the rest its text. */
  lemma {:induction false} HeaderPartsOf(hashes: string, text: string)
    requires hashes != [] && ' ' !in hashes
    ensures HeaderParts(hashes + " " + text) == (hashes, " " + text)
  {
    var s := hashes + " " + text;
    assert s == hashes + [' '] + text;
    FindAfterPrefix(hashes, ' ', text);
    assert s[..|hashes|] == hashes && s[|hashes|..] == " " + text;
  }

  /** A line that starts with `#` is its own stripped form. */
  lemma {:induction false} HeaderLineStripped(line: string)
    requires line != [] && line[0] == '#'
    ensures LStrip(line) == line
  {
  }

  /** A header line that is neither the challenges nor the design-note heading goes to `HeaderStep`. */
  lemma {:induction false} StepOfHeader(env: Env, st: State, line: string)
    requires var stripped := LStrip(line);
      && StartsWith(stripped, "#") && !StartsWith(stripped, "####")
      && !StartsWith(stripped, "## Challenges") && !StartsWith(stripped, "## Design Note:")
    ensures Step(env, st, line) == HeaderStep(env, st, LStrip(line), line[..|line| - |LStrip(line)|])
  {
    assert LStrip(line)[0] == '#';
  }

  /**
   * `## text`: the next section number of the chapter, the subsection count
   * reset, and an entry in the navigation list; fatal when the chapter's
   * title has no number.
   */
  lemma {:induction false} SectionHeader(env: Env, st: State, text: string, indentation: string)
    ensures var r := HeaderStep(env, st, "## " + text, indentation);
      && (r.Fatal? <==> st.title !in env.numbers)
      && (r.Fatal? ==> r.error == MissingKey(st.title))
      && (r.Ok? ==>
        && r.value.headerIndex == st.headerIndex + 1
        && r.value.subheaderIndex == 0
        && r.value.number == Some(env.numbers[st.title] + Dot + IntToString(st.headerIndex + 1))
        && r.value.navigation == st.navigation + [(st.headerIndex + 1, Toc.Pretty(Strip(" " + text)))]
        && r.value.codeSections == st.codeSections
        && StartsWith(r.value.contents, st.contents))
  {
    assert "## " + text == "##" + " " + text;
    HeaderPartsOf("##", text);
    var r := HeaderStep(env, st, "## " + text, indentation);
    if r.Ok? {
      assert r.value.contents[..|st.contents|] == st.contents;
    }
  }

  /**
   * `### text`: the next subsection number within the current section; the
   * navigation list is left alone.
   */
  lemma {:induction false} SubsectionHeader(env: Env, st: State, text: string, indentation: string)
    ensures var r := HeaderStep(env, st, "### " + text, indentation);
      && (r.Fatal? <==> st.title !in env.numbers)
      && (r.Fatal? ==> r.error == MissingKey(st.title))
      && (r.Ok? ==>
        && r.value.headerIndex == st.headerIndex
        && r.value.subheaderIndex == st.subheaderIndex + 1
        && r.value.number == Some(env.numbers[st.title] + Dot + IntToString(st.headerIndex)
             + Dot + IntToString(st.subheaderIndex + 1))
        && r.value.navigation == st.navigation
        && r.value.codeSections == st.codeSections
        && StartsWith(r.value.contents, st.contents))
  {
    assert "### " + text == "###" + " " + text;
    HeaderPartsOf("###", text);
    var r := HeaderStep(env, st, "### " + text, indentation);
    if r.Ok? {
      assert r.value.contents[..|st.contents|] == st.contents;
    }
  }

  /** `# text` has no number of its own: it reuses the last one, and fails when there is none yet. */
  lemma {:induction false} TopHeader(env: Env, st: State, text: string, indentation: string)
    ensures var r := HeaderStep(env, st, "# " + text, indentation);
      && (r.Fatal? <==> st.number.None?)
      && (r.Fatal? ==> r.error == HeaderNumberUnbound)
      && (r.Ok? ==>
        && r.value.number == st.number
        && r.value.headerIndex == st.headerIndex
        && r.value.subheaderIndex == st.subheaderIndex
        && r.value.navigation == st.navigation)
  {
    assert "# " + text == "#" + " " + text;
    HeaderPartsOf("#", text);
  }

  /**
   * A design-note heading: the caption is the line from the sixteenth
   * character on, so it keeps the line's newline.
   */
  lemma {:induction false} DesignNoteCaption(env: Env, st: State, line: string)
    requires StartsWith(LStrip(line), "## Design Note:")
    ensures var caption := Drop(LStrip(line), 16);
      Step(env, st, line) == Ok(st.(designNote := Some(caption), contents := st.contents + DesignNoteHeading(caption)))
  {
    var stripped := LStrip(line);
    assert stripped[..15] == "## Design Note:";
    assert stripped[..1][0] == '#';
    assert stripped[..13][3] == 'D';
    assert !StartsWith(stripped, "^") && !StartsWith(stripped, "## Challenges");
  }

  lemma {:induction false} DropCaption(caption: string)
    ensures Drop("## Design Note: " + caption, 16) == caption
  {
    assert |"## Design Note: "| == 16;
  }

  /** A directive line `^command arg` as written in a chapter. */
  lemma {:induction false} SplitDirectiveOf(command: string, arg: string)
    requires command != [] && command[0] != '^' && ' ' !in command
    requires arg != [] && !IsSpace(arg[0]) && !IsSpace(arg[|arg| - 1])
    ensures SplitDirective("^" + command + " " + arg + "\n") == (command, arg)
  {
    var line := command + " " + arg;
    var body := "^" + line;
    assert "^" + command + " " + arg + "\n" == body + "\n";
    StripDirectiveMarks(line);
    PartitionAtFirstSpace(command, arg);
    StripNoSpace(arg);
  }

  /** The newline and the caret come off a directive line that has no more of either at its ends. */
  lemma {:induction false} StripDirectiveMarks(line: string)
    requires line != [] && line[0] != '^' && line[|line| - 1] != '\n'
    ensures LStripChar(RStripChar("^" + line + "\n", '\n'), '^') == line
  {
    var body := "^" + line;
    var s := body + "\n";
    assert s[..|s| - 1] == body;
    assert RStripChar(s, '\n') == RStripChar(body, '\n');
    assert body[|body| - 1] == line[|line| - 1];
    assert RStripChar(body, '\n') == body;
    assert body[1..] == line;
    assert LStripChar(body, '^') == LStripChar(line, '^');
  }

  /** The first space of `command arg` is the one after the command. */
  lemma {:induction false} PartitionAtFirstSpace(command: string, arg: string)
    requires ' ' !in command
    ensures Partition(command + " " + arg, ' ') == (command, arg)
  {
    assert command + " " + arg == command + [' '] + arg;
    PartitionAfterPrefix(command, ' ', arg);
  }

  /** A command other than the four the book uses stops the build. */
  lemma {:induction false} UnknownCommandFails(env: Env, st: State, line: string)
    requires StartsWith(LStrip(line), "^")
    requires SplitDirective(LStrip(line)).0 !in {"title", "part", "template", "code"}
    ensures Step(env, st, line) == Fatal(UnknownCommand(SplitDirective(LStrip(line)).0, SplitDirective(LStrip(line)).1))
  {
  }

  /** `^title` loads the chapter's sections afresh, under the title without its soft hyphens. */
  lemma {:induction false} TitleLoadsSections(env: Env, st: State, line: string)
    requires StartsWith(LStrip(line), "^") && SplitDirective(LStrip(line)).0 == "title"
    ensures var title := ReplaceAll(SplitDirective(LStrip(line)).1, "&shy;", "");
      && Step(env, st, line) == Ok(st.(title := title, codeSections := Some(env.findAll(title))))
      && ('&' !in SplitDirective(LStrip(line)).1 ==> title == SplitDirective(LStrip(line)).1)
  {
    var arg := SplitDirective(LStrip(line)).1;
    if '&' !in arg {
      MissingCharNotOccurs(arg, "&shy;", 0);
      ReplaceAbsent(arg, "&shy;", "");
    }
  }

  /** `^code` before any `^title` fails: on the argument if it is no number, else on the missing dict. */
  lemma {:induction false} CodeBeforeTitleFails(env: Env, st: State, arg: string)
    requires st.codeSections.None?
    ensures CodeStep(env, st, arg) == Fatal(if ParseCodeArg(arg).None? then NotAnInteger(arg) else CodeBeforeTitle)
  {
  }

  /** A chapter that never sets its title fails at the unused-section check. */
  lemma {:induction false} NoTitleFails(env: Env, lines: seq<string>)
    requires Scan(env, lines).Ok? && Scan(env, lines).value.codeSections.None?
    ensures Chapter(env, lines) == Fatal(NoTitle)
  {
  }

  /** The finished chapter starts with one marker per section left unused, when the chapter has several. */
  lemma {:induction false} ChapterReportsUnused(env: Env, lines: seq<string>)
    requires Scan(env, lines).Ok? && Scan(env, lines).value.codeSections.Some?
    ensures var st := Scan(env, lines).value;
      var d := st.codeSections.value;
      && Chapter(env, lines).Ok?
      && Chapter(env, lines).value.contents
           == (if |d.entries| > 1 then Markers(UnusedNumbers(d.order, d.entries)) else "") + st.contents
  {
    var st := Scan(env, lines).value;
    ReportUnusedMarkers(st.codeSections.value, st.contents);
    if |st.codeSections.value.entries| <= 1 {
      assert "" + st.contents == st.contents;
    }
  }

  // ---- section consumption over a chapter ------------------------------

  /** Whether a line is a `^title` directive. */
  predicate IsTitleLine(line: string) {
    var stripped := LStrip(line);
    StartsWith(stripped, "^") && SplitDirective(stripped).0 == "title"
  }

  /** The section number a `^code` line refers to, when its argument reads as one. */
  function CodeReference(line: string): Option<int> {
    var stripped := LStrip(line);
    if StartsWith(stripped, "^") && SplitDirective(stripped).0 == "code" then
      match ParseCodeArg(SplitDirective(stripped).1)
      case None => None
      case Some(ref) => Some(ref.number)
    else None
  }

  function AsSet(o: Option<int>): set<int> {
    if o.Some? then {o.value} else {}
  }

  /** The section numbers that the `^code` lines after the last `^title` refer to. */
  function Referenced(lines: seq<string>): set<int> {
    if lines == [] then {}
    else if IsTitleLine(lines[|lines| - 1]) then {}
    else Referenced(lines[..|lines| - 1]) + AsSet(CodeReference(lines[|lines| - 1]))
  }

  /** `d` is the `loaded` dict with the `referenced` numbers used up: same keys and order, fewer available. */
  predicate ConsumedFrom(d: Sections, loaded: Sections, referenced: set<int>) {
    && d.order == loaded.order
    && d.entries.Keys == loaded.entries.Keys
    && AvailableNumbers(d) == AvailableNumbers(loaded) - referenced
  }

  /** `^code` uses up the number it names in the dict it runs on, and changes neither title nor keys. */
  lemma {:induction false} CodeStepConsumption(env: Env, st: State, arg: string)
    requires CodeStep(env, st, arg).Ok?
    ensures ParseCodeArg(arg).Some? && st.codeSections.Some?
    ensures var st' := CodeStep(env, st, arg).value;
      && st'.title == st.title && st'.codeSections.Some?
      && ConsumedFrom(st'.codeSections.value, st.codeSections.value, {ParseCodeArg(arg).value.number})
  {
    var ref := ParseCodeArg(arg).value;
    var d := st.codeSections.value;
    ResolveKeepsKeys(d, ref, st.contents, env.highlight);
    ResolveRemovesNumber(d, ref, st.contents, env.highlight);
  }

  /** A line that is not a directive keeps the title and the dict. */
  lemma {:induction false} TextStepKeepsSections(env: Env, st: State, line: string)
    requires !StartsWith(LStrip(line), "^") && Step(env, st, line).Ok?
    ensures Step(env, st, line).value.title == st.title
    ensures Step(env, st, line).value.codeSections == st.codeSections
  {
    var stripped := LStrip(line);
    var indentation := line[..|line| - |stripped|];
    if StartsWith(stripped, "## Challenges") || StartsWith(stripped, "## Design Note:") {
    } else if StartsWith(stripped, "#") && !StartsWith(stripped, "####") {
      assert Step(env, st, line) == HeaderStep(env, st, stripped, indentation);
    } else {
      assert Step(env, st, line) == Ok(st.(contents := st.contents + Toc.Pretty(line)));
    }
  }

  /**
   * One line: `^title` loads the dict for the new title; any other line keeps
   * the title and uses up at most the number its `^code` names.
   */
  lemma {:induction false} StepConsumption(env: Env, st: State, line: string)
    requires Step(env, st, line).Ok?
    ensures var st' := Step(env, st, line).value;
      && (IsTitleLine(line) ==> st'.codeSections == Some(env.findAll(st'.title)))
      && (!IsTitleLine(line) ==>
        && st'.title == st.title
        && (st.codeSections.None? ==> st'.codeSections.None?)
        && (st.codeSections.Some? ==>
              && st'.codeSections.Some?
              && ConsumedFrom(st'.codeSections.value, st.codeSections.value, AsSet(CodeReference(line)))))
  {
    var stripped := LStrip(line);
    if !StartsWith(stripped, "^") {
      TextStepKeepsSections(env, st, line);
      assert CodeReference(line) == None;
    } else {
      var (command, arg) := SplitDirective(stripped);
      assert Step(env, st, line) == DirectiveStep(env, st, stripped);
      if command == "code" {
        assert DirectiveStep(env, st, stripped) == CodeStep(env, st, arg);
        CodeStepConsumption(env, st, arg);
      } else {
        assert CodeReference(line) == None;
      }
    }
  }

  lemma {:induction false} ConsumedFromTrans(d1: Sections, d2: Sections, d3: Sections, r1: set<int>, r2: set<int>)
    requires ConsumedFrom(d2, d1, r1) && ConsumedFrom(d3, d2, r2)
    ensures ConsumedFrom(d3, d1, r1 + r2)
  {
  }

  /** After any lines, the dict is the one loaded for the title with the numbers referenced since used up. */
  lemma {:induction false} ScanConsumption(env: Env, lines: seq<string>)
    ensures Scan(env, lines).Ok? && Scan(env, lines).value.codeSections.Some? ==>
      ConsumedFrom(Scan(env, lines).value.codeSections.value, env.findAll(Scan(env, lines).value.title), Referenced(lines))
  {
    if lines != [] {
      var init, last := lines[..|lines| - 1], lines[|lines| - 1];
      ScanConsumption(env, init);
      var prev := Scan(env, init);
      if prev.Ok? {
        var st := prev.value;
        assert Scan(env, lines) == Step(env, st, last);
        if Step(env, st, last).Ok? {
          var st' := Step(env, st, last).value;
          StepConsumption(env, st, last);
          if IsTitleLine(last) {
            assert Referenced(lines) == {};
          } else if st.codeSections.Some? {
            assert Referenced(lines) == Referenced(init) + AsSet(CodeReference(last));
            ConsumedFromTrans(env.findAll(st.title), st.codeSections.value, st'.codeSections.value,
              Referenced(init), AsSet(CodeReference(last)));
          }
        }
      }
    }
  }

  /**
   * Over a whole chapter, each section of the dict loaded at the last `^title`
   * is used up exactly when some `^code` line after that title names it, and
   * the unused-section check marks exactly the sections that were available
   * and never named.
   */
  lemma {:induction false} ChapterConsumption(env: Env, lines: seq<string>, st: State)
    requires Scan(env, lines) == Ok(st) && st.codeSections.Some?
    ensures var d, loaded := st.codeSections.value, env.findAll(st.title);
      && d.order == loaded.order
      && d.entries.Keys == loaded.entries.Keys
      && AvailableNumbers(d) == AvailableNumbers(loaded) - Referenced(lines)
      && forall k :: k in UnusedNumbers(d.order, d.entries) <==>
           k in loaded.entries && loaded.entries[k].Available? && k !in Referenced(lines)
  {
    ScanConsumption(env, lines);
    var d := st.codeSections.value;
    ReportUnusedMarkers(d, st.contents);
  }

  // ---- the loop of `format_file` ---------------------------------------

  /**
   * The header branch of the loop: the anchor, the number after the
   * chapter's, the link appended to the text and, for `##`, the navigation
   * entry. Gives the new counters, number, navigation and text.
   */
  method HeaderLine(env: Env, ghost st: State, title: string, headerIndex: int, subheaderIndex: int,
    number: Option<string>, navigation: seq<(int, string)>, contents: string, stripped: string, indentation: string)
    returns (r: Result<(int, int, Option<string>, seq<(int, string)>, string), BuildError>)
    requires stripped != []
    requires st.title == title && st.headerIndex == headerIndex && st.subheaderIndex == subheaderIndex
    requires st.number == number && st.navigation == navigation && st.contents == contents
    ensures r.Fatal? ==> HeaderStep(env, st, stripped, indentation) == Fatal(r.error)
    ensures r.Ok? ==>
      HeaderStep(env, st, stripped, indentation) == Ok(st.(headerIndex := r.value.0, subheaderIndex := r.value.1, number := r.value.2,
                navigation := r.value.3, contents := r.value.4))
  {
    var (headerType, rest) := HeaderParts(stripped);
    var header := Toc.Pretty(Strip(rest));
    var anchor := Toc.HeaderAnchor(header);
    var text := contents + indentation + headerType;
    var headerIndex, subheaderIndex, number, navigation := headerIndex, subheaderIndex, number, navigation;
    if |headerType| == 2 || |headerType| == 3 {
      if title !in env.numbers {
        return Fatal(MissingKey(title));
      }
      if |headerType| == 2 {
        headerIndex := headerIndex + 1;
        subheaderIndex := 0;
        number := Some(env.numbers[title] + Dot + IntToString(headerIndex));
      } else {
        subheaderIndex := subheaderIndex + 1;
        number := Some(env.numbers[title] + Dot + IntToString(headerIndex) + Dot + IntToString(subheaderIndex));
      }
    }
    if number.None? {
      return Fatal(HeaderNumberUnbound);
    }
    text := text + HeaderLink(anchor, number.value, header);
    if |headerType| == 2 {
      navigation := navigation + [(headerIndex, header)];
    }
    r := Ok((headerIndex, subheaderIndex, number, navigation, text));
  }

  /**
   * The directive branch of the loop: `^title` replaces the tracker of the
   * chapter's code sections, `^code` consumes from it in place.
   */
  method DirectiveLine(env: Env, st: State, stripped: string, tracker: SectionTracker?)
    returns (r: Result<State, BuildError>, tracker': SectionTracker?)
    requires st.codeSections == if tracker == null then None else Some(tracker.sections)
    modifies tracker
    ensures r == DirectiveStep(env, st, stripped)
    ensures r.Ok? ==> r.value.codeSections == if tracker' == null then None else Some(tracker'.sections)
    ensures tracker' != null ==> tracker' == tracker || fresh(tracker')
    ensures SplitDirective(stripped).0 == "title" ==> tracker' != null && fresh(tracker')
    ensures SplitDirective(stripped).0 != "title" ==> tracker' == tracker
  {
    tracker' := tracker;
    var (command, arg) := SplitDirective(stripped);
    if command == "title" {
      var title := ReplaceAll(arg, "&shy;", "");
      tracker' := new SectionTracker(env.findAll(title));
      r := Ok(st.(title := title, codeSections := Some(env.findAll(title))));
    } else if command == "part" {
      r := Ok(st.(part := Some(arg)));
    } else if command == "template" {
      r := Ok(st.(template := arg));
    } else if command == "code" {
      assert DirectiveStep(env, st, stripped) == CodeStep(env, st, arg);
      var ref := ReadCodeArg(arg);
      if ref.None? || tracker == null {
        return if ref.None? then Fatal(NotAnInteger(arg)) else Fatal(CodeBeforeTitle), tracker';
      }
      var included := tracker.Include(arg, st.contents, env.highlight);
      r := Ok(st.(contents := included.value, codeSections := Some(tracker.sections)));
    } else {
      r := Fatal(UnknownCommand(command, arg));
    }
  }

  /** Every other branch of the loop: the two special headings, numbered headers and plain text. */
  method TextLine(env: Env, st: State, line: string) returns (r: Result<State, BuildError>)
    requires !StartsWith(LStrip(line), "^")
    ensures r == Step(env, st, line)
    ensures r.Ok? ==> r.value.codeSections == st.codeSections
  {
    var stripped := LStrip(line);
    var indentation := line[..|line| - |stripped|];
    if StartsWith(stripped, "## Challenges") {
      r := Ok(st.(hasChallenges := true, contents := st.contents + ChallengesHeading));
    } else if StartsWith(stripped, "## Design Note:") {
      var note := Drop(stripped, 16);
      r := Ok(st.(designNote := Some(note), contents := st.contents + DesignNoteHeading(note)));
    } else if StartsWith(stripped, "#") && !StartsWith(stripped, "####") {
      assert Step(env, st, line) == HeaderStep(env, st, stripped, indentation);
      var h := HeaderLine(env, st, st.title, st.headerIndex, st.subheaderIndex, st.number, st.navigation,
        st.contents, stripped, indentation);
      if h.Fatal? {
        return Fatal(h.error);
      }
      r := Ok(st.(headerIndex := h.value.0, subheaderIndex := h.value.1, number := h.value.2,
        navigation := h.value.3, contents := h.value.4));
    } else {
      r := Ok(st.(contents := st.contents + Toc.Pretty(line)));
    }
  }

  /**
   * One pass of the loop of `format_file` over a line, given its local
   * variables and the tracker of the chapter's code sections.
   */
  method ScanLine(env: Env, line: string, title: string, part: Option<string>, template: string,
    navigation: seq<(int, string)>, headerIndex: int, subheaderIndex: int, hasChallenges: bool,
    designNote: Option<string>, number: Option<string>, contents: string, tracker: SectionTracker?,
    ghost lines: seq<string>, ghost i: nat)
    returns (r: Result<State, BuildError>, tracker': SectionTracker?)
    requires i < |lines| && lines[i] == line
    requires Scan(env, lines[..i]) == Ok(State(title, part, template, navigation, headerIndex, subheaderIndex,
      hasChallenges, designNote, if tracker == null then None else Some(tracker.sections), number, contents))
    modifies tracker
    ensures r == Scan(env, lines[..i + 1])
    ensures r.Ok? ==> r.value.codeSections == if tracker' == null then None else Some(tracker'.sections)
    ensures tracker' != null ==> tracker' == tracker || fresh(tracker')
  {
    var st := State(title, part, template, navigation, headerIndex, subheaderIndex, hasChallenges,
      designNote, if tracker == null then None else Some(tracker.sections), number, contents);
    ScanSnoc(env, lines, i, st);
    var stripped := LStrip(line);
    if StartsWith(stripped, "^") {
      assert Step(env, st, line) == DirectiveStep(env, st, stripped);
      r, tracker' := DirectiveLine(env, st, stripped, tracker);
    } else {
      r := TextLine(env, st, line);
      tracker' := tracker;
    }
  }

  /**
   * `format_file` from reading the chapter to the unused-section check: the
   * loop over the lines with its local variables, the code sections held by
   * a tracker that `^code` consumes in place.
   */
  method FormatChapter(env: Env, lines: seq<string>) returns (r: Result<ChapterPage, BuildError>)
    ensures r == Chapter(env, lines)
  {
    var title := "";
    var part: Option<string> := None;
    var template := "page";
    var navigation: seq<(int, string)> := [];
    var headerIndex := 0;
    var subheaderIndex := 0;
    var hasChallenges := false;
    var designNote: Option<string> := None;
    var tracker: SectionTracker? := null;
    var number: Option<string> := None;
    var contents := "";
    for i := 0 to |lines|
      invariant tracker != null ==> fresh(tracker)
      invariant Scan(env, lines[..i]) == Ok(State(title, part, template, navigation, headerIndex, subheaderIndex,
        hasChallenges, designNote, if tracker == null then None else Some(tracker.sections), number, contents))
    {
      var next, t := ScanLine(env, lines[i], title, part, template, navigation, headerIndex, subheaderIndex,
        hasChallenges, designNote, number, contents, tracker, lines, i);
      if next.Fatal? {
        ScanStops(env, lines, i + 1, next.error);
        return Fatal(next.error);
      }
      var st := next.value;
      title, part, template, navigation := st.title, st.part, st.template, st.navigation;
      headerIndex, subheaderIndex, hasChallenges := st.headerIndex, st.subheaderIndex, st.hasChallenges;
      designNote, number, contents := st.designNote, st.number, st.contents;
      tracker := t;
      assert next.value == State(title, part, template, navigation, headerIndex, subheaderIndex,
        hasChallenges, designNote, if tracker == null then None else Some(tracker.sections), number, contents);
    }
    assert lines[..|lines|] == lines;
    if tracker == null {
      return Fatal(NoTitle);
    }
    contents := tracker.ReportUnusedSections(contents);
    r := Ok(ChapterPage(title, part, template, navigation, designNote, hasChallenges, contents));
  }
}
