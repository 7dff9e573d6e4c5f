/**
 * The section consumption tracker. A chapter's code sections come from the
 * source-code indexer as a dict from section number to section; each `^code`
 * directive resolves one number against it, consuming the entry, and every
 * defect (an undefined number, a reused one, a section never used) is written
 * into the chapter as visible error text instead of stopping the build.
 */
module CodeSections {
  import opened Wrappers
  import opened Errors
  import opened Seqs
  import opened PyText
  import opened CodeFormat

  /** One numbered slice of the book's code. */
  datatype Section = Section(
    language: string,
    nicePath: string,
    location: Option<string>,
    contextBefore: seq<string>,
    contextAfter: seq<string>,
    removed: seq<string>,
    added: seq<string>)

  /** A section still to be shown, or one already consumed (`False` in the dict). */
  datatype Entry = Available(section: Section) | Consumed

  /** A dict from section number to entry; iteration follows `order`, the insertion order. */
  datatype SectionDict = SectionDict(order: seq<int>, entries: map<int, Entry>)

  predicate ValidDict(d: SectionDict) {
    Distinct(d.order) && d.entries.Keys == set k | k in d.order
  }

  type Sections = d: SectionDict | ValidDict(d) witness SectionDict([], map[])

  /** The numbers of the sections not consumed yet. */
  function AvailableNumbers(d: Sections): set<int> {
    set k | k in d.entries && d.entries[k].Available?
  }

  // ---- the `^code` argument ----------------------------------------------

  /** A code reference: a section number and how many context lines to show before and after it. */
  datatype CodeRef = CodeRef(number: int, before: nat, after: nat)

  /** `\d+` at the start of `s` (greedy, so the next character is not a digit): its value and the rest. */
  function Number(s: string): Option<(nat, string)> {
    var digits := DigitPrefix(s);
    if digits == [] then None else Some((DigitsValue(digits), s[|digits|..]))
  }

  /** The rest of `s` after the literal `lit`. */
  function Literal(s: string, lit: string): Option<string> {
    if StartsWith(s, lit) then Some(s[|lit|..]) else None
  }

  /** `re.match(r'(\d+) \((\d+) before\)', arg)`: the pattern at the start of `arg`, anything after it. */
  function MatchBefore(arg: string): Option<(nat, nat)> {
    match Number(arg)
    case None => None
    case Some((n, r1)) =>
      match Literal(r1, " (")
      case None => None
      case Some(r2) =>
        match Number(r2)
        case None => None
        case Some((b, r3)) => if StartsWith(r3, " before)") then Some((n, b)) else None
  }

  /** `re.match(r'(\d+) \((\d+) after\)', arg)` */
  function MatchAfter(arg: string): Option<(nat, nat)> {
    match Number(arg)
    case None => None
    case Some((n, r1)) =>
      match Literal(r1, " (")
      case None => None
      case Some(r2) =>
        match Number(r2)
        case None => None
        case Some((a, r3)) => if StartsWith(r3, " after)") then Some((n, a)) else None
  }

  /** `re.match(r'(\d+) \((\d+) before, (\d+) after\)', arg)` */
  function MatchAround(arg: string): Option<(nat, nat, nat)> {
    match Number(arg)
    case None => None
    case Some((n, r1)) =>
      match Literal(r1, " (")
      case None => None
      case Some(r2) =>
        match Number(r2)
        case None => None
        case Some((b, r3)) =>
          match Literal(r3, " before, ")
          case None => None
          case Some(r4) =>
            match Number(r4)
            case None => None
            case Some((a, r5)) => if StartsWith(r5, " after)") then Some((n, b, a)) else None
  }

  /**
   * The argument of `^code`: the three patterns are tried in turn, a later
   * match overriding an earlier one; if none gave a number, or the number is
   * 0, the whole argument is read with `int()`. `None` is the `ValueError`.
   */
  function ParseCodeArg(arg: string): Option<CodeRef> {
    var (n1, b1, a1) := match MatchBefore(arg)
      case Some((n, b)) => (Some(n), b, 0)
      case None => (None, 0, 0);
    var (n2, b2, a2) := match MatchAfter(arg)
      case Some((n, a)) => (Some(n), b1, a)
      case None => (n1, b1, a1);
    var (n3, b3, a3) := match MatchAround(arg)
      case Some((n, b, a)) => (Some(n), b, a)
      case None => (n2, b2, a2);
    if n3.Some? && n3.value != 0 then Some(CodeRef(n3.value, b3, a3))
    else match ParseInt(arg)
      case None => None
      case Some(n) => Some(CodeRef(n, b3, a3))
  }

  /** The argument texts of the three shapes, followed by `tail`. */
  function BeforeText(n: nat, b: nat, tail: string): string {
    NatToString(n) + (" (" + (NatToString(b) + (" before)" + tail)))
  }

  function AfterText(n: nat, a: nat, tail: string): string {
    NatToString(n) + (" (" + (NatToString(a) + (" after)" + tail)))
  }

  function AroundText(n: nat, b: nat, a: nat, tail: string): string {
    NatToString(n) + (" (" + (NatToString(b) + (" before, " + (NatToString(a) + (" after)" + tail)))))
  }

  lemma NumberOf(n: nat, rest: string)
    requires rest == [] || !IsDigit(rest[0])
    ensures Number(NatToString(n) + rest) == Some((n, rest))
  {
    DigitPrefixOf(NatToString(n), rest);
    DigitsValueOfNatToString(n);
    assert (NatToString(n) + rest)[|NatToString(n)|..] == rest;
  }

  lemma LiteralOf(lit: string, rest: string)
    ensures Literal(lit + rest, lit) == Some(rest)
  {
    assert (lit + rest)[..|lit|] == lit;
    assert (lit + rest)[|lit|..] == rest;
  }

  /** The head `N (B` shared by the three patterns, followed by `r3`. */
  lemma HeadOf(n: nat, b: nat, r3: string)
    requires r3 == [] || !IsDigit(r3[0])
    ensures Number(NatToString(n) + (" (" + (NatToString(b) + r3))) == Some((n, " (" + (NatToString(b) + r3)))
    ensures Literal(" (" + (NatToString(b) + r3), " (") == Some(NatToString(b) + r3)
    ensures Number(NatToString(b) + r3) == Some((b, r3))
  {
    var r1 := " (" + (NatToString(b) + r3);
    assert r1[0] == ' ';
    NumberOf(n, r1);
    LiteralOf(" (", NatToString(b) + r3);
    NumberOf(b, r3);
  }

  lemma MatchesOfHead(n: nat, b: nat, r3: string)
    requires r3 == [] || !IsDigit(r3[0])
    ensures MatchBefore(NatToString(n) + (" (" + (NatToString(b) + r3)))
         == if StartsWith(r3, " before)") then Some((n, b)) else None
    ensures MatchAfter(NatToString(n) + (" (" + (NatToString(b) + r3)))
         == if StartsWith(r3, " after)") then Some((n, b)) else None
    ensures !StartsWith(r3, " before, ") ==> MatchAround(NatToString(n) + (" (" + (NatToString(b) + r3))) == None
  {
    HeadOf(n, b, r3);
  }

  lemma AroundOf(n: nat, b: nat, a: nat, tail: string)
    ensures MatchAround(AroundText(n, b, a, tail)) == Some((n, b, a))
  {
    var r5 := " after)" + tail;
    var r4 := NatToString(a) + r5;
    var r3 := " before, " + r4;
    assert r3[0] == ' ';
    HeadOf(n, b, r3);
    LiteralOf(" before, ", r4);
    assert r5[0] == ' ';
    NumberOf(a, r5);
    assert StartsWith(r5, " after)") by { LiteralOf(" after)", tail); }
  }

  /** `"N (B before)"` followed by anything reads as section N with B lines before. */
  lemma ParseBeforeShape(n: nat, b: nat, tail: string)
    requires n > 0
    ensures ParseCodeArg(BeforeText(n, b, tail)) == Some(CodeRef(n, b, 0))
  {
    var r3 := " before)" + tail;
    assert r3[0] == ' ';
    assert StartsWith(r3, " before)") by { LiteralOf(" before)", tail); }
    assert !StartsWith(r3, " after)") by { assert r3[1] == 'b'; }
    assert !StartsWith(r3, " before, ") by { assert r3[7] == ')'; }
    MatchesOfHead(n, b, r3);
  }

  /** `"N (A after)"` followed by anything reads as section N with A lines after. */
  lemma ParseAfterShape(n: nat, a: nat, tail: string)
    requires n > 0
    ensures ParseCodeArg(AfterText(n, a, tail)) == Some(CodeRef(n, 0, a))
  {
    var r3 := " after)" + tail;
    assert r3[0] == ' ';
    assert !StartsWith(r3, " before)") by { assert r3[1] == 'a'; }
    assert StartsWith(r3, " after)") by { LiteralOf(" after)", tail); }
    assert !StartsWith(r3, " before, ") by { assert r3[1] == 'a'; }
    MatchesOfHead(n, a, r3);
  }

  /** `"N (B before, A after)"` followed by anything reads as section N with B lines before and A after. */
  lemma ParseAroundShape(n: nat, b: nat, a: nat, tail: string)
    requires n > 0
    ensures ParseCodeArg(AroundText(n, b, a, tail)) == Some(CodeRef(n, b, a))
  {
    var r3 := " before, " + (NatToString(a) + (" after)" + tail));
    assert r3[0] == ' ';
    assert !StartsWith(r3, " before)") by { assert r3[7] == ','; }
    assert !StartsWith(r3, " after)") by { assert r3[1] == 'b'; }
    MatchesOfHead(n, b, r3);
    AroundOf(n, b, a, tail);
  }

  /** A bare integer, of either sign, reads as that section with no context. */
  lemma ParseBareShape(i: int)
    ensures ParseCodeArg(IntToString(i)) == Some(CodeRef(i, 0, 0))
  {
    BareMatchesNothing(i);
    ParseIntToString(i);
  }

  lemma BareMatchesNothing(i: int)
    ensures Number(IntToString(i)) == if i >= 0 then Some((i, "")) else None
    ensures MatchBefore(IntToString(i)) == None
    ensures MatchAfter(IntToString(i)) == None
    ensures MatchAround(IntToString(i)) == None
  {
    var arg := IntToString(i);
    if i >= 0 {
      assert arg + "" == arg;
      NumberOf(i, "");
      assert Literal("", " (") == None;
    } else {
      assert arg[0] == '-';
      assert DigitPrefix(arg) == [];
    }
  }

  /**
   * Section number 0 with a context count cannot be referenced, in any of the
   * three shapes: the match gives 0, which counts as no match, and `int()`
   * then rejects the argument.
   */
  lemma ParseZeroWithContextFails(b: nat, a: nat, tail: string)
    ensures ParseCodeArg(BeforeText(0, b, tail)) == None
    ensures ParseCodeArg(AfterText(0, a, tail)) == None
    ensures ParseCodeArg(AroundText(0, b, a, tail)) == None
  {
    ZeroBeforeFails(b, tail);
    ZeroAfterFails(a, tail);
    ZeroAroundFails(b, a, tail);
  }

  lemma ZeroBeforeFails(b: nat, tail: string)
    ensures ParseCodeArg(BeforeText(0, b, tail)) == None
  {
    var arg := BeforeText(0, b, tail);
    var r3 := " before)" + tail;
    assert r3[0] == ' ';
    assert StartsWith(r3, " before)") by { LiteralOf(" before)", tail); }
    assert !StartsWith(r3, " after)") by { assert r3[1] == 'b'; }
    assert !StartsWith(r3, " before, ") by { assert r3[7] == ')'; }
    MatchesOfHead(0, b, r3);
    assert arg[0] == '0';
    assert arg[1..] == " (" + (NatToString(b) + r3);
    ZeroHeadNotInt(arg);
  }

  lemma ZeroAfterFails(a: nat, tail: string)
    ensures ParseCodeArg(AfterText(0, a, tail)) == None
  {
    var arg := AfterText(0, a, tail);
    var r3 := " after)" + tail;
    assert r3[0] == ' ';
    assert !StartsWith(r3, " before)") by { assert r3[1] == 'a'; }
    assert StartsWith(r3, " after)") by { LiteralOf(" after)", tail); }
    assert !StartsWith(r3, " before, ") by { assert r3[1] == 'a'; }
    MatchesOfHead(0, a, r3);
    assert arg[0] == '0';
    assert arg[1..] == " (" + (NatToString(a) + r3);
    ZeroHeadNotInt(arg);
  }

  lemma ZeroAroundFails(b: nat, a: nat, tail: string)
    ensures ParseCodeArg(AroundText(0, b, a, tail)) == None
  {
    var arg := AroundText(0, b, a, tail);
    var r3 := " before, " + (NatToString(a) + (" after)" + tail));
    assert r3[0] == ' ';
    assert !StartsWith(r3, " before)") by { assert r3[7] == ','; }
    assert !StartsWith(r3, " after)") by { assert r3[1] == 'b'; }
    MatchesOfHead(0, b, r3);
    AroundOf(0, b, a, tail);
    assert arg[0] == '0';
    assert arg[1..] == " (" + (NatToString(b) + r3);
    ZeroHeadNotInt(arg);
  }

  lemma ZeroHeadNotInt(arg: string)
    requires |arg| > 2 && arg[0] == '0' && arg[1] == ' ' && arg[2] == '('
    ensures ParseInt(arg) == None
  {
    assert LStrip(arg) == arg;
    var t := RStrip(arg);
    RStripFacts(arg);
    assert !IsSpace(arg[2]);
    assert |t| > 2;
    assert t[0] == '0' && t[1] == ' ';
    assert !IsDigit(t[1]);
  }

  /** The example of the book's own directives. */
  lemma ParseExample()
    ensures ParseCodeArg("4 (2 before, 3 after)") == Some(CodeRef(4, 2, 3))
  {
    ExampleText();
    ParseAroundShape(4, 2, 3, "");
  }

  lemma ExampleText()
    ensures AroundText(4, 2, 3, "") == "4 (2 before, 3 after)"
  {
    SmallNumerals();
    ExampleConcat();
  }

  lemma SmallNumerals()
    ensures NatToString(4) == "4" && NatToString(2) == "2" && NatToString(3) == "3"
  {
    assert DigitChar(4) == '4' && DigitChar(2) == '2' && DigitChar(3) == '3';
  }

  lemma ExampleConcat()
    ensures "4" + (" (" + ("2" + (" before, " + ("3" + (" after)" + ""))))) == "4 (2 before, 3 after)"
  {
  }

  // ---- error markers ---------------------------------------------------

  /** An undefined number: a marker before everything written so far and one after it. */
  function UndefinedMarkers(n: int, contents: string): string {
    "**ERROR: Undefined section " + IntToString(n) + "**\n\n" + contents
      + "**ERROR: Missing section " + IntToString(n) + "**\n"
  }

  /** A consumed number used again: the same marker before and after everything written so far. */
  function ReusedMarkers(n: int, contents: string): string {
    "**ERROR: Reused section " + IntToString(n) + "**\n\n" + contents
      + "**ERROR: Reused section " + IntToString(n) + "**\n"
  }

  /** The marker for a section never used, put in front of the chapter. */
  function UnusedMarker(n: int): string {
    "**ERROR: Unused section " + IntToString(n) + "**\n\n"
  }

  // ---- the rendered section --------------------------------------------

  /** `lines[-n:]` for `n > 0`: the last `n` lines, or all of them when there are fewer. */
  function LastLines(lines: seq<string>, n: nat): (r: seq<string>)
    ensures |r| == if n < |lines| then n else |lines|
    ensures r == lines[|lines| - |r|..]
  {
    if n < |lines| then lines[|lines| - n..] else lines
  }

  /** `lines[:n]`: the first `n` lines, or all of them when there are fewer. */
  function FirstLines(lines: seq<string>, n: nat): (r: seq<string>)
    ensures |r| == if n < |lines| then n else |lines|
    ensures r == lines[..|r|]
  {
    if n < |lines| then lines[..n] else lines
  }

  /** The count of replaced lines, shown only when the section both removes and adds lines. */
  function ReplaceNote(s: Section): string {
    if s.removed != [] && s.added != [] then
      "<br>\nreplace " + IntToString(|s.removed|) + " line" + (if |s.removed| == 1 then "" else "s")
    else ""
  }

  /** The note is there exactly when the section replaces lines, and is plural unless one line goes. */
  lemma ReplaceNoteShown(s: Section)
    ensures ReplaceNote(s) != "" <==> s.removed != [] && s.added != []
    ensures ReplaceNote(s) != "" ==> (ReplaceNote(s)[|ReplaceNote(s)| - 1] == 's' <==> |s.removed| > 1)
  {
    if s.removed != [] && s.added != [] {
      var count := IntToString(|s.removed|);
      var note := "<br>\nreplace " + count + " line";
      assert ReplaceNote(s)[..|note|] == note;
      if |s.removed| == 1 {
        assert ReplaceNote(s) == note;
        assert note[|note| - 1] == 'e';
      }
    }
  }

  /** The caption of the block: the file, its location when it has one, and the replace note. */
  function Where(s: Section): string {
    "<em>" + s.nicePath + "</em>"
      + (if s.location.Some? && s.location.value != "" then "<br>\n" + s.location.value else "")
      + ReplaceNote(s)
  }

  /** A `<pre>` block to render: its class and the lines it shows. */
  datatype Block = Block(preClass: PreClass, lines: seq<string>)

  /** The blocks of a rendered section: context before, the section's own lines, context after. */
  datatype Layout = Layout(before: Option<Block>, body: Option<Block>, after: Option<Block>)

  /**
   * Which blocks a section shows: context only when asked for, the removed
   * lines only when nothing is added, and the added lines marked as an
   * insertion only when they are shown with context.
   */
  function LayoutOf(s: Section, before: nat, after: nat): (l: Layout)
    ensures l.before.Some? <==> before > 0
    ensures l.before.Some? ==> l.before.value == Block(InsertBefore, LastLines(s.contextBefore, before))
    ensures l.after.Some? <==> after > 0
    ensures l.after.Some? ==> l.after.value == Block(InsertAfter, FirstLines(s.contextAfter, after))
    ensures l.body.None? <==> s.removed == [] && s.added == []
    ensures l.body.Some? && l.body.value.preClass == Delete <==> s.removed != [] && s.added == []
    ensures s.added != [] ==> l.body == Some(Block(if before > 0 || after > 0 then Insert else Plain, s.added))
    ensures s.added == [] && s.removed != [] ==> l.body == Some(Block(Delete, s.removed))
  {
    Layout(
      if before > 0 then Some(Block(InsertBefore, LastLines(s.contextBefore, before))) else None,
      if s.added != [] then Some(Block(if before > 0 || after > 0 then Insert else Plain, s.added))
      else if s.removed != [] then Some(Block(Delete, s.removed))
      else None,
      if after > 0 then Some(Block(InsertAfter, FirstLines(s.contextAfter, after))) else None)
  }

  function BlockHtml(language: string, block: Option<Block>, highlight: string -> string): string {
    match block
    case None => ""
    case Some(Block(c, lines)) => Html(Formatted(language, lines), c, highlight)
  }

  /** The markup `include_section` appends for a section it consumes. */
  function SectionHtml(s: Section, ref: CodeRef, highlight: string -> string): string {
    var l := LayoutOf(s, ref.before, ref.after);
    "<div class=\"codehilite\">" + BlockHtml(s.language, l.before, highlight)
      + "<div class=\"source-file\">" + Where(s) + "</div>\n"
      + BlockHtml(s.language, l.body, highlight) + BlockHtml(s.language, l.after, highlight)
      + "</div>"
  }

  // ---- resolving a reference -------------------------------------------

  /** The chapter text so far and the dict after one `^code` reference. */
  datatype Resolution = Resolution(contents: string, sections: Sections)

  /** The dict with entry `n` marked consumed; nothing else changes. */
  function Consume(d: Sections, n: int): (r: Sections)
    requires n in d.entries
    ensures r.order == d.order && r.entries.Keys == d.entries.Keys
    ensures r.entries[n] == Consumed
    ensures forall k :: k in d.entries && k != n ==> r.entries[k] == d.entries[k]
  {
    SectionDict(d.order, d.entries[n := Consumed])
  }

  /**
   * `include_section` once the argument is read: an undefined or consumed
   * number brackets the whole text with error markers and leaves the dict
   * alone; an available one is consumed and its markup appended.
   */
  function Resolve(d: Sections, ref: CodeRef, contents: string, highlight: string -> string): Resolution {
    var n := ref.number;
    if n !in d.entries then Resolution(UndefinedMarkers(n, contents), d)
    else match d.entries[n]
      case Consumed => Resolution(ReusedMarkers(n, contents), d)
      case Available(section) => Resolution(contents + SectionHtml(section, ref, highlight), Consume(d, n))
  }

  /** A number the dict lacks: the dict is unchanged and the markers bracket the text. */
  lemma ResolveUndefined(d: Sections, ref: CodeRef, contents: string, highlight: string -> string)
    requires ref.number !in d.entries
    ensures var r := Resolve(d, ref, contents, highlight);
      r.sections == d && r.contents == UndefinedMarkers(ref.number, contents)
  {
  }

  /** A consumed number: the dict is unchanged and the same marker brackets the text on both sides. */
  lemma ResolveReused(d: Sections, ref: CodeRef, contents: string, highlight: string -> string)
    requires ref.number in d.entries && d.entries[ref.number] == Consumed
    ensures var r := Resolve(d, ref, contents, highlight);
      r.sections == d && r.contents == ReusedMarkers(ref.number, contents)
  {
  }

  /**
   * An available number: exactly that entry is consumed, the key set and the
   * order stay, and the text so far is kept as a prefix of the new text.
   */
  lemma ResolveConsumes(d: Sections, ref: CodeRef, contents: string, highlight: string -> string)
    requires ref.number in d.entries && d.entries[ref.number].Available?
    ensures var r := Resolve(d, ref, contents, highlight);
      && r.sections.order == d.order
      && r.sections.entries.Keys == d.entries.Keys
      && AvailableNumbers(r.sections) == AvailableNumbers(d) - {ref.number}
      && (forall k :: k in d.entries && k != ref.number ==> r.sections.entries[k] == d.entries[k])
      && StartsWith(r.contents, contents)
  {
    var r := Resolve(d, ref, contents, highlight);
    assert r.contents[..|contents|] == contents;
    assert AvailableNumbers(r.sections) == AvailableNumbers(d) - {ref.number};
  }

  /** Whatever happens, the keys and their order stay, so the unused-section check sees the same dict size. */
  lemma ResolveKeepsKeys(d: Sections, ref: CodeRef, contents: string, highlight: string -> string)
    ensures Resolve(d, ref, contents, highlight).sections.order == d.order
    ensures Resolve(d, ref, contents, highlight).sections.entries.Keys == d.entries.Keys
    ensures AvailableNumbers(Resolve(d, ref, contents, highlight).sections) <= AvailableNumbers(d)
  {
  }

  /**
   * Every reference, whatever its outcome, leaves the number it names
   * unavailable and takes nothing else away.
   */
  lemma ResolveRemovesNumber(d: Sections, ref: CodeRef, contents: string, highlight: string -> string)
    ensures AvailableNumbers(Resolve(d, ref, contents, highlight).sections) == AvailableNumbers(d) - {ref.number}
  {
    if ref.number in d.entries && d.entries[ref.number].Available? {
      ResolveConsumes(d, ref, contents, highlight);
    } else {
      assert ref.number !in AvailableNumbers(d);
      assert AvailableNumbers(d) - {ref.number} == AvailableNumbers(d);
    }
  }

  /** A section can be shown once: the second reference to it takes the reuse path. */
  lemma ResolveTwice(d: Sections, ref1: CodeRef, ref2: CodeRef, c1: string, c2: string, highlight: string -> string)
    requires ref1.number == ref2.number
    requires ref1.number in d.entries
    ensures var d1 := Resolve(d, ref1, c1, highlight).sections;
      Resolve(d1, ref2, c2, highlight) == Resolution(ReusedMarkers(ref2.number, c2), d1)
  {
  }

  // ---- the unused-section check ----------------------------------------

  /**
   * The loop over `code_sections.items()`: each entry still available puts
   * its marker in front of the text, so the markers end up in the reverse
   * of the dict's order.
   */
  function PrependUnused(order: seq<int>, entries: map<int, Entry>, contents: string): string
    requires forall k :: k in order ==> k in entries
  {
    if order == [] then contents
    else
      var n := order[|order| - 1];
      var rest := PrependUnused(order[..|order| - 1], entries, contents);
      if entries[n].Available? then UnusedMarker(n) + rest else rest
  }

  /** The check runs only when the chapter has more than one section. */
  function ReportUnused(d: Sections, contents: string): string {
    if |d.entries| > 1 then PrependUnused(d.order, d.entries, contents) else contents
  }

  /** The numbers still available, in the order their markers appear in the text. */
  function UnusedNumbers(order: seq<int>, entries: map<int, Entry>): seq<int>
    requires forall k :: k in order ==> k in entries
  {
    if order == [] then []
    else
      var n := order[|order| - 1];
      var rest := UnusedNumbers(order[..|order| - 1], entries);
      if entries[n].Available? then [n] + rest else rest
  }

  function Markers(numbers: seq<int>): string {
    if numbers == [] then "" else UnusedMarker(numbers[0]) + Markers(numbers[1..])
  }

  /** The text after the check is one marker per available number, then the text. */
  lemma {:induction false} PrependUnusedIsMarkers(order: seq<int>, entries: map<int, Entry>, contents: string)
    requires forall k :: k in order ==> k in entries
    ensures PrependUnused(order, entries, contents) == Markers(UnusedNumbers(order, entries)) + contents
  {
    if order != [] {
      var n := order[|order| - 1];
      var init := order[..|order| - 1];
      PrependUnusedIsMarkers(init, entries, contents);
      if entries[n].Available? {
        var ns := UnusedNumbers(init, entries);
        var marker := UnusedMarker(n);
        assert ([n] + ns)[1..] == ns;
        calc {
          PrependUnused(order, entries, contents);
          marker + PrependUnused(init, entries, contents);
          marker + (Markers(ns) + contents);
          { Associative(marker, Markers(ns), contents); }
          (marker + Markers(ns)) + contents;
          Markers([n] + ns) + contents;
        }
      }
    }
  }

  lemma Associative(a: string, b: string, c: string)
    ensures a + (b + c) == (a + b) + c
  {
  }

  /** The marked numbers are the available entries of the order, each once. */
  lemma {:induction false} UnusedNumbersAreAvailable(order: seq<int>, entries: map<int, Entry>)
    requires forall k :: k in order ==> k in entries
    requires Distinct(order)
    ensures forall k :: k in UnusedNumbers(order, entries) <==> k in order && entries[k].Available?
    ensures Distinct(UnusedNumbers(order, entries))
  {
    if order != [] {
      var n := order[|order| - 1];
      var init := order[..|order| - 1];
      assert Distinct(init);
      UnusedNumbersAreAvailable(init, entries);
      assert n !in init;
    }
  }

  /** Exactly one marker per unconsumed section, and none unless the chapter has several sections. */
  lemma ReportUnusedMarkers(d: Sections, contents: string)
    ensures |d.entries| <= 1 ==> ReportUnused(d, contents) == contents
    ensures |d.entries| > 1 ==> ReportUnused(d, contents) == Markers(UnusedNumbers(d.order, d.entries)) + contents
    ensures Distinct(UnusedNumbers(d.order, d.entries))
    ensures forall k :: k in UnusedNumbers(d.order, d.entries) <==> k in AvailableNumbers(d)
  {
    if |d.entries| > 1 {
      PrependUnusedIsMarkers(d.order, d.entries, contents);
    }
    UnusedNumbersAreAvailable(d.order, d.entries);
  }

  /** Once every section is used the check adds nothing. */
  lemma {:induction false} NothingUnused(order: seq<int>, entries: map<int, Entry>)
    requires forall k :: k in order ==> k in entries && entries[k] == Consumed
    ensures UnusedNumbers(order, entries) == []
  {
    if order != [] {
      NothingUnused(order[..|order| - 1], entries);
    }
  }

  // ---- the imperative tracker ------------------------------------------

  /** `format_code` and the class given to its `<pre>` tag by `include_section`. */
  method FormatBlock(language: string, c: PreClass, lines: seq<string>, highlight: string -> string)
    returns (html: string)
    ensures html == Html(Formatted(language, lines), c, highlight)
  {
    var b := FormatCode(language, lines);
    FormatCodeIsFormatted(language, lines, b);
    html := Html(b, c, highlight);
  }

  /** The argument-reading head of `include_section`: later patterns override earlier ones. */
  method ReadCodeArg(arg: string) returns (ref: Option<CodeRef>)
    ensures ref == ParseCodeArg(arg)
  {
    var number: Option<int> := None;
    var beforeLines: nat := 0;
    var afterLines: nat := 0;
    var matchBefore, matchAfter, matchAround := MatchBefore(arg), MatchAfter(arg), MatchAround(arg);
    if matchBefore.Some? {
      number := Some(matchBefore.value.0);
      beforeLines := matchBefore.value.1;
    }
    if matchAfter.Some? {
      number := Some(matchAfter.value.0);
      afterLines := matchAfter.value.1;
    }
    if matchAround.Some? {
      number := Some(matchAround.value.0);
      beforeLines := matchAround.value.1;
      afterLines := matchAround.value.2;
    }
    if number.None? || number.value == 0 {
      var parsed := ParseInt(arg);
      if parsed.None? {
        return None;
      }
      number := parsed;
    }
    ref := Some(CodeRef(number.value, beforeLines, afterLines));
  }

  /** The markup `include_section` appends for a section it consumes, built piece by piece. */
  method RenderSection(section: Section, ref: CodeRef, highlight: string -> string) returns (markup: string)
    ensures markup == SectionHtml(section, ref, highlight)
  {
    ghost var layout := LayoutOf(section, ref.before, ref.after);
    var beforeLines, afterLines := ref.before, ref.after;
    var before := "";
    if beforeLines > 0 {
      before := FormatBlock(section.language, InsertBefore, LastLines(section.contextBefore, beforeLines), highlight);
    }
    assert before == BlockHtml(section.language, layout.before, highlight);
    var where := RenderWhere(section);
    var body := RenderBody(section, beforeLines > 0 || afterLines > 0, highlight);
    assert body == BlockHtml(section.language, layout.body, highlight);
    var after := "";
    if afterLines > 0 {
      after := FormatBlock(section.language, InsertAfter, FirstLines(section.contextAfter, afterLines), highlight);
    }
    assert after == BlockHtml(section.language, layout.after, highlight);
    markup := "<div class=\"codehilite\">" + before + "<div class=\"source-file\">" + where + "</div>\n"
      + body + after + "</div>";
  }

  /** The caption: the file, the location when there is one, the replace note. */
  method RenderWhere(section: Section) returns (where: string)
    ensures where == Where(section)
  {
    where := "<em>" + section.nicePath + "</em>";
    if section.location.Some? && section.location.value != "" {
      where := where + "<br>\n" + section.location.value;
    }
    var note := "";
    if section.removed != [] && section.added != [] {
      note := "<br>\nreplace " + IntToString(|section.removed|) + " line"
        + (if |section.removed| == 1 then "" else "s");
    }
    where := where + note;
  }

  /** The removed lines when nothing is added, else the added ones, marked as an insertion when shown with context. */
  method RenderBody(section: Section, withContext: bool, highlight: string -> string) returns (body: string)
    ensures body == BlockHtml(section.language, LayoutOf(section, if withContext then 1 else 0, 0).body, highlight)
  {
    body := "";
    if section.removed != [] && section.added == [] {
      body := FormatBlock(section.language, Delete, section.removed, highlight);
    }
    if section.added != [] {
      body := FormatBlock(section.language, if withContext then Insert else Plain, section.added, highlight);
    }
  }

  /** A chapter's dict of code sections, consumed in place as the chapter's `^code` directives refer to it. */
  class SectionTracker {
    var sections: Sections

    constructor(d: Sections)
      ensures sections == d
    {
      sections := d;
    }

    /**
     * `include_section(code_sections, arg, contents)`: reads the argument,
     * then consumes the section and appends its markup, or brackets the text
     * with error markers. An argument that is no integer is fatal.
     */
    method Include(arg: string, contents: string, highlight: string -> string)
      returns (r: Result<string, BuildError>)
      modifies this
      ensures ParseCodeArg(arg).None? ==> r == Fatal(NotAnInteger(arg)) && sections == old(sections)
      ensures ParseCodeArg(arg).Some? ==>
        var res := Resolve(old(sections), ParseCodeArg(arg).value, contents, highlight);
        r == Ok(res.contents) && sections == res.sections
    {
      var ref := ReadCodeArg(arg);
      if ref.None? {
        return Fatal(NotAnInteger(arg));
      }
      var n := ref.value.number;
      if n !in sections.entries {
        return Ok(UndefinedMarkers(n, contents));
      }
      if sections.entries[n] == Consumed {
        return Ok(ReusedMarkers(n, contents));
      }
      var section := sections.entries[n].section;
      sections := Consume(sections, n);
      var markup := RenderSection(section, ref.value, highlight);
      r := Ok(contents + markup);
    }

    /** The unused-section check at the end of the chapter, over the dict's items in order. */
    method ReportUnusedSections(contents: string) returns (r: string)
      ensures r == ReportUnused(sections, contents)
    {
      r := contents;
      if |sections.entries| > 1 {
        var order := sections.order;
        for i := 0 to |order|
          invariant r == PrependUnused(order[..i], sections.entries, contents)
        {
          assert order[..i + 1][..i] == order[..i];
          if sections.entries[order[i]].Available? {
            r := UnusedMarker(order[i]) + r;
          }
        }
        assert order[..|order|] == order;
      }
    }
  }
}
