/**
 * The code-block formatter. A slice of source lines is fenced for the markdown
 * renderer; the whitespace-only lines at either end, which the renderer would
 * drop, are peeled off first, counted, and put back as one `<br>` each just
 * inside the `<pre>` element of the rendered block.
 */
module CodeFormat {
  import opened PyText

  /** The class of a block's `<pre>` tag: a plain slice, context, an insertion or a deletion. */
  datatype PreClass = Plain | InsertBefore | Insert | InsertAfter | Delete

  /** A formatted slice: the fenced markdown, and the blank lines peeled off each end. */
  datatype CodeBlock = CodeBlock(leading: nat, markup: string, trailing: nat)

  /** Each line followed by a newline. */
  function JoinLines(lines: seq<string>): string {
    if lines == [] then "" else JoinLines(lines[..|lines| - 1]) + lines[|lines| - 1] + "\n"
  }

  /** The fenced code block `format_code` hands to the markdown renderer. */
  function Fence(language: string, lines: seq<string>): string {
    "```" + language + "\n" + JoinLines(lines) + "```"
  }

  /** The lines that remain once `leading` and `trailing` lines are peeled off. */
  function Kept(lines: seq<string>, leading: nat, trailing: nat): seq<string>
    requires leading + trailing <= |lines|
  {
    lines[leading..|lines| - trailing]
  }

  /**
   * `leading` and `trailing` are the counts `format_code` peels: every peeled
   * line is blank, the kept lines neither start nor end with a blank line, and
   * a slice that is blank throughout is peeled from the front only.
   */
  predicate Peeled(lines: seq<string>, leading: nat, trailing: nat) {
    && leading + trailing <= |lines|
    && (forall i :: 0 <= i < leading ==> IsBlank(lines[i]))
    && (forall i :: |lines| - trailing <= i < |lines| ==> IsBlank(lines[i]))
    && var kept := Kept(lines, leading, trailing);
       && (kept != [] ==> !IsBlank(kept[0]) && !IsBlank(kept[|kept| - 1]))
       && (kept == [] ==> trailing == 0)
  }

  /** The peeled counts are determined by the lines. */
  lemma PeeledUnique(lines: seq<string>, l1: nat, t1: nat, l2: nat, t2: nat)
    requires Peeled(lines, l1, t1) && Peeled(lines, l2, t2)
    ensures l1 == l2 && t1 == t2
  {
  }

  /** A slice of blank lines is peeled entirely from the front: `leading` is its length. */
  lemma PeeledAllBlank(lines: seq<string>, leading: nat, trailing: nat)
    requires Peeled(lines, leading, trailing)
    requires forall i :: 0 <= i < |lines| ==> IsBlank(lines[i])
    ensures leading == |lines| && trailing == 0
  {
  }

  /** The peeled lines and the kept lines put back together give the slice again. */
  lemma PeeledSplits(lines: seq<string>, leading: nat, trailing: nat)
    requires Peeled(lines, leading, trailing)
    ensures lines == lines[..leading] + Kept(lines, leading, trailing) + lines[|lines| - trailing..]
  {
    assert lines == lines[..leading] + lines[leading..|lines| - trailing] + lines[|lines| - trailing..];
  }

  function LeadingBlanks(lines: seq<string>): (n: nat)
    ensures n <= |lines|
  {
    if lines != [] && IsBlank(lines[0]) then 1 + LeadingBlanks(lines[1..]) else 0
  }

  function TrailingBlanks(lines: seq<string>): (n: nat)
    ensures n <= |lines|
  {
    if lines != [] && IsBlank(lines[|lines| - 1]) then 1 + TrailingBlanks(lines[..|lines| - 1]) else 0
  }

  /** What `format_code` computes from a slice, as a function. */
  function Formatted(language: string, lines: seq<string>): CodeBlock {
    var leading := LeadingBlanks(lines);
    var trailing := TrailingBlanks(lines[leading..]);
    CodeBlock(leading, Fence(language, Kept(lines, leading, trailing)), trailing)
  }

  lemma {:induction false} LeadingBlanksFacts(lines: seq<string>)
    ensures forall i :: 0 <= i < LeadingBlanks(lines) ==> IsBlank(lines[i])
    ensures LeadingBlanks(lines) < |lines| ==> !IsBlank(lines[LeadingBlanks(lines)])
  {
    if lines != [] && IsBlank(lines[0]) {
      LeadingBlanksFacts(lines[1..]);
    }
  }

  lemma {:induction false} TrailingBlanksFacts(lines: seq<string>)
    ensures forall i :: |lines| - TrailingBlanks(lines) <= i < |lines| ==> IsBlank(lines[i])
    ensures TrailingBlanks(lines) < |lines| ==> !IsBlank(lines[|lines| - 1 - TrailingBlanks(lines)])
  {
    if lines != [] && IsBlank(lines[|lines| - 1]) {
      TrailingBlanksFacts(lines[..|lines| - 1]);
    }
  }

  lemma FormattedPeels(language: string, lines: seq<string>)
    ensures Peeled(lines, Formatted(language, lines).leading, Formatted(language, lines).trailing)
  {
    var leading := LeadingBlanks(lines);
    var rest := lines[leading..];
    LeadingBlanksFacts(lines);
    TrailingBlanksFacts(rest);
    var trailing := TrailingBlanks(rest);
    assert Formatted(language, lines).leading == leading;
    assert Formatted(language, lines).trailing == trailing;
    forall i | |lines| - trailing <= i < |lines|
      ensures IsBlank(lines[i])
    {
      assert lines[i] == rest[i - leading];
    }
    var kept := Kept(lines, leading, trailing);
    assert kept == rest[..|rest| - trailing];
    if kept != [] {
      assert kept[0] == lines[leading];
      assert kept[|kept| - 1] == rest[|rest| - 1 - trailing];
    }
  }

  lemma DropLastOfSlice(s: seq<string>, lo: nat, hi: nat)
    requires lo < hi <= |s|
    ensures s[lo..hi][..hi - lo - 1] == s[lo..hi - 1]
  {
  }

  /**
   * `format_code(language, lines)` up to the markdown call: peels the blank
   * lines off both ends, counting them, and fences the rest.
   */
  method FormatCode(language: string, lines: seq<string>) returns (b: CodeBlock)
    ensures Peeled(lines, b.leading, b.trailing)
    ensures b.markup == Fence(language, Kept(lines, b.leading, b.trailing))
  {
    var rest := lines;
    var leading := 0;
    while rest != [] && IsBlank(rest[0])
      invariant leading <= |lines| && rest == lines[leading..]
      invariant forall i :: 0 <= i < leading ==> IsBlank(lines[i])
    {
      rest := rest[1..];
      leading := leading + 1;
    }
    var trailing := 0;
    while rest != [] && IsBlank(rest[|rest| - 1])
      invariant leading + trailing <= |lines| && rest == lines[leading..|lines| - trailing]
      invariant forall i :: |lines| - trailing <= i < |lines| ==> IsBlank(lines[i])
      invariant rest != [] ==> !IsBlank(rest[0])
      invariant rest == [] ==> trailing == 0
    {
      DropLastOfSlice(lines, leading, |lines| - trailing);
      rest := rest[..|rest| - 1];
      trailing := trailing + 1;
    }
    var markup := FenceLines(language, rest);
    b := CodeBlock(leading, markup, trailing);
  }

  /** The last loop of `format_code`: each kept line and a newline, between the fences. */
  method FenceLines(language: string, lines: seq<string>) returns (markup: string)
    ensures markup == Fence(language, lines)
  {
    markup := "```" + language + "\n";
    for i := 0 to |lines|
      invariant markup == "```" + language + "\n" + JoinLines(lines[..i])
    {
      assert lines[..i + 1][..i] == lines[..i];
      markup := markup + lines[i] + "\n";
    }
    assert lines[..|lines|] == lines;
    markup := markup + "```";
  }

  /** `FormatCode` computes `Formatted`. */
  lemma FormatCodeIsFormatted(language: string, lines: seq<string>, b: CodeBlock)
    requires Peeled(lines, b.leading, b.trailing)
    requires b.markup == Fence(language, Kept(lines, b.leading, b.trailing))
    ensures b == Formatted(language, lines)
  {
    var f := Formatted(language, lines);
    FormattedPeels(language, lines);
    PeeledUnique(lines, b.leading, b.trailing, f.leading, f.trailing);
  }

  function ClassAttribute(c: PreClass): string {
    match c
    case Plain => ""
    case InsertBefore => " class=\"insert-before\""
    case Insert => " class=\"insert\""
    case InsertAfter => " class=\"insert-after\""
    case Delete => " class=\"delete\""
  }

  /**
   * The rendered block: the renderer's highlighting of the fence inside a
   * `<pre>` element, with one `<br>` per peeled line at the matching end.
   */
  function Html(b: CodeBlock, c: PreClass, highlight: string -> string): string {
    "<pre" + ClassAttribute(c) + ">" + Repeat("<br>", b.leading) + highlight(b.markup)
      + Repeat("<br>", b.trailing) + "</pre>"
  }
}
