/**
 * The table of contents of the book: its parts and chapters, the linear page
 * order used for previous/next links, the numbering of parts (roman) and
 * chapters (decimal), page file names, and the list of a part's chapters.
 */
module Toc {
  import opened Wrappers
  import opened Errors
  import opened PyText
  import opened Seqs

  datatype Chapter = Chapter(name: string, topics: seq<string>, designNote: Option<string>)

  /** Front and back matter are parts with an empty name. */
  datatype Part = Part(name: string, chapters: seq<Chapter>)

  function ChapterNames(chapters: seq<Chapter>): (r: seq<string>)
    ensures |r| == |chapters|
    ensures forall j :: 0 <= j < |chapters| ==> r[j] == chapters[j].name
  {
    seq(|chapters|, j requires 0 <= j < |chapters| => chapters[j].name)
  }

  /** The pages one part contributes: its own page if it is named, then its chapters. */
  function PartPages(part: Part): seq<string> {
    (if part.name != "" then [part.name] else []) + ChapterNames(part.chapters)
  }

  /** The table of contents flattened to the linear order of pages. */
  function Pages(toc: seq<Part>): seq<string> {
    if toc == [] then [] else Pages(toc[..|toc| - 1]) + PartPages(toc[|toc| - 1])
  }

  // ---- flatten_pages -----------------------------------------------------

  lemma ChapterNamesSnoc(chapters: seq<Chapter>, j: nat)
    requires j < |chapters|
    ensures ChapterNames(chapters[..j + 1]) == ChapterNames(chapters[..j]) + [chapters[j].name]
  {
  }

  lemma PagesSnoc(toc: seq<Part>, i: nat)
    requires i < |toc|
    ensures Pages(toc[..i + 1]) == Pages(toc[..i]) + PartPages(toc[i])
  {
    assert toc[..i + 1][..i] == toc[..i];
  }

  /** The body of the outer loop of `flatten_pages()`: appends one part's pages. */
  method AppendPartPages(pages0: seq<string>, part: Part) returns (pages: seq<string>)
    ensures pages == pages0 + PartPages(part)
  {
    pages := pages0;
    // A matter part has an empty name and adds no page of its own.
    if part.name != "" {
      pages := pages + [part.name];
    }
    for j := 0 to |part.chapters|
      invariant pages == pages0 + (if part.name != "" then [part.name] else []) + ChapterNames(part.chapters[..j])
    {
      ChapterNamesSnoc(part.chapters, j);
      pages := pages + [part.chapters[j].name];
    }
    assert part.chapters[..|part.chapters|] == part.chapters;
  }

  /** `flatten_pages()` */
  method FlattenPages(toc: seq<Part>) returns (pages: seq<string>)
    ensures pages == Pages(toc)
  {
    pages := [];
    for i := 0 to |toc|
      invariant pages == Pages(toc[..i])
    {
      PagesSnoc(toc, i);
      pages := AppendPartPages(pages, toc[i]);
    }
    assert toc[..|toc|] == toc;
  }

  lemma {:induction false} PartIsPage(toc: seq<Part>, i: nat)
    requires i < |toc| && toc[i].name != ""
    ensures toc[i].name in Pages(toc)
    decreases |toc|
  {
    var init, last := toc[..|toc| - 1], toc[|toc| - 1];
    if i < |init| {
      assert init[i] == toc[i];
      PartIsPage(init, i);
    } else {
      assert PartPages(last)[0] == last.name;
    }
  }

  lemma {:induction false} ChapterIsPage(toc: seq<Part>, i: nat, j: nat)
    requires i < |toc| && j < |toc[i].chapters|
    ensures toc[i].chapters[j].name in Pages(toc)
    decreases |toc|
  {
    var init, last := toc[..|toc| - 1], toc[|toc| - 1];
    if i < |init| {
      assert init[i] == toc[i];
      ChapterIsPage(init, i, j);
    } else {
      var k := |PartPages(last)| - |last.chapters| + j;
      assert PartPages(last)[k] == last.chapters[j].name;
    }
  }

  lemma {:induction false} PageOrigin(toc: seq<Part>, page: string)
    requires page in Pages(toc)
    ensures (exists i :: 0 <= i < |toc| && toc[i].name != "" && toc[i].name == page) ||
            (exists i, j :: 0 <= i < |toc| && 0 <= j < |toc[i].chapters| && toc[i].chapters[j].name == page)
    decreases |toc|
  {
    var init, last := toc[..|toc| - 1], toc[|toc| - 1];
    var n := |toc| - 1;
    if page in Pages(init) {
      PageOrigin(init, page);
      if exists i :: 0 <= i < |init| && init[i].name != "" && init[i].name == page {
        var i :| 0 <= i < |init| && init[i].name != "" && init[i].name == page;
        assert toc[i] == init[i];
      } else {
        var i, j :| 0 <= i < |init| && 0 <= j < |init[i].chapters| && init[i].chapters[j].name == page;
        assert toc[i] == init[i];
      }
    } else if page in ChapterNames(last.chapters) {
      var j :| 0 <= j < |last.chapters| && ChapterNames(last.chapters)[j] == page;
      assert toc[n].chapters[j].name == page;
    } else {
      assert toc[n].name == page;
    }
  }

  /** A page is either the name of a named part or the name of a chapter. */
  lemma PagesMembers(toc: seq<Part>, page: string)
    ensures page in Pages(toc) <==>
      (exists i :: 0 <= i < |toc| && toc[i].name != "" && toc[i].name == page) ||
      (exists i, j :: 0 <= i < |toc| && 0 <= j < |toc[i].chapters| && toc[i].chapters[j].name == page)
  {
    if page in Pages(toc) {
      PageOrigin(toc, page);
    } else {
      forall i | 0 <= i < |toc| && toc[i].name != ""
        ensures toc[i].name != page
      {
        PartIsPage(toc, i);
      }
      forall i, j | 0 <= i < |toc| && 0 <= j < |toc[i].chapters|
        ensures toc[i].chapters[j].name != page
      {
        ChapterIsPage(toc, i, j);
      }
    }
  }

  // ---- roman ---------------------------------------------------------------

  /**
   * Roman numeral of a part number; only numbers below ten are supported (so 9
   * is written "VIIII"), anything larger is an exception.
   */
  function Roman(n: int): (r: Option<string>)
    ensures r.Some? <==> n < 10
  {
    if n <= 3 then Some(Repeat("I", n))
    else if n == 4 then Some("IV")
    else if n < 10 then Some("V" + Repeat("I", n - 5))
    else None
  }

  function SymbolValue(c: char): nat {
    match c
    case 'I' => 1
    case 'V' => 5
    case 'X' => 10
    case 'L' => 50
    case 'C' => 100
    case 'D' => 500
    case 'M' => 1000
    case _ => 0
  }

  /** The value of a roman numeral, with the subtractive rule ("IV" is 4). */
  function RomanValue(s: string): int {
    if s == [] then 0
    else if |s| >= 2 && SymbolValue(s[0]) < SymbolValue(s[1]) then
      SymbolValue(s[1]) - SymbolValue(s[0]) + RomanValue(s[2..])
    else SymbolValue(s[0]) + RomanValue(s[1..])
  }

  lemma {:induction false} RomanValueOfOnes(k: nat)
    ensures RomanValue(Repeat("I", k)) == k
  {
    if k > 0 {
      var s := Repeat("I", k);
      assert s == "I" + Repeat("I", k - 1);
      assert s[1..] == Repeat("I", k - 1);
      RomanValueOfOnes(k - 1);
    }
  }

  /** Every part number the book supports is written as a numeral of that value. */
  lemma RomanRoundTrip(n: int)
    requires 1 <= n < 10
    ensures Roman(n).Some? && RomanValue(Roman(n).value) == n
  {
    if n <= 3 {
      RomanValueOfOnes(n);
    } else if n > 4 {
      var s := "V" + Repeat("I", n - 5);
      assert s[1..] == Repeat("I", n - 5);
      RomanValueOfOnes(n - 5);
    }
  }

  /** A numeral written without the subtractive rule: symbol values never increase. */
  predicate Additive(s: string) {
    forall k | 0 <= k < |s| - 1 :: SymbolValue(s[k]) >= SymbolValue(s[k + 1])
  }

  lemma {:induction false} OnesOf(k: nat)
    ensures |Repeat("I", k)| == k
    ensures forall j | 0 <= j < k :: Repeat("I", k)[j] == 'I'
  {
    if k > 0 {
      OnesOf(k - 1);
      assert Repeat("I", k) == "I" + Repeat("I", k - 1);
    }
  }

  /**
   * `roman` uses the subtractive rule for 4 only: every other numeral is
   * written with non-increasing symbols, so 9 is "VIIII" and not "IX".
   */
  lemma RomanSpelling(n: int)
    requires 1 <= n < 10
    ensures Roman(n).Some?
    ensures Additive(Roman(n).value) <==> n != 4
    ensures forall j | 0 <= j < |Roman(n).value| :: Roman(n).value[j] in {'I', 'V'}
    ensures n == 9 ==> Roman(n) == Some("VIIII")
  {
    var s := Roman(n).value;
    if n <= 3 {
      OnesOf(n);
    } else if n == 4 {
      assert SymbolValue(s[0]) < SymbolValue(s[1]);
    } else {
      OnesOf(n - 5);
      assert s == "V" + Repeat("I", n - 5);
      forall k | 0 <= k < |s| - 1
        ensures SymbolValue(s[k]) >= SymbolValue(s[k + 1])
      {
        assert s[k + 1] == Repeat("I", n - 5)[k];
      }
      if n == 9 {
        assert |s| == 5;
        assert s == "VIIII";
      }
    }
  }

  // ---- number_chapters -----------------------------------------------------

  /** Names of the named parts, in order. */
  function NamedParts(toc: seq<Part>): seq<string> {
    if toc == [] then []
    else NamedParts(toc[..|toc| - 1]) + (if toc[|toc| - 1].name != "" then [toc[|toc| - 1].name] else [])
  }

  /** Names of the chapters of named parts, in order: the numbered chapters. */
  function NumberedChapters(toc: seq<Part>): seq<string> {
    if toc == [] then []
    else NumberedChapters(toc[..|toc| - 1])
         + (if toc[|toc| - 1].name != "" then ChapterNames(toc[|toc| - 1].chapters) else [])
  }

  /**
   * Records the numbers of the chapters of one part, the first being `next`:
   * the empty string for front- and backmatter, consecutive decimals otherwise.
   */
  function ChapterNumbering(m: map<string, string>, chapters: seq<Chapter>, inMatter: bool, next: nat)
    : map<string, string>
  {
    if chapters == [] then m
    else ChapterNumbering(m, chapters[..|chapters| - 1], inMatter, next)
           [chapters[|chapters| - 1].name :=
              if inMatter then "" else NatToString(next + |chapters| - 1)]
  }

  function PartNumbering(m: map<string, string>, part: Part, partNum: nat, chapterNum: nat)
    : Option<map<string, string>>
  {
    if part.name == "" then Some(ChapterNumbering(m, part.chapters, true, chapterNum))
    else match Roman(partNum)
      case None => None
      case Some(numeral) => Some(ChapterNumbering(m[part.name := numeral], part.chapters, false, chapterNum))
  }

  /** The numbering table; `None` when some part number has no roman numeral. */
  function Numbering(toc: seq<Part>): Option<map<string, string>> {
    if toc == [] then Some(map[])
    else
      var init := toc[..|toc| - 1];
      match Numbering(init)
      case None => None
      case Some(m) => PartNumbering(m, toc[|toc| - 1], |NamedParts(init)| + 1, |NumberedChapters(init)| + 1)
  }

  lemma {:induction false} NumberingFailureSticks(toc: seq<Part>, k: nat)
    requires k <= |toc| && Numbering(toc[..k]).None?
    ensures Numbering(toc).None?
    decreases |toc| - k
  {
    if k < |toc| {
      assert toc[..k + 1][..k] == toc[..k];
      NumberingFailureSticks(toc, k + 1);
    } else {
      assert toc[..k] == toc;
    }
  }

  /** The inner loop of `number_chapters()`: numbers the chapters of one part. */
  method NumberPartChapters(m0: map<string, string>, chapters: seq<Chapter>, inMatter: bool, first: nat)
    returns (m: map<string, string>, chapterNum: nat)
    ensures m == ChapterNumbering(m0, chapters, inMatter, first)
    ensures chapterNum == if inMatter then first else first + |chapters|
  {
    m, chapterNum := m0, first;
    for j := 0 to |chapters|
      invariant m == ChapterNumbering(m0, chapters[..j], inMatter, first)
      invariant chapterNum == if inMatter then first else first + j
    {
      var chapter := chapters[j];
      assert chapters[..j + 1][..j] == chapters[..j];
      if inMatter {
        // Matter chapters get the empty string as their number.
        m := m[chapter.name := ""];
      } else {
        m := m[chapter.name := NatToString(chapterNum)];
        chapterNum := chapterNum + 1;
      }
    }
    assert chapters[..|chapters|] == chapters;
  }

  /** `number_chapters()` */
  method NumberChapters(toc: seq<Part>) returns (numbers: Option<map<string, string>>)
    ensures numbers == Numbering(toc)
  {
    var m: map<string, string> := map[];
    var partNum := 1;
    var chapterNum := 1;
    for i := 0 to |toc|
      invariant Numbering(toc[..i]) == Some(m)
      invariant partNum == |NamedParts(toc[..i])| + 1
      invariant chapterNum == |NumberedChapters(toc[..i])| + 1
    {
      var part := toc[i];
      ghost var before, m0, c0 := toc[..i], m, chapterNum;
      assert toc[..i + 1][..i] == before && toc[..i + 1][i] == part;
      assert Numbering(toc[..i + 1]) == PartNumbering(m0, part, partNum, chapterNum);
      assert NamedParts(toc[..i + 1]) == NamedParts(before) + (if part.name != "" then [part.name] else []);
      assert NumberedChapters(toc[..i + 1])
          == NumberedChapters(before) + (if part.name != "" then ChapterNames(part.chapters) else []);
      // An empty name marks a matter part: no numeral, and its chapters are not counted.
      var inMatter := part.name == "";
      if !inMatter {
        var numeral := Roman(partNum);
        if numeral.None? {
          NumberingFailureSticks(toc, i + 1);
          return None;
        }
        m := m[part.name := numeral.value];
        partNum := partNum + 1;
      }
      m, chapterNum := NumberPartChapters(m, part.chapters, inMatter, chapterNum);
    }
    assert toc[..|toc|] == toc;
    numbers := Some(m);
  }

  // ---- properties of the numbering table ---------------------------------

  lemma DistinctConcat<T>(a: seq<T>, b: seq<T>)
    requires Distinct(a + b)
    ensures Distinct(a) && Distinct(b)
    ensures forall x :: x in a ==> x !in b
  {
    assert forall i :: 0 <= i < |a| ==> (a + b)[i] == a[i];
    assert forall j :: 0 <= j < |b| ==> (a + b)[|a| + j] == b[j];
  }

  lemma {:induction false} ChapterNumberingFacts(m: map<string, string>, chapters: seq<Chapter>, inMatter: bool, next: nat)
    ensures forall k :: k in ChapterNumbering(m, chapters, inMatter, next) <==> k in m || k in ChapterNames(chapters)
    ensures forall k :: k in m && k !in ChapterNames(chapters) ==> ChapterNumbering(m, chapters, inMatter, next)[k] == m[k]
    ensures Distinct(ChapterNames(chapters)) ==>
      forall j :: 0 <= j < |chapters| ==>
        ChapterNumbering(m, chapters, inMatter, next)[chapters[j].name] == if inMatter then "" else NatToString(next + j)
    decreases |chapters|
  {
    if chapters != [] {
      var init, last := chapters[..|chapters| - 1], chapters[|chapters| - 1];
      ChapterNumberingFacts(m, init, inMatter, next);
      var m0 := ChapterNumbering(m, init, inMatter, next);
      var number := if inMatter then "" else NatToString(next + |chapters| - 1);
      assert ChapterNumbering(m, chapters, inMatter, next) == m0[last.name := number];
      assert ChapterNames(chapters) == ChapterNames(init) + [last.name];
      if Distinct(ChapterNames(chapters)) {
        DistinctConcat(ChapterNames(init), [last.name]);
        forall j | 0 <= j < |chapters|
          ensures m0[last.name := number][chapters[j].name] == if inMatter then "" else NatToString(next + j)
        {
          if j < |init| {
            assert ChapterNames(chapters)[j] == chapters[j].name;
            assert init[j] == chapters[j];
          }
        }
      }
    }
  }

  /** The numbering table has an entry for every page and for nothing else. */
  lemma {:induction false} NumberingKeys(toc: seq<Part>)
    requires Numbering(toc).Some?
    ensures forall k :: k in Numbering(toc).value <==> k in Pages(toc)
    decreases |toc|
  {
    if toc != [] {
      var init, last := toc[..|toc| - 1], toc[|toc| - 1];
      NumberingUnfold(toc);
      NumberingKeys(init);
      var m0, m := Numbering(init).value, Numbering(toc).value;
      PartNumberingKeys(m0, last, |NamedParts(init)| + 1, |NumberedChapters(init)| + 1, m);
    }
  }

  /** Numbering one part adds exactly its pages to the table. */
  lemma {:induction false} PartNumberingKeys(m0: map<string, string>, part: Part, partNum: nat, chapterNum: nat,
                                             m: map<string, string>)
    requires PartNumbering(m0, part, partNum, chapterNum) == Some(m)
    ensures forall k :: k in m <==> k in m0 || k in PartPages(part)
  {
    if part.name == "" {
      ChapterNumberingFacts(m0, part.chapters, true, chapterNum);
    } else {
      ChapterNumberingFacts(m0[part.name := Roman(partNum).value], part.chapters, false, chapterNum);
    }
  }

  /** Parts fail to number exactly when the book has ten or more named parts. */
  lemma {:induction false} NumberingDefined(toc: seq<Part>)
    ensures Numbering(toc).Some? <==> |NamedParts(toc)| < 10
    decreases |toc|
  {
    if toc != [] {
      var init := toc[..|toc| - 1];
      NumberingDefined(init);
    }
  }

  lemma {:induction false} NamedPartsArePages(toc: seq<Part>)
    ensures forall x :: x in NamedParts(toc) ==> x in Pages(toc)
    ensures forall x :: x in NumberedChapters(toc) ==> x in Pages(toc)
    decreases |toc|
  {
    if toc != [] {
      NamedPartsArePages(toc[..|toc| - 1]);
    }
  }

  /** Numbering one part keeps the entries of the pages outside it. */
  lemma PartNumberingKeeps(m0: map<string, string>, part: Part, partNum: nat, chapterNum: nat,
                           m: map<string, string>, x: string)
    requires PartNumbering(m0, part, partNum, chapterNum) == Some(m)
    requires x in m0 && x !in PartPages(part)
    ensures x in m && m[x] == m0[x]
  {
    var names := ChapterNames(part.chapters);
    assert x !in names;
    if part.name == "" {
      ChapterNumberingFacts(m0, part.chapters, true, chapterNum);
    } else {
      assert x != part.name;
      ChapterNumberingFacts(m0[part.name := Roman(partNum).value], part.chapters, false, chapterNum);
    }
  }

  /** Numbering one part gives a named part its numeral. */
  lemma PartNumberingOwn(m0: map<string, string>, part: Part, partNum: nat, chapterNum: nat, m: map<string, string>)
    requires PartNumbering(m0, part, partNum, chapterNum) == Some(m)
    requires Distinct(PartPages(part)) && part.name != ""
    ensures part.name in m && Some(m[part.name]) == Roman(partNum)
  {
    var names := ChapterNames(part.chapters);
    DistinctConcat([part.name], names);
    ChapterNumberingFacts(m0[part.name := Roman(partNum).value], part.chapters, false, chapterNum);
  }

  /** Numbering one part gives its j-th chapter "" in the matter, and `chapterNum + j` otherwise. */
  lemma PartNumberingChapter(m0: map<string, string>, part: Part, partNum: nat, chapterNum: nat,
                             m: map<string, string>, j: nat)
    requires PartNumbering(m0, part, partNum, chapterNum) == Some(m)
    requires Distinct(PartPages(part)) && j < |part.chapters|
    ensures part.chapters[j].name in m
    ensures m[part.chapters[j].name] == if part.name == "" then "" else NatToString(chapterNum + j)
  {
    var names := ChapterNames(part.chapters);
    DistinctConcat(if part.name != "" then [part.name] else [], names);
    if part.name == "" {
      ChapterNumberingFacts(m0, part.chapters, true, chapterNum);
    } else {
      ChapterNumberingFacts(m0[part.name := Roman(partNum).value], part.chapters, false, chapterNum);
    }
  }

  lemma NumberingUnfold(toc: seq<Part>)
    requires toc != [] && Numbering(toc).Some?
    ensures var init := toc[..|toc| - 1];
      && Numbering(init).Some?
      && PartNumbering(Numbering(init).value, toc[|toc| - 1], |NamedParts(init)| + 1, |NumberedChapters(init)| + 1)
         == Some(Numbering(toc).value)
      && Pages(toc) == Pages(init) + PartPages(toc[|toc| - 1])
  {
  }

  lemma {:induction false} PartNumeral(toc: seq<Part>, k: nat)
    requires Distinct(Pages(toc)) && Numbering(toc).Some?
    requires k < |NamedParts(toc)|
    ensures NamedParts(toc)[k] in Numbering(toc).value
    ensures Roman(k + 1) == Some(Numbering(toc).value[NamedParts(toc)[k]])
    decreases |toc|
  {
    var init, last := toc[..|toc| - 1], toc[|toc| - 1];
    NumberingUnfold(toc);
    DistinctConcat(Pages(init), PartPages(last));
    if k < |NamedParts(init)| {
      PartNumeral(init, k);
      NamedPartsArePages(init);
      var x := NamedParts(init)[k];
      assert x in Pages(init);
      NumberingKeepsEarlier(toc, x);
      assert NamedParts(toc) == NamedParts(init) + (if last.name != "" then [last.name] else []);
      assert NamedParts(toc)[k] == x;
    } else {
      PartNumeralOfLast(toc, k);
    }
  }

  /** The last part, when named, gets the numeral after those of the named parts before it. */
  lemma {:induction false} PartNumeralOfLast(toc: seq<Part>, k: nat)
    requires toc != [] && Distinct(Pages(toc)) && Numbering(toc).Some?
    requires k < |NamedParts(toc)| && k >= |NamedParts(toc[..|toc| - 1])|
    ensures NamedParts(toc)[k] in Numbering(toc).value
    ensures Roman(k + 1) == Some(Numbering(toc).value[NamedParts(toc)[k]])
  {
    var init, last := toc[..|toc| - 1], toc[|toc| - 1];
    NumberingUnfold(toc);
    var m0, m := Numbering(init).value, Numbering(toc).value;
    var pn, cn := |NamedParts(init)| + 1, |NumberedChapters(init)| + 1;
    DistinctConcat(Pages(init), PartPages(last));
    var before := NamedParts(init);
    assert NamedParts(toc) == before + (if last.name != "" then [last.name] else []);
    assert last.name != "" && k == |before|;
    assert NamedParts(toc)[k] == last.name;
    PartNumberingOwn(m0, last, pn, cn, m);
    calc {
      Roman(k + 1);
      { assert k + 1 == pn; }
      Roman(pn);
    }
  }

  /** With distinct page names, the k-th named part is numbered with the numeral of k (from one). */
  lemma NumberingOfParts(toc: seq<Part>)
    requires Distinct(Pages(toc)) && Numbering(toc).Some?
    ensures forall k :: 0 <= k < |NamedParts(toc)| ==>
      NamedParts(toc)[k] in Numbering(toc).value && Roman(k + 1) == Some(Numbering(toc).value[NamedParts(toc)[k]])
  {
    forall k | 0 <= k < |NamedParts(toc)|
      ensures NamedParts(toc)[k] in Numbering(toc).value
      ensures Roman(k + 1) == Some(Numbering(toc).value[NamedParts(toc)[k]])
    {
      PartNumeral(toc, k);
    }
  }

  lemma LastPartChapterNumeral(toc: seq<Part>, k: nat)
    requires toc != [] && Distinct(Pages(toc)) && Numbering(toc).Some?
    requires |NumberedChapters(toc[..|toc| - 1])| <= k < |NumberedChapters(toc)|
    ensures NumberedChapters(toc)[k] in Numbering(toc).value
    ensures Numbering(toc).value[NumberedChapters(toc)[k]] == NatToString(k + 1)
  {
    var init, last := toc[..|toc| - 1], toc[|toc| - 1];
    var j := k - |NumberedChapters(init)|;
    assert last.name != "";
    assert NumberedChapters(toc) == NumberedChapters(init) + ChapterNames(last.chapters);
    assert NumberedChapters(toc)[k] == last.chapters[j].name;
    NumberingOfLastPart(toc, j, k + 1);
  }

  lemma {:induction false} ChapterNumeral(toc: seq<Part>, k: nat)
    requires Distinct(Pages(toc)) && Numbering(toc).Some?
    requires k < |NumberedChapters(toc)|
    ensures NumberedChapters(toc)[k] in Numbering(toc).value
    ensures Numbering(toc).value[NumberedChapters(toc)[k]] == NatToString(k + 1)
    decreases |toc|
  {
    var init := toc[..|toc| - 1];
    if k < |NumberedChapters(init)| {
      var x := NumberedChapters(init)[k];
      NamedPartsArePages(init);
      assert NumberedChapters(toc)[k] == x;
      NumberingKeepsEarlier(toc, x);
      DistinctPrefix(toc);
      ChapterNumeral(init, k);
    } else {
      LastPartChapterNumeral(toc, k);
    }
  }

  /**
   * With distinct page names, the k-th chapter of the named parts (counting
   * across parts, from one) is numbered with the decimal k.
   */
  lemma NumberingOfChapters(toc: seq<Part>)
    requires Distinct(Pages(toc)) && Numbering(toc).Some?
    ensures forall k :: 0 <= k < |NumberedChapters(toc)| ==>
      NumberedChapters(toc)[k] in Numbering(toc).value
      && Numbering(toc).value[NumberedChapters(toc)[k]] == NatToString(k + 1)
  {
    forall k | 0 <= k < |NumberedChapters(toc)|
      ensures NumberedChapters(toc)[k] in Numbering(toc).value
      ensures Numbering(toc).value[NumberedChapters(toc)[k]] == NatToString(k + 1)
    {
      ChapterNumeral(toc, k);
    }
  }

  lemma {:induction false} MatterNumber(toc: seq<Part>, i: nat, j: nat)
    requires Distinct(Pages(toc)) && Numbering(toc).Some?
    requires i < |toc| && toc[i].name == "" && j < |toc[i].chapters|
    ensures toc[i].chapters[j].name in Numbering(toc).value
    ensures Numbering(toc).value[toc[i].chapters[j].name] == ""
    decreases |toc|
  {
    var init, last := toc[..|toc| - 1], toc[|toc| - 1];
    NumberingUnfold(toc);
    var m0, m := Numbering(init).value, Numbering(toc).value;
    var pn, cn := |NamedParts(init)| + 1, |NumberedChapters(init)| + 1;
    DistinctConcat(Pages(init), PartPages(last));
    if i < |init| {
      assert init[i] == toc[i];
      MatterNumber(init, i, j);
      ChapterIsPage(init, i, j);
      PartNumberingKeeps(m0, last, pn, cn, m, toc[i].chapters[j].name);
    } else {
      PartNumberingChapter(m0, last, pn, cn, m, j);
    }
  }

  /** Every chapter of a matter part gets the empty string as its number. */
  lemma NumberingOfMatter(toc: seq<Part>)
    requires Distinct(Pages(toc)) && Numbering(toc).Some?
    ensures forall i, j :: 0 <= i < |toc| && toc[i].name == "" && 0 <= j < |toc[i].chapters| ==>
      toc[i].chapters[j].name in Numbering(toc).value && Numbering(toc).value[toc[i].chapters[j].name] == ""
  {
    forall i, j | 0 <= i < |toc| && toc[i].name == "" && 0 <= j < |toc[i].chapters|
      ensures toc[i].chapters[j].name in Numbering(toc).value
      ensures Numbering(toc).value[toc[i].chapters[j].name] == ""
    {
      MatterNumber(toc, i, j);
    }
  }

  /** Numbering a further part leaves the numbers of the pages before it alone. */
  lemma DistinctPrefix(toc: seq<Part>)
    requires toc != [] && Distinct(Pages(toc))
    ensures Distinct(Pages(toc[..|toc| - 1]))
  {
    DistinctConcat(Pages(toc[..|toc| - 1]), PartPages(toc[|toc| - 1]));
  }

  lemma {:induction false} NumberingKeepsEarlier(toc: seq<Part>, x: string)
    requires toc != [] && Distinct(Pages(toc)) && Numbering(toc).Some?
    requires x in Pages(toc[..|toc| - 1])
    ensures Numbering(toc[..|toc| - 1]).Some?
    ensures x in Numbering(toc).value && x in Numbering(toc[..|toc| - 1]).value
    ensures Numbering(toc).value[x] == Numbering(toc[..|toc| - 1]).value[x]
  {
    var init, last := toc[..|toc| - 1], toc[|toc| - 1];
    NumberingUnfold(toc);
    var m0, m := Numbering(init).value, Numbering(toc).value;
    var pn, cn := |NamedParts(init)| + 1, |NumberedChapters(init)| + 1;
    assert PartNumbering(m0, last, pn, cn) == Some(m);
    DistinctConcat(Pages(init), PartPages(last));
    assert x !in PartPages(last);
    NumberingKeys(init);
    assert x in m0;
    PartNumberingKeeps(m0, last, pn, cn, m, x);
  }

  /** The chapters of the last named part continue the chapter count of the parts before it. */
  lemma NumberingOfLastPart(toc: seq<Part>, j: nat, ordinal: nat)
    requires toc != [] && Distinct(Pages(toc)) && Numbering(toc).Some?
    requires toc[|toc| - 1].name != "" && j < |toc[|toc| - 1].chapters|
    requires ordinal == |NumberedChapters(toc[..|toc| - 1])| + 1 + j
    ensures toc[|toc| - 1].chapters[j].name in Numbering(toc).value
    ensures Numbering(toc).value[toc[|toc| - 1].chapters[j].name] == NatToString(ordinal)
  {
    var init, last := toc[..|toc| - 1], toc[|toc| - 1];
    NumberingUnfold(toc);
    DistinctConcat(Pages(init), PartPages(last));
    var pn, cn := |NamedParts(init)| + 1, |NumberedChapters(init)| + 1;
    PartNumberingChapter(Numbering(init).value, last, pn, cn, Numbering(toc).value, j);
    calc {
      NatToString(cn + j);
      { assert cn + j == ordinal; }
      NatToString(ordinal);
    }
  }


  /**
   * The chapters of a named part are numbered consecutively, starting after
   * the chapters of the named parts before it.
   */
  lemma {:induction false} PartChapterNumber(toc: seq<Part>, i: nat, j: nat, ordinal: nat)
    requires Distinct(Pages(toc)) && Numbering(toc).Some?
    requires i < |toc| && toc[i].name != "" && j < |toc[i].chapters|
    requires ordinal == |NumberedChapters(toc[..i])| + j + 1
    ensures toc[i].chapters[j].name in Numbering(toc).value
    ensures Numbering(toc).value[toc[i].chapters[j].name] == NatToString(ordinal)
    decreases |toc|
  {
    var init := toc[..|toc| - 1];
    if i < |init| {
      assert init[i] == toc[i] && init[..i] == toc[..i];
      ChapterIsPage(init, i, j);
      NumberingKeepsEarlier(toc, toc[i].chapters[j].name);
      DistinctPrefix(toc);
      PartChapterNumber(init, i, j, ordinal);
    } else {
      assert toc[..i] == init;
      NumberingOfLastPart(toc, j, ordinal);
    }
  }

  // ---- look_up_chapters ----------------------------------------------------

  /** The position of the first part with the given name. */
  function PartIndex(toc: seq<Part>, title: string): (r: Option<nat>)
    ensures r.None? <==> forall i :: 0 <= i < |toc| ==> toc[i].name != title
    ensures r.Some? ==> r.value < |toc| && toc[r.value].name == title
                        && forall i :: 0 <= i < r.value ==> toc[i].name != title
  {
    if toc == [] then None
    else if toc[0].name == title then Some(0)
    else match PartIndex(toc[1..], title)
      case None => None
      case Some(i) => Some(i + 1)
  }

  /**
   * `look_up_chapters(title)`: when `title` names a part, its chapters paired
   * with consecutive numbers that start from the number recorded for its first
   * chapter; otherwise the empty list.
   */
  method LookUpChapters(toc: seq<Part>, numbers: map<string, string>, title: string)
    returns (r: Result<seq<(int, string)>, BuildError>)
    ensures PartIndex(toc, title).None? ==> r == Ok([])
    ensures PartIndex(toc, title).Some? ==>
      var chapters := toc[PartIndex(toc, title).value].chapters;
      if chapters == [] then r == Fatal(PartWithoutChapters(title))
      else if chapters[0].name !in numbers then r == Fatal(MissingKey(chapters[0].name))
      else match ParseInt(numbers[chapters[0].name])
        case None => r == Fatal(NotAnInteger(numbers[chapters[0].name]))
        case Some(first) =>
          && r.Ok? && |r.value| == |chapters|
          && forall j :: 0 <= j < |chapters| ==> r.value[j] == (first + j, chapters[j].name)
  {
    var i := 0;
    while i < |toc|
      invariant 0 <= i <= |toc|
      invariant forall k :: 0 <= k < i ==> toc[k].name != title
    {
      if title == toc[i].name {
        var part := toc[i];
        if part.chapters == [] {
          return Fatal(PartWithoutChapters(title));
        }
        var firstName := part.chapters[0].name;
        if firstName !in numbers {
          return Fatal(MissingKey(firstName));
        }
        var first := ParseInt(numbers[firstName]);
        if first.None? {
          return Fatal(NotAnInteger(numbers[firstName]));
        }
        var chapters: seq<(int, string)> := [];
        var chapterNumber := first.value;
        for j := 0 to |part.chapters|
          invariant |chapters| == j && chapterNumber == first.value + j
          invariant forall k :: 0 <= k < j ==> chapters[k] == (first.value + k, part.chapters[k].name)
        {
          chapters := chapters + [(chapterNumber, part.chapters[j].name)];
          chapterNumber := chapterNumber + 1;
        }
        return Ok(chapters);
      }
      i := i + 1;
    }
    return Ok([]);
  }

  /**
   * For a named part of a table of contents with distinct page names, the
   * number `look_up_chapters` starts from is one more than the count of the
   * numbered chapters before the part.
   */
  lemma LookUpFirstNumber(toc: seq<Part>, i: nat)
    requires Distinct(Pages(toc)) && Numbering(toc).Some?
    requires i < |toc| && toc[i].name != "" && toc[i].chapters != []
    ensures toc[i].chapters[0].name in Numbering(toc).value
    ensures ParseInt(Numbering(toc).value[toc[i].chapters[0].name]) == Some(|NumberedChapters(toc[..i])| + 1)
  {
    var first := |NumberedChapters(toc[..i])| + 1;
    PartChapterNumber(toc, i, 0, first);
    var text := Numbering(toc).value[toc[i].chapters[0].name];
    assert text == IntToString(first);
    ParseIntToString(first);
  }

  /**
   * For a named part of a table of contents with distinct page names, the
   * number `look_up_chapters` gives the part's j-th chapter (the number of its
   * first chapter, plus j) is the one the numbering table records for it.
   */
  lemma LookUpAgreesWithNumbering(toc: seq<Part>, i: nat, j: nat)
    requires Distinct(Pages(toc)) && Numbering(toc).Some?
    requires i < |toc| && toc[i].name != "" && j < |toc[i].chapters|
    ensures toc[i].chapters[0].name in Numbering(toc).value
    ensures toc[i].chapters[j].name in Numbering(toc).value
    ensures ParseInt(Numbering(toc).value[toc[i].chapters[0].name]).Some?
    ensures Numbering(toc).value[toc[i].chapters[j].name]
         == IntToString(ParseInt(Numbering(toc).value[toc[i].chapters[0].name]).value + j)
  {
    var m, first := Numbering(toc).value, |NumberedChapters(toc[..i])| + 1;
    LookUpFirstNumber(toc, i);
    PartChapterNumber(toc, i, j, first + j);
    var start := ParseInt(m[toc[i].chapters[0].name]).value;
    assert start + j == first + j;
    calc {
      m[toc[i].chapters[j].name];
      NatToString(first + j);
      IntToString(first + j);
      { assert start + j == first + j; }
      IntToString(start + j);
    }
  }

  /**
   * The front matter has an empty name, so `look_up_chapters("")` finds it and
   * fails on `int('')`: its first chapter is numbered with the empty string.
   */
  lemma LookUpOfMatterFails(toc: seq<Part>, i: nat)
    requires Distinct(Pages(toc)) && Numbering(toc).Some?
    requires i < |toc| && toc[i].name == "" && toc[i].chapters != []
    ensures toc[i].chapters[0].name in Numbering(toc).value
    ensures ParseInt(Numbering(toc).value[toc[i].chapters[0].name]).None?
  {
    MatterNumber(toc, i, 0);
    var x := toc[i].chapters[0].name;
    assert Numbering(toc).value[x] == "";
    assert Strip("") == "";
  }

  // ---- title_to_file -------------------------------------------------------

  /** Characters `title_to_file` removes. */
  const FileNameDropped: set<char> := {',', '.', '?', '!', ':', '/', '"'}

  function LowerAscii(c: char): (r: char)
    ensures !('A' <= r <= 'Z')
  {
    if 'A' <= c <= 'Z' then (c as int - 'A' as int + 'a' as int) as char else c
  }

  predicate IsFileNameChar(c: char) {
    c != ' ' && c !in FileNameDropped && !('A' <= c <= 'Z')
  }

  /** Lower-cases, turns spaces into hyphens and removes `,.?!:/"`, character by character. */
  function Slug(s: string): (r: string)
    ensures |r| <= |s|
    ensures forall c :: c in r ==> IsFileNameChar(c)
  {
    if s == [] then []
    else
      var c := if LowerAscii(s[0]) == ' ' then '-' else LowerAscii(s[0]);
      (if c in FileNameDropped then [] else [c]) + Slug(s[1..])
  }

  /** `title_to_file(title)`: the page's file name (and a header's anchor). */
  function TitleToFile(title: string): (r: string)
    ensures forall c :: c in r ==> IsFileNameChar(c)
  {
    if title == "Crafting Interpreters" then "index"
    else if title == "Table of Contents" then "contents"
    else Slug(title)
  }

  lemma {:induction false} SlugKeepsFileNames(s: string)
    requires forall c :: c in s ==> IsFileNameChar(c)
    ensures Slug(s) == s
  {
    if s != [] {
      assert s[0] in s;
      SlugKeepsFileNames(s[1..]);
      assert [s[0]] + s[1..] == s;
    }
  }

  /** The file-name character a title character becomes when it is not dropped. */
  function SlugChar(c: char): char {
    if c == ' ' then '-' else LowerAscii(c)
  }

  /** Without punctuation to drop, `Slug` maps the text character by character. */
  lemma {:induction false} SlugMapsChars(s: string)
    requires forall i :: 0 <= i < |s| ==> s[i] !in FileNameDropped
    ensures |Slug(s)| == |s|
    ensures forall i :: 0 <= i < |s| ==> Slug(s)[i] == SlugChar(s[i])
  {
    if s != [] {
      SlugMapsChars(s[1..]);
      assert Slug(s) == [SlugChar(s[0])] + Slug(s[1..]);
    }
  }

  /**
   * A title other than the two special pages, without any of `,.?!:/"`,
   * becomes the file name of the same length with every space a hyphen and
   * every ASCII capital lower-cased ("Hash Tables" gives "hash-tables").
   */
  lemma TitleToFileOfPlainTitle(title: string)
    requires title != "Crafting Interpreters" && title != "Table of Contents"
    requires forall i :: 0 <= i < |title| ==> title[i] !in FileNameDropped
    ensures |TitleToFile(title)| == |title|
    ensures forall i :: 0 <= i < |title| ==>
      TitleToFile(title)[i] == if title[i] == ' ' then '-' else LowerAscii(title[i])
  {
    SlugMapsChars(title);
  }

  /** A file name is its own file name: `title_to_file` is idempotent. */
  lemma TitleToFileIdempotent(title: string)
    ensures TitleToFile(TitleToFile(title)) == TitleToFile(title)
  {
    var r := TitleToFile(title);
    assert ' ' !in r;
    assert "Crafting Interpreters"[8] == ' ' && "Table of Contents"[5] == ' ';
    SlugKeepsFileNames(r);
  }

  function DropChars(s: string, drop: set<char>): (r: string)
    ensures forall c :: c in r ==> c in s && c !in drop
  {
    if s == [] then [] else (if s[0] in drop then [] else [s[0]]) + DropChars(s[1..], drop)
  }

  lemma {:induction false} DropCharsAbsent(s: string, drop: set<char>)
    requires forall c :: c in s ==> c !in drop
    ensures DropChars(s, drop) == s
  {
    if s != [] {
      assert s[0] in s;
      DropCharsAbsent(s[1..], drop);
      assert [s[0]] + s[1..] == s;
    }
  }

  /**
   * The anchor of a header: its file name with `.?!:/"` removed once more,
   * which changes nothing, since file names hold none of them.
   */
  function HeaderAnchor(header: string): (r: string)
    ensures r == TitleToFile(header)
  {
    var file := TitleToFile(header);
    DropCharsAbsent(file, {'.', '?', '!', ':', '/', '"'});
    DropChars(file, {'.', '?', '!', ':', '/', '"'})
  }

  // ---- adjacent_page -------------------------------------------------------

  /** `pages.index(title)`: the first position of `title`. */
  function IndexOf(pages: seq<string>, title: string): (r: Option<nat>)
    ensures r.None? <==> title !in pages
    ensures r.Some? ==> r.value < |pages| && pages[r.value] == title && title !in pages[..r.value]
  {
    if pages == [] then None
    else if pages[0] == title then Some(0)
    else match IndexOf(pages[1..], title)
      case None => None
      case Some(i) =>
        assert pages[..i + 1] == [pages[0]] + pages[1..][..i];
        Some(i + 1)
  }

  /**
   * `adjacent_page(title, offset)`: the page `offset` places away from
   * `title`, `None` past either end; a title that is not a page is an error.
   */
  function AdjacentPage(pages: seq<string>, title: string, offset: int): (r: Result<Option<string>, BuildError>)
    ensures r.Fatal? <==> title !in pages
  {
    match IndexOf(pages, title)
    case None => Fatal(PageNotFound(title))
    case Some(index) =>
      var k := index + offset;
      if k < 0 || k >= |pages| then Ok(None) else Ok(Some(pages[k]))
  }

  lemma IndexOfDistinct(pages: seq<string>, k: nat)
    requires Distinct(pages) && k < |pages|
    ensures IndexOf(pages, pages[k]) == Some(k)
  {
    var i := IndexOf(pages, pages[k]).value;
    assert pages[i] == pages[k];
  }

  /** In a page order without repeats, the neighbours of page k are pages k-1 and k+1. */
  lemma AdjacentOfDistinct(pages: seq<string>, k: nat, offset: int)
    requires Distinct(pages) && k < |pages|
    ensures AdjacentPage(pages, pages[k], offset)
      == Ok(if 0 <= k + offset < |pages| then Some(pages[k + offset]) else None)
  {
    IndexOfDistinct(pages, k);
  }

  /** "Next" and "previous" are inverse to each other. */
  lemma AdjacentInverse(pages: seq<string>, a: string, b: string)
    requires Distinct(pages)
    ensures AdjacentPage(pages, a, 1) == Ok(Some(b)) <==> AdjacentPage(pages, b, -1) == Ok(Some(a))
  {
    if AdjacentPage(pages, a, 1) == Ok(Some(b)) {
      var i := IndexOf(pages, a).value;
      IndexOfDistinct(pages, i + 1);
    }
    if AdjacentPage(pages, b, -1) == Ok(Some(a)) {
      var i := IndexOf(pages, b).value;
      IndexOfDistinct(pages, i - 1);
    }
  }

  // ---- pretty --------------------------------------------------------------

  /** `pretty(text)`: typographic dashes and HTML entities for accented letters. */
  function Pretty(text: string): string {
    var t := ReplaceAll(text, " -- ", "&#8202;&mdash;&#8202;");
    var t := ReplaceAll(t, " --\n", "&#8202;&mdash;&#8202;");
    var t := ReplaceAll(t, "\U{E0}", "&agrave;");
    var t := ReplaceAll(t, "\U{EF}", "&iuml;");
    var t := ReplaceAll(t, "\U{F8}", "&oslash;");
    ReplaceAll(t, "\U{E6}", "&aelig;")
  }

  /** No accented letter `pretty` handles survives it. */
  lemma PrettyReplacesAccents(text: string)
    ensures forall c :: c in Pretty(text) ==> c !in {'\U{E0}', '\U{EF}', '\U{F8}', '\U{E6}'}
  {
    var t1 := ReplaceAll(text, " -- ", "&#8202;&mdash;&#8202;");
    var t2 := ReplaceAll(t1, " --\n", "&#8202;&mdash;&#8202;");
    var t3 := ReplaceAll(t2, "\U{E0}", "&agrave;");
    var t4 := ReplaceAll(t3, "\U{EF}", "&iuml;");
    var t5 := ReplaceAll(t4, "\U{F8}", "&oslash;");
    var t6 := ReplaceAll(t5, "\U{E6}", "&aelig;");
    ReplaceCharRemoves(t2, '\U{E0}', "&agrave;");
    ReplaceKeepsAbsent(t3, "\U{EF}", "&iuml;", '\U{E0}');
    ReplaceKeepsAbsent(t4, "\U{F8}", "&oslash;", '\U{E0}');
    ReplaceKeepsAbsent(t5, "\U{E6}", "&aelig;", '\U{E0}');
    ReplaceCharRemoves(t3, '\U{EF}', "&iuml;");
    ReplaceKeepsAbsent(t4, "\U{F8}", "&oslash;", '\U{EF}');
    ReplaceKeepsAbsent(t5, "\U{E6}", "&aelig;", '\U{EF}');
    ReplaceCharRemoves(t4, '\U{F8}', "&oslash;");
    ReplaceKeepsAbsent(t5, "\U{E6}", "&aelig;", '\U{F8}');
    ReplaceCharRemoves(t5, '\U{E6}', "&aelig;");
  }

  /** Text without hyphens or the accented letters passes through `pretty` unchanged. */
  lemma PrettyKeepsPlainText(text: string)
    requires '-' !in text
    requires forall c :: c in text ==> c !in {'\U{E0}', '\U{EF}', '\U{F8}', '\U{E6}'}
    ensures Pretty(text) == text
  {
    MissingCharNotOccurs(text, " -- ", 1);
    ReplaceAbsent(text, " -- ", "&#8202;&mdash;&#8202;");
    MissingCharNotOccurs(text, " --\n", 1);
    ReplaceAbsent(text, " --\n", "&#8202;&mdash;&#8202;");
    MissingCharNotOccurs(text, "\U{E0}", 0);
    ReplaceAbsent(text, "\U{E0}", "&agrave;");
    MissingCharNotOccurs(text, "\U{EF}", 0);
    ReplaceAbsent(text, "\U{EF}", "&iuml;");
    MissingCharNotOccurs(text, "\U{F8}", 0);
    ReplaceAbsent(text, "\U{F8}", "&oslash;");
    MissingCharNotOccurs(text, "\U{E6}", 0);
    ReplaceAbsent(text, "\U{E6}", "&aelig;");
  }
}
