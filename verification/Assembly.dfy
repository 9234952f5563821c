/**
  Assembling a parsed document from the text of its pages, and what the headings found
  this way mean for a later lookup: every section runs to the end of the text, so an
  offset belongs to the first heading, in the fixed order, that occurs at or before it.
*/
module Assembly {
  import opened Wrappers
  import opened TextMatch
  import opened Documents

  const Headings: seq<string> := ["summary", "skills", "experience", "projects", "education", "certifications"]

  predicate OccursAt(text: string, needle: string, i: int) {
    0 <= i && i + |needle| <= |text| && text[i..i + |needle|] == needle
  }

  /** `indexOf`: the leftmost occurrence at or after `p`. */
  function IndexFrom(text: string, needle: string, p: nat): (r: Option<nat>)
    requires p <= |text|
    ensures r.Some? ==>
      p <= r.value && OccursAt(text, needle, r.value) && forall j | p <= j < r.value :: !OccursAt(text, needle, j)
    ensures r.None? ==> forall j | p <= j :: !OccursAt(text, needle, j)
    decreases |text| - p
  {
    if OccursAt(text, needle, p) then Some(p)
    else if p < |text| then IndexFrom(text, needle, p + 1)
    else None
  }

  /** The sections of the headings from number `h` on. */
  function SectionsFrom(pages: seq<Page>, text: string, h: nat): seq<Section>
    requires h <= |Headings|
    decreases |Headings| - h
  {
    if h == |Headings| then []
    else
      var start := IndexFrom(Lower(text), Headings[h], 0);
      (if start.Some? then [Section(Headings[h], PageOf(pages, start.value), start.value, |text|)] else [])
      + SectionsFrom(pages, text, h + 1)
  }

  function Sections(pages: seq<Page>, text: string): seq<Section> {
    SectionsFrom(pages, text, 0)
  }

  predicate WellPaged(pages: seq<Page>) {
    Numbered(pages) && forall p | p in pages :: Trimmed(p.text) && SingleSpaced(p.text)
  }

  /** The text of a page: extracted, or recognized when nothing could be extracted. */
  function PageText(raw: string, ocr: string): string {
    if NormalizePage(raw) == [] then NormalizePage(ocr) else NormalizePage(raw)
  }

  /** The pages of a document, numbered from 1. */
  function PagesOf(raw: seq<string>, ocr: seq<string>): seq<Page>
    requires |ocr| == |raw|
  {
    seq(|raw|, i requires 0 <= i < |raw| => Page(i + 1, PageText(raw[i], ocr[i])))
  }

  function TotalBytes(bytes: string -> nat, pages: seq<Page>): nat {
    if pages == [] then 0 else TotalBytes(bytes, pages[..|pages| - 1]) + bytes(pages[|pages| - 1].text)
  }

  lemma {:induction false} TotalBytesGrow(bytes: string -> nat, pages: seq<Page>, n: nat)
    requires n <= |pages|
    ensures TotalBytes(bytes, pages[..n]) <= TotalBytes(bytes, pages)
  {
    if n == |pages| {
      assert pages[..n] == pages;
    } else {
      assert pages[..|pages| - 1][..n] == pages[..n];
      TotalBytesGrow(bytes, pages[..|pages| - 1], n);
    }
  }

  lemma OneMorePage(raw: seq<string>, ocr: seq<string>, bytes: string -> nat, i: nat)
    requires |ocr| == |raw| && i < |raw|
    ensures var pages, text := PagesOf(raw, ocr), PageText(raw[i], ocr[i]);
      && pages[..i + 1] == pages[..i] + [Page(i + 1, text)]
      && TotalBytes(bytes, pages[..i + 1]) == TotalBytes(bytes, pages[..i]) + bytes(text)
  {
    var pages := PagesOf(raw, ocr);
    assert pages[..i + 1][..i] == pages[..i];
  }

  /** The text of some page had to be recognized, and something was. */
  ghost predicate FellBack(raw: seq<string>, ocr: seq<string>, n: nat)
    requires |ocr| == |raw| && n <= |raw|
  {
    exists i :: 0 <= i < n && NormalizePage(raw[i]) == [] && ocr[i] != []
  }

  ghost predicate TooLarge(pages: seq<Page>, bytes: string -> nat, maxBytes: nat) {
    TotalBytes(bytes, pages) > maxBytes || bytes(JoinedText(pages)) > maxBytes
  }

  lemma PagesWellPaged(raw: seq<string>, ocr: seq<string>)
    requires |ocr| == |raw|
    ensures WellPaged(PagesOf(raw, ocr))
  {
    forall i | 0 <= i < |raw|
      ensures Trimmed(PageText(raw[i], ocr[i])) && SingleSpaced(PageText(raw[i], ocr[i]))
    {
      NormalizedShape(raw[i]);
      NormalizedShape(ocr[i]);
    }
  }

  /** One page: its extracted text, or the recognized one when extraction gave nothing. */
  method ReadPage(raw: string, ocr: string) returns (text: string, fellBack: bool)
    ensures text == PageText(raw, ocr)
    ensures fellBack <==> NormalizePage(raw) == [] && ocr != []
  {
    text := NormalizePage(raw);
    fellBack := text == [] && ocr != [];
    if fellBack {
      text := NormalizePage(ocr);
    }
  }

  /**
    Every page has its number and the words of its extracted text, or of the recognized one
    when nothing was extracted; the document has the words of its pages, in order.
  */
  ghost predicate KeepsWords(d: Document, raw: seq<string>, ocr: seq<string>) {
    && |d.pages| == |raw| == |ocr| && Words(d.normalizedText) == PageWords(d.pages)
    && forall i | 0 <= i < |raw| ::
         && d.pages[i].number == i + 1
         && Words(d.pages[i].text) == if Words(raw[i]) != [] then Words(raw[i]) else Words(ocr[i])
  }

  lemma PagesHaveWords(d: Document, raw: seq<string>, ocr: seq<string>)
    requires |ocr| == |raw| && d.pages == PagesOf(raw, ocr) && d.normalizedText == JoinedText(d.pages)
    ensures KeepsWords(d, raw, ocr)
  {
    forall i | 0 <= i < |raw|
      ensures Words(PageText(raw[i], ocr[i])) == if Words(raw[i]) != [] then Words(raw[i]) else Words(ocr[i])
    {
      NormalizedWords(raw[i]);
      NormalizedWords(ocr[i]);
    }
    JoinedWords(d.pages);
  }

  /** The page loop: the pages, or none when they are too large together. `warned` says that a page fell back. */
  method ReadPages(raw: seq<string>, ocr: seq<string>, bytes: string -> nat, maxBytes: nat)
      returns (read: Option<seq<Page>>, warned: bool)
    requires |ocr| == |raw|
    ensures read.None? <==> TotalBytes(bytes, PagesOf(raw, ocr)) > maxBytes
    ensures read.Some? ==> read.value == PagesOf(raw, ocr) && warned == FellBack(raw, ocr, |raw|)
  {
    ghost var whole := PagesOf(raw, ocr);
    var pages: seq<Page> := [];
    var textBytes := 0;
    warned := false;
    for i := 0 to |raw|
      invariant pages == whole[..i]
      invariant textBytes == TotalBytes(bytes, pages) <= maxBytes
      invariant warned == FellBack(raw, ocr, i)
    {
      var text, fellBack := ReadPage(raw[i], ocr[i]);
      warned := warned || fellBack;
      textBytes := textBytes + bytes(text);
      pages := pages + [Page(i + 1, text)];
      OneMorePage(raw, ocr, bytes, i);
      if textBytes > maxBytes {
        TotalBytesGrow(bytes, whole, i + 1);
        return None, warned;
      }
    }
    assert whole[..|raw|] == whole;
    read := Some(pages);
  }

  /**
    The page loop and the assembly. `raw` is the extracted text of each page, `ocr` what
    text recognition returns for it (empty when it is disabled or fails), `bytes` the
    UTF-8 length of a string. `warned` says that the fallback warning is reported.
  */
  method ParsePages(raw: seq<string>, ocr: seq<string>, bytes: string -> nat, maxBytes: nat)
      returns (result: Result<Document, string>, warned: bool)
    requires |ocr| == |raw|
    ensures result == Err("PDF_TEXT_TOO_LARGE") <==> TooLarge(PagesOf(raw, ocr), bytes, maxBytes)
    ensures result == Err("NO_READABLE_TEXT") <==>
      !TooLarge(PagesOf(raw, ocr), bytes, maxBytes) && |JoinedText(PagesOf(raw, ocr))| < 30
    ensures result.Err? ==> result.error in {"PDF_TEXT_TOO_LARGE", "NO_READABLE_TEXT"}
    ensures result.Ok? ==> var d := result.value;
      && d.pages == PagesOf(raw, ocr) && WellPaged(d.pages)
      && d.normalizedText == JoinedText(d.pages) && d.sections == Sections(d.pages, d.normalizedText)
      && warned == FellBack(raw, ocr, |raw|)
    ensures result.Ok? ==> KeepsWords(result.value, raw, ocr)
  {
    var read;
    read, warned := ReadPages(raw, ocr, bytes, maxBytes);
    if read.None? {
      return Err("PDF_TEXT_TOO_LARGE"), warned;
    }
    PagesWellPaged(raw, ocr);
    result := Assemble(read.value, bytes, maxBytes);
    if result.Ok? {
      PagesHaveWords(result.value, raw, ocr);
    }
  }

  /** From the pages to the document: join, limits, sections. */
  method Assemble(pages: seq<Page>, bytes: string -> nat, maxBytes: nat) returns (result: Result<Document, string>)
    ensures bytes(JoinedText(pages)) > maxBytes ==> result == Err("PDF_TEXT_TOO_LARGE")
    ensures bytes(JoinedText(pages)) <= maxBytes && |JoinedText(pages)| < 30 ==> result == Err("NO_READABLE_TEXT")
    ensures bytes(JoinedText(pages)) <= maxBytes && 30 <= |JoinedText(pages)| ==>
      result == Ok(Document(pages, Sections(pages, JoinedText(pages)), JoinedText(pages)))
  {
    var normalizedText := JoinedText(pages);
    if bytes(normalizedText) > maxBytes {
      return Err("PDF_TEXT_TOO_LARGE");
    }
    if |normalizedText| < 30 {
      return Err("NO_READABLE_TEXT");
    }
    result := Ok(Document(pages, Sections(pages, normalizedText), normalizedText));
  }

  lemma {:induction false} SectionsFromIff(pages: seq<Page>, text: string, h: nat, s: Section)
    requires h <= |Headings|
    ensures s in SectionsFrom(pages, text, h) <==> exists g: nat :: h <= g < |Headings| && SectionOf(pages, text, g, s)
    decreases |Headings| - h
  {
    if h < |Headings| {
      SectionsFromIff(pages, text, h + 1, s);
      OneSection(pages, text, h, s);
    }
  }

  lemma OneSection(pages: seq<Page>, text: string, h: nat, s: Section)
    requires h < |Headings|
    ensures s in SectionsFrom(pages, text, h) <==>
      SectionOf(pages, text, h, s) || s in SectionsFrom(pages, text, h + 1)
  {
    var start, rest := IndexFrom(Lower(text), Headings[h], 0), SectionsFrom(pages, text, h + 1);
    if start.Some? {
      var first := Section(Headings[h], PageOf(pages, start.value), start.value, |text|);
      assert SectionsFrom(pages, text, h) == [first] + rest;
    } else {
      assert SectionsFrom(pages, text, h) == [] + rest == rest;
    }
  }

  ghost predicate SectionOf(pages: seq<Page>, text: string, g: nat, s: Section) {
    && g < |Headings| && s.name == Headings[g] && IndexFrom(Lower(text), Headings[g], 0) == Some(s.start)
    && s.end == |text| && s.page == PageOf(pages, s.start)
  }

  /** `name` occurs at `start` and nowhere before. */
  ghost predicate FirstAt(text: string, name: string, start: nat) {
    OccursAt(text, name, start) && forall j | 0 <= j < start :: !OccursAt(text, name, j)
  }

  /**
    The sections of a document: one for each of the six headings that occurs, where it
    occurs first, on the page of that place, and to the end of the text.
  */
  lemma SectionsExact(pages: seq<Page>, text: string, s: Section)
    ensures s in Sections(pages, text) <==>
      s.name in {"summary", "skills", "experience", "projects", "education", "certifications"}
      && SectionAt(pages, text, s)
  {
    SectionsFromIff(pages, text, 0, s);
    HeadingNames(s.name);
    forall g: nat
      ensures SectionOf(pages, text, g, s) <==>
        g < |Headings| && Headings[g] == s.name && SectionAt(pages, text, s)
    {
      IndexIsFirst(Lower(text), s.name, s.start);
    }
  }

  /** The section opens where its name occurs first, and ends with the text. */
  ghost predicate SectionAt(pages: seq<Page>, text: string, s: Section) {
    FirstAt(Lower(text), s.name, s.start) && s.end == |text| && s.page == PageOf(pages, s.start)
  }

  lemma IndexIsFirst(text: string, name: string, start: nat)
    ensures IndexFrom(text, name, 0) == Some(start) <==> FirstAt(text, name, start)
  {
  }

  lemma HeadingNames(name: string)
    ensures name in {"summary", "skills", "experience", "projects", "education", "certifications"}
            <==> exists g: nat :: g < |Headings| && Headings[g] == name
  {
    assert Headings[0] == "summary" && Headings[1] == "skills" && Headings[2] == "experience";
    assert Headings[3] == "projects" && Headings[4] == "education" && Headings[5] == "certifications";
  }

  // ----- section lookup -----

  /** The engine's `_sectionFor`: the first section in the list that spans the offset. */
  function SectionFor(sections: seq<Section>, offset: nat): Option<string> {
    if sections == [] then None
    else if sections[0].start <= offset <= sections[0].end then Some(sections[0].name)
    else SectionFor(sections[1..], offset)
  }

  /** Heading `h` occurs in the text at or before the offset. */
  ghost predicate HeadingBefore(text: string, h: nat, offset: nat)
    requires h < |Headings|
  {
    exists i: nat :: i <= offset && OccursAt(Lower(text), Headings[h], i)
  }

  /** The first heading from number `h` on that occurs at or before the offset, or their number. */
  ghost function FirstHeading(text: string, h: nat, offset: nat): (g: nat)
    requires h <= |Headings|
    ensures h <= g <= |Headings|
    ensures g < |Headings| ==> HeadingBefore(text, g, offset)
    ensures forall e | h <= e < g :: !HeadingBefore(text, e, offset)
    decreases |Headings| - h
  {
    if h == |Headings| || HeadingBefore(text, h, offset) then h else FirstHeading(text, h + 1, offset)
  }

  lemma {:induction false} SectionForHeadings(pages: seq<Page>, text: string, h: nat, offset: nat)
    requires h <= |Headings| && offset <= |text|
    ensures var g := FirstHeading(text, h, offset);
      SectionFor(SectionsFrom(pages, text, h), offset) == if g < |Headings| then Some(Headings[g]) else None
    decreases |Headings| - h
  {
    if h < |Headings| {
      SectionForHeadings(pages, text, h + 1, offset);
      StartBefore(text, h, offset);
      FirstSection(pages, text, h, offset);
    }
  }

  /** The lookup in the sections from heading `h` on, by whether `h` starts at or before the offset. */
  lemma FirstSection(pages: seq<Page>, text: string, h: nat, offset: nat)
    requires h < |Headings| && offset <= |text|
    ensures var start := IndexFrom(Lower(text), Headings[h], 0);
      SectionFor(SectionsFrom(pages, text, h), offset)
      == if start.Some? && start.value <= offset then Some(Headings[h])
         else SectionFor(SectionsFrom(pages, text, h + 1), offset)
  {
    var start, rest := IndexFrom(Lower(text), Headings[h], 0), SectionsFrom(pages, text, h + 1);
    if start.Some? {
      var s := Section(Headings[h], PageOf(pages, start.value), start.value, |text|);
      assert SectionsFrom(pages, text, h) == [s] + rest;
      assert ([s] + rest)[1..] == rest;
    } else {
      assert SectionsFrom(pages, text, h) == [] + rest == rest;
    }
  }

  lemma StartBefore(text: string, h: nat, offset: nat)
    requires h < |Headings|
    ensures var start := IndexFrom(Lower(text), Headings[h], 0);
      HeadingBefore(text, h, offset) <==> start.Some? && start.value <= offset
  {
  }

  /**
    In a parsed document the section of an offset is the first heading, in the fixed
    order, that occurs at or before it: not the nearest heading above it.
  */
  lemma SectionIsFirstHeading(pages: seq<Page>, text: string, g: nat, offset: nat)
    requires g < |Headings| && offset <= |text|
    ensures SectionFor(Sections(pages, text), offset) == Some(Headings[g])
            <==> HeadingBefore(text, g, offset) && forall e | 0 <= e < g :: !HeadingBefore(text, e, offset)
  {
    SectionForHeadings(pages, text, 0, offset);
    HeadingsDistinct();
  }

  lemma HeadingsDistinct()
    ensures forall a, b | 0 <= a < b < |Headings| :: Headings[a] != Headings[b]
  {
    assert Headings[0][0] == 's' && Headings[1][0] == 's' && Headings[0][1] == 'u' && Headings[1][1] == 'k';
    assert Headings[2][1] == 'x' && Headings[3][0] == 'p' && Headings[4][1] == 'd' && Headings[5][0] == 'c';
    assert Headings[2][0] == 'e' && Headings[4][0] == 'e';
  }
}
