/**
  The parsed document: page text normalization, the "\n\n"-joined text, the headings
  found in it, and the two ways an offset in that text is turned into a page number.
*/
module Documents {
  datatype Page = Page(number: nat, text: string)

  datatype Section = Section(name: string, page: nat, start: nat, end: nat)

  datatype Document = Document(pages: seq<Page>, sections: seq<Section>, normalizedText: string)

  // ----- white space -----

  /** The white space `\s` and `trim` agree on. */
  predicate Space(c: char) {
    c in {' ', '\t', '\n', '\r', '\U{B}', '\U{C}', '\U{A0}', '\U{1680}', '\U{2028}', '\U{2029}', '\U{202F}',
          '\U{205F}', '\U{3000}', '\U{FEFF}'}
    || '\U{2000}' <= c <= '\U{200A}'
  }

  /** `replace(/\s+/g, ' ')`; `inRun` says that the previous character was white space. */
  function Collapse(s: string, inRun: bool): string {
    if s == [] then []
    else if Space(s[0]) then (if inRun then [] else [' ']) + Collapse(s[1..], true)
    else [s[0]] + Collapse(s[1..], false)
  }

  function TrimLeft(s: string): string {
    if s != [] && Space(s[0]) then TrimLeft(s[1..]) else s
  }

  function TrimRight(s: string): string {
    if s != [] && Space(s[|s| - 1]) then TrimRight(s[..|s| - 1]) else s
  }

  function Trim(s: string): string {
    TrimRight(TrimLeft(s))
  }

  function NormalizePage(s: string): string {
    Trim(Collapse(s, false))
  }

  predicate Trimmed(s: string) {
    s != [] ==> !Space(s[0]) && !Space(s[|s| - 1])
  }

  /** White space only as single blanks. */
  predicate SingleSpaced(s: string) {
    && (forall i | 0 <= i < |s| :: Space(s[i]) ==> s[i] == ' ')
    && (forall i | 0 < i < |s| :: Space(s[i]) ==> !Space(s[i - 1]))
  }

  lemma {:induction false} CollapseSpaces(s: string, inRun: bool)
    ensures SingleSpaced(Collapse(s, inRun))
    ensures inRun && Collapse(s, inRun) != [] ==> !Space(Collapse(s, inRun)[0])
  {
    if s != [] {
      if Space(s[0]) {
        CollapseSpaces(s[1..], true);
      } else {
        CollapseSpaces(s[1..], false);
      }
    }
  }

  lemma {:induction false} TrimLeftSuffix(s: string) returns (k: nat)
    ensures k <= |s| && TrimLeft(s) == s[k..]
    ensures TrimLeft(s) != [] ==> !Space(TrimLeft(s)[0])
    ensures forall i | 0 <= i < k :: Space(s[i])
  {
    if s != [] && Space(s[0]) {
      var rest := TrimLeftSuffix(s[1..]);
      k := rest + 1;
      assert s[1..][rest..] == s[k..];
      forall i | 0 <= i < k
        ensures Space(s[i])
      {
        assert i > 0 ==> s[i] == s[1..][i - 1];
      }
    } else {
      k := 0;
    }
  }

  lemma {:induction false} TrimRightPrefix(s: string) returns (k: nat)
    ensures k <= |s| && TrimRight(s) == s[..k]
    ensures TrimRight(s) != [] ==> !Space(TrimRight(s)[|TrimRight(s)| - 1])
    ensures forall i | k <= i < |s| :: Space(s[i])
  {
    if s != [] && Space(s[|s| - 1]) {
      k := TrimRightPrefix(s[..|s| - 1]);
      assert s[..|s| - 1][..k] == s[..k];
    } else {
      k := |s|;
    }
  }

  /** Normalized page text is trimmed and single-spaced. */
  lemma NormalizedShape(s: string)
    ensures Trimmed(NormalizePage(s)) && SingleSpaced(NormalizePage(s))
  {
    CollapseSpaces(s, false);
    var c := Collapse(s, false);
    var a := TrimLeftSuffix(c);
    var b := TrimRightPrefix(TrimLeft(c));
    SingleSpacedPart(c, a, a + b);
    assert NormalizePage(s) == c[a..][..b] == c[a..a + b];
    assert NormalizePage(s) != [] ==> NormalizePage(s)[0] == TrimLeft(c)[0];
  }

  lemma SingleSpacedPart(s: string, a: nat, b: nat)
    requires SingleSpaced(s) && a <= b <= |s|
    ensures SingleSpaced(s[a..b])
  {
    var part := s[a..b];
    assert forall i | 0 <= i < |part| :: part[i] == s[a + i];
  }

  lemma {:induction false} CollapseIdentity(s: string)
    requires SingleSpaced(s)
    ensures Collapse(s, false) == s
    ensures s != [] && !Space(s[0]) ==> Collapse(s, true) == s
  {
    if s != [] {
      var rest := s[1..];
      assert SingleSpaced(rest) by {
        forall i | 0 < i < |rest|
          ensures Space(rest[i]) ==> !Space(rest[i - 1])
        {
          assert rest[i] == s[i + 1] && rest[i - 1] == s[i];
        }
      }
      CollapseIdentity(rest);
      if Space(s[0]) && rest != [] {
        assert !Space(s[1]);
      }
      assert s == [s[0]] + rest;
    }
  }

  /** Normalizing a page a second time changes nothing. */
  lemma NormalizeIdempotent(s: string)
    ensures NormalizePage(NormalizePage(s)) == NormalizePage(s)
  {
    NormalizedShape(s);
    CollapseIdentity(NormalizePage(s));
  }

  // ----- the words of a text -----

  /** The maximal runs of characters that are no white space; `word` is the run read so far. */
  function WordsFrom(s: string, word: string): seq<string> {
    if s == [] then Ended(word)
    else if Space(s[0]) then Ended(word) + WordsFrom(s[1..], [])
    else WordsFrom(s[1..], word + [s[0]])
  }

  function Ended(word: string): seq<string> {
    if word == [] then [] else [word]
  }

  function Words(s: string): seq<string> {
    WordsFrom(s, [])
  }

  function Spaced(words: seq<string>): string {
    if words == [] then [] else if |words| == 1 then words[0] else words[0] + " " + Spaced(words[1..])
  }

  /** White space by character code. */
  lemma SpaceCodes(c: char)
    ensures Space(c) <==>
      || 9 <= c as int <= 13 || 8192 <= c as int <= 8202
      || c as int in {32, 160, 5760, 8232, 8233, 8239, 8287, 12288, 65279}
  {
    if 9 <= c as int <= 13 {
      assert c in {'\t', '\n', '\U{B}', '\U{C}', '\r'};
    } else if c as int in {32, 160, 5760} {
      assert c in {' ', '\U{A0}', '\U{1680}'};
    } else if c as int in {8232, 8233, 8239, 8287, 12288, 65279} {
      assert c in {'\U{2028}', '\U{2029}', '\U{202F}', '\U{205F}', '\U{3000}', '\U{FEFF}'};
    }
  }

  lemma {:induction false} WordsCollapsed(s: string, inRun: bool, word: string)
    requires inRun ==> word == []
    ensures WordsFrom(Collapse(s, inRun), word) == WordsFrom(s, word)
  {
    if s != [] {
      var rest := Collapse(s[1..], Space(s[0]));
      if Space(s[0]) {
        WordsCollapsed(s[1..], true, []);
        if inRun {
          assert Collapse(s, inRun) == [] + rest == rest;
          assert Ended([]) + WordsFrom(s[1..], []) == WordsFrom(s[1..], []);
        } else {
          assert ([' '] + rest)[1..] == rest;
        }
      } else {
        WordsCollapsed(s[1..], false, word + [s[0]]);
        assert ([s[0]] + rest)[1..] == rest;
      }
    }
  }

  lemma {:induction false} WordsTrimmedLeft(s: string)
    ensures Words(TrimLeft(s)) == Words(s)
  {
    if s != [] && Space(s[0]) {
      WordsTrimmedLeft(s[1..]);
    }
  }

  lemma {:induction false} WordsSpaceBehind(s: string, c: char, word: string)
    requires Space(c)
    ensures WordsFrom(s + [c], word) == WordsFrom(s, word)
  {
    if s == [] {
      assert (s + [c])[1..] == [];
    } else {
      assert (s + [c])[1..] == s[1..] + [c];
      WordsSpaceBehind(s[1..], c, if Space(s[0]) then [] else word + [s[0]]);
    }
  }

  lemma {:induction false} WordsTrimmedRight(s: string)
    ensures Words(TrimRight(s)) == Words(s)
  {
    if s != [] && Space(s[|s| - 1]) {
      WordsTrimmedRight(s[..|s| - 1]);
      WordsSpaceBehind(s[..|s| - 1], s[|s| - 1], []);
      assert s == s[..|s| - 1] + [s[|s| - 1]];
    }
  }

  lemma WordsTrimmed(s: string)
    ensures Words(Trim(s)) == Words(s)
  {
    WordsTrimmedLeft(s);
    WordsTrimmedRight(TrimLeft(s));
  }

  lemma SpacedTail(word: string, words: seq<string>, rest: string)
    requires words != [] && Spaced(words) == rest
    ensures Spaced([word] + words) == word + (" " + rest)
  {
    assert ([word] + words)[1..] == words;
    assert word + " " + rest == word + (" " + rest);
  }

  predicate WordEnds(s: string) {
    s != [] ==> !Space(s[|s| - 1])
  }

  lemma RestSpaced(s: string)
    requires s != [] && SingleSpaced(s) && WordEnds(s)
    ensures SingleSpaced(s[1..]) && WordEnds(s[1..])
    ensures Space(s[0]) ==> s[0] == ' ' && s[1..] != [] && !Space(s[1..][0])
  {
    var rest := s[1..];
    forall i | 0 < i < |rest|
      ensures Space(rest[i]) ==> !Space(rest[i - 1])
    {
      assert rest[i] == s[i + 1] && rest[i - 1] == s[i];
    }
    if Space(s[0]) {
      assert |s| > 1 && rest[0] == s[1];
    }
  }

  lemma {:induction false} SpacedWords(s: string, word: string)
    requires SingleSpaced(s) && WordEnds(s) && (word == [] && s != [] ==> !Space(s[0]))
    ensures Spaced(WordsFrom(s, word)) == word + s
    ensures s != [] || word != [] ==> WordsFrom(s, word) != []
    decreases |s|
  {
    if s != [] {
      var rest := s[1..];
      RestSpaced(s);
      assert s == [s[0]] + rest;
      if Space(s[0]) {
        SpacedWords(rest, []);
        assert [] + rest == rest;
        SpacedTail(word, WordsFrom(rest, []), rest);
      } else {
        SpacedWords(rest, word + [s[0]]);
        assert word + [s[0]] + rest == word + ([s[0]] + rest);
      }
    }
  }

  /** A normalized page is the words of the extracted text, one blank between them, and nothing else. */
  lemma NormalizedWords(s: string)
    ensures Words(NormalizePage(s)) == Words(s)
    ensures NormalizePage(s) == Spaced(Words(s))
    ensures NormalizePage(s) == [] <==> Words(s) == []
  {
    WordsCollapsed(s, false, []);
    WordsTrimmed(Collapse(s, false));
    NormalizedShape(s);
    SpacedWords(NormalizePage(s), []);
    assert [] + NormalizePage(s) == NormalizePage(s);
  }

  lemma {:induction false} WordsConcat(a: string, b: string, word: string)
    requires b != [] && Space(b[0])
    ensures WordsFrom(a + b, word) == WordsFrom(a, word) + WordsFrom(b[1..], [])
  {
    if a == [] {
      assert a + b == b;
    } else {
      assert (a + b)[1..] == a[1..] + b;
      WordsConcat(a[1..], b, if Space(a[0]) then [] else word + [a[0]]);
    }
  }

  // ----- the joined text -----

  const Separator: string := "\n\n"

  /** The length of the separator. */
  const Gap: nat := 2

  function Join(texts: seq<string>): string {
    if texts == [] then []
    else if |texts| == 1 then texts[0]
    else texts[0] + Separator + Join(texts[1..])
  }

  function PageTexts(pages: seq<Page>): seq<string> {
    seq(|pages|, i requires 0 <= i < |pages| => pages[i].text)
  }

  function JoinedText(pages: seq<Page>): string {
    Trim(Join(PageTexts(pages)))
  }

  /** Where page `k` (counted from 0) starts when `gap` characters separate the pages. */
  function StartOf(pages: seq<Page>, gap: nat, k: nat): nat
    requires k <= |pages|
  {
    if k == 0 then 0 else StartOf(pages, gap, k - 1) + |pages[k - 1].text| + gap
  }

  /** Where page `k` starts in the joined text. */
  function PageStart(pages: seq<Page>, k: nat): nat
    requires k <= |pages|
  {
    StartOf(pages, Gap, k)
  }

  predicate Numbered(pages: seq<Page>) {
    forall i | 0 <= i < |pages| :: pages[i].number == i + 1
  }

  lemma {:induction false} JoinPlaces(pages: seq<Page>, k: nat)
    requires k < |pages|
    ensures PageStart(pages, k) + |pages[k].text| <= |Join(PageTexts(pages))|
    ensures Join(PageTexts(pages))[PageStart(pages, k)..PageStart(pages, k) + |pages[k].text|] == pages[k].text
  {
    if |pages| > 1 {
      assert PageTexts(pages)[1..] == PageTexts(pages[1..]);
      if k > 0 {
        JoinPlaces(pages[1..], k - 1);
        StartShift(pages, k);
        var joined, head := Join(PageTexts(pages)), pages[0].text + Separator;
        var a, n := PageStart(pages[1..], k - 1), |pages[k].text|;
        assert joined == head + Join(PageTexts(pages[1..]));
        assert joined[|head| + a..|head| + a + n] == Join(PageTexts(pages[1..]))[a..a + n];
      }
    }
  }

  /** The joined text has exactly one blank line between two pages and nothing behind the last. */
  lemma {:induction false} JoinExact(pages: seq<Page>)
    requires pages != []
    ensures |Join(PageTexts(pages))| == PageStart(pages, |pages|) - 2
    ensures forall k | 0 < k < |pages| ::
      2 <= PageStart(pages, k) <= |Join(PageTexts(pages))|
      && Join(PageTexts(pages))[PageStart(pages, k) - 2..PageStart(pages, k)] == ['\n', '\n']
    decreases |pages|
  {
    if |pages| == 1 {
      assert PageStart(pages, 0) == 0;
    } else {
      var tail, joined := pages[1..], Join(PageTexts(pages));
      JoinExact(tail);
      assert PageTexts(pages)[1..] == PageTexts(tail);
      assert joined == pages[0].text + ['\n', '\n'] + Join(PageTexts(tail));
      StartShift(pages, |pages|);
      forall k | 0 < k < |pages|
        ensures 2 <= PageStart(pages, k) <= |joined|
        ensures joined[PageStart(pages, k) - 2..PageStart(pages, k)] == ['\n', '\n']
      {
        GapBefore(pages, k);
      }
    }
  }

  lemma GapBefore(pages: seq<Page>, k: nat)
    requires 0 < k < |pages|
    requires k > 1 ==> 2 <= PageStart(pages[1..], k - 1) <= |Join(PageTexts(pages[1..]))|
    requires k > 1 ==>
      Join(PageTexts(pages[1..]))[PageStart(pages[1..], k - 1) - 2..PageStart(pages[1..], k - 1)] == ['\n', '\n']
    ensures 2 <= PageStart(pages, k) <= |Join(PageTexts(pages))|
    ensures Join(PageTexts(pages))[PageStart(pages, k) - 2..PageStart(pages, k)] == ['\n', '\n']
  {
    var tail, n := Join(PageTexts(pages[1..])), |pages[0].text|;
    assert PageTexts(pages)[1..] == PageTexts(pages[1..]);
    assert Join(PageTexts(pages)) == pages[0].text + ['\n', '\n'] + tail;
    StartShift(pages, k);
    var a := PageStart(pages[1..], k - 1);
    if k == 1 {
      assert PageStart(pages[1..], 0) == 0;
    } else {
      assert (pages[0].text + ['\n', '\n'] + tail)[n + 2 + a - 2..n + 2 + a] == tail[a - 2..a];
    }
  }

  function PageWords(pages: seq<Page>): seq<string> {
    if pages == [] then [] else Words(pages[0].text) + PageWords(pages[1..])
  }

  lemma {:induction false} JoinWords(pages: seq<Page>)
    ensures Words(Join(PageTexts(pages))) == PageWords(pages)
    decreases |pages|
  {
    if |pages| == 1 {
      assert PageWords(pages[1..]) == [];
    } else if |pages| > 1 {
      var tail := Join(PageTexts(pages[1..]));
      JoinWords(pages[1..]);
      assert PageTexts(pages)[1..] == PageTexts(pages[1..]);
      assert Join(PageTexts(pages)) == pages[0].text + (Separator + tail);
      WordsConcat(pages[0].text, Separator + tail, []);
      assert (Separator + tail)[1..] == ['\n'] + tail;
      assert (['\n'] + tail)[1..] == tail;
    }
  }

  /** The text of a document has the words of its pages, in order. */
  lemma JoinedWords(pages: seq<Page>)
    ensures Words(JoinedText(pages)) == PageWords(pages)
  {
    WordsTrimmed(Join(PageTexts(pages)));
    JoinWords(pages);
  }

  lemma {:induction false} StartShift(pages: seq<Page>, k: nat)
    requires 0 < k <= |pages|
    ensures PageStart(pages, k) == |pages[0].text| + Gap + PageStart(pages[1..], k - 1)
  {
    if k == 1 {
      assert StartOf(pages, Gap, 0) == 0 == StartOf(pages[1..], Gap, 0);
    } else {
      StartShift(pages, k - 1);
      assert pages[1..][k - 2] == pages[k - 1];
    }
  }

  lemma {:induction false} StartsGrow(pages: seq<Page>, gap: nat, j: nat, k: nat)
    requires j < k <= |pages|
    ensures StartOf(pages, gap, j) + |pages[j].text| + gap <= StartOf(pages, gap, k)
  {
    if j < k - 1 {
      StartsGrow(pages, gap, j, k - 1);
    }
  }

  lemma {:induction false} GapsAddUp(pages: seq<Page>, gap: nat, k: nat)
    requires k <= |pages|
    ensures StartOf(pages, gap, k) == StartOf(pages, 0, k) + gap * k
  {
    if k > 0 {
      GapsAddUp(pages, gap, k - 1);
    }
  }

  // ----- from offsets to pages: the parser's lookup and the engine's -----

  /** The offset lies behind the end of page `k`. */
  predicate Passed(pages: seq<Page>, gap: nat, offset: nat, k: nat)
    requires k < |pages|
  {
    StartOf(pages, gap, k) + |pages[k].text| < offset
  }

  /** Page `k` is the first whose running end reaches the offset. */
  ghost predicate EndsAt(pages: seq<Page>, gap: nat, offset: nat, k: int) {
    && 0 <= k < |pages|
    && !Passed(pages, gap, offset, k)
    && forall j | 0 <= j < k :: Passed(pages, gap, offset, j)
  }

  function LastNumber(pages: seq<Page>): nat {
    if pages == [] then 1 else pages[|pages| - 1].number
  }

  function PageFrom(pages: seq<Page>, gap: nat, offset: nat, i: nat): nat
    requires i <= |pages|
    decreases |pages| - i
  {
    if i == |pages| then LastNumber(pages)
    else if offset <= StartOf(pages, gap, i) + |pages[i].text| then pages[i].number
    else PageFrom(pages, gap, offset, i + 1)
  }

  /** The parser's `pageForOffset`, which counts the two separator characters. */
  function PageOf(pages: seq<Page>, offset: nat): nat {
    PageFrom(pages, Gap, offset, 0)
  }

  /** The engine's `_pageFor`, which forgets them. */
  function EnginePage(pages: seq<Page>, offset: nat): nat {
    PageFrom(pages, 0, offset, 0)
  }

  method PageForOffset(pages: seq<Page>, offset: nat) returns (page: nat)
    ensures page == PageOf(pages, offset)
  {
    var running := 0;
    for i := 0 to |pages|
      invariant running == PageStart(pages, i)
      invariant PageOf(pages, offset) == PageFrom(pages, Gap, offset, i)
    {
      running := running + |pages[i].text|;
      if offset <= running {
        return pages[i].number;
      }
      running := running + 2;
    }
    page := if pages == [] then 1 else pages[|pages| - 1].number;
  }

  method EnginePageFor(pages: seq<Page>, offset: nat) returns (page: nat)
    ensures page == EnginePage(pages, offset)
  {
    var running := 0;
    for i := 0 to |pages|
      invariant running == StartOf(pages, 0, i)
      invariant EnginePage(pages, offset) == PageFrom(pages, 0, offset, i)
    {
      running := running + |pages[i].text|;
      if offset <= running {
        return pages[i].number;
      }
    }
    page := if pages == [] then 1 else pages[|pages| - 1].number;
  }

  lemma {:induction false} PageFromSpec(pages: seq<Page>, gap: nat, offset: nat, i: nat, k: int)
    requires i <= |pages| && EndsAt(pages, gap, offset, k) && i <= k
    ensures PageFrom(pages, gap, offset, i) == pages[k].number
    decreases |pages| - i
  {
    if i < k {
      assert Passed(pages, gap, offset, i);
      PageFromSpec(pages, gap, offset, i + 1, k);
    }
  }

  /** The last page answers only for offsets no page reaches. */
  lemma {:induction false} PageFromFound(pages: seq<Page>, gap: nat, offset: nat, i: nat)
    requires i <= |pages| && forall j | 0 <= j < i :: Passed(pages, gap, offset, j)
    ensures PageFrom(pages, gap, offset, i) == LastNumber(pages) || exists e :: EndsAt(pages, gap, offset, e)
    decreases |pages| - i
  {
    if i < |pages| {
      if !Passed(pages, gap, offset, i) {
        assert EndsAt(pages, gap, offset, i);
      } else {
        PageFromFound(pages, gap, offset, i + 1);
      }
    }
  }

  /** Character `j` of page `k`, counted from 0, exists. */
  ghost predicate Owns(pages: seq<Page>, k: nat, j: nat) {
    k < |pages| && j < |pages[k].text|
  }

  /** A character of page `k` of the joined text is attributed to page `k`. */
  lemma PageOfOwnedCharacter(pages: seq<Page>, k: nat, j: nat)
    requires Numbered(pages) && Owns(pages, k, j)
    ensures PageOf(pages, PageStart(pages, k) + j) == k + 1
  {
    var offset := PageStart(pages, k) + j;
    forall i | 0 <= i < k
      ensures Passed(pages, Gap, offset, i)
    {
      StartsGrow(pages, Gap, i, k);
    }
    PageFromSpec(pages, Gap, offset, 0, k);
  }

  /** Either lookup returns a page of the document, for a document whose pages are numbered 1 to n. */
  lemma {:induction false} PageInRange(pages: seq<Page>, gap: nat, offset: nat, i: nat)
    requires Numbered(pages) && i <= |pages|
    ensures if pages == [] then PageFrom(pages, gap, offset, i) == 1
            else 1 <= PageFrom(pages, gap, offset, i) <= |pages|
    decreases |pages| - i
  {
    if i < |pages| {
      PageInRange(pages, gap, offset, i + 1);
    }
  }

  lemma {:induction false} NeverEarlierFrom(pages: seq<Page>, offset: nat, i: nat)
    requires Numbered(pages) && i <= |pages|
    ensures PageFrom(pages, Gap, offset, i) <= PageFrom(pages, 0, offset, i)
    ensures i < |pages| ==> i + 1 <= PageFrom(pages, 0, offset, i)
    decreases |pages| - i
  {
    if i < |pages| {
      GapsAddUp(pages, Gap, i);
      NeverEarlierFrom(pages, offset, i + 1);
    }
  }

  /** Forgetting the separators never gives an earlier page, and changes nothing on a single page. */
  lemma EnginePageNeverEarlier(pages: seq<Page>, offset: nat)
    requires Numbered(pages)
    ensures PageOf(pages, offset) <= EnginePage(pages, offset)
    ensures |pages| <= 1 ==> PageOf(pages, offset) == EnginePage(pages, offset)
  {
    NeverEarlierFrom(pages, offset, 0);
    PageInRange(pages, Gap, offset, 0);
    PageInRange(pages, 0, offset, 0);
  }

  lemma EngineFindsOwn(pages: seq<Page>, offset: nat, k: nat)
    requires Numbered(pages) && k < |pages|
    requires forall i | 0 <= i < k :: Passed(pages, 0, offset, i)
    ensures EnginePage(pages, offset) == k + 1
            <==> (!Passed(pages, 0, offset, k) || k == |pages| - 1)
  {
    if !Passed(pages, 0, offset, k) {
      assert EndsAt(pages, 0, offset, k);
      PageFromSpec(pages, 0, offset, 0, k);
    } else {
      PageFromSkips(pages, offset, k);
    }
  }

  lemma EarlierPagesPassed(pages: seq<Page>, offset: nat, k: nat)
    requires k < |pages| && (k == 0 || StartOf(pages, 0, k) < offset)
    ensures forall i | 0 <= i < k :: Passed(pages, 0, offset, i)
  {
    forall i | 0 <= i < k
      ensures Passed(pages, 0, offset, i)
    {
      StartsGrow(pages, 0, i, k);
    }
  }

  /** Pages whose end lies before the offset are passed over. */
  lemma {:induction false} PageFromSkips(pages: seq<Page>, offset: nat, k: nat)
    requires Numbered(pages) && k < |pages|
    requires forall i | 0 <= i <= k :: Passed(pages, 0, offset, i)
    ensures EnginePage(pages, offset) == PageFrom(pages, 0, offset, k + 1)
    ensures EnginePage(pages, offset) == k + 1 <==> k == |pages| - 1
  {
    if k > 0 {
      PageFromSkips(pages, offset, k - 1);
    }
    assert Passed(pages, 0, offset, k);
    NeverEarlierFrom(pages, offset, k + 1);
  }

  // ----- documents whose first page is empty -----

  /** The first page that has text. */
  ghost predicate FirstText(pages: seq<Page>, f: nat) {
    f < |pages| && pages[f].text != [] && forall i | 0 <= i < f :: pages[i].text == []
  }

  lemma {:induction false} EmptyPagesJoinToSpaces(pages: seq<Page>, f: nat)
    requires f < |pages| && forall i | 0 <= i < f :: pages[i].text == []
    ensures PageStart(pages, f) <= |Join(PageTexts(pages))|
    ensures forall o | 0 <= o < PageStart(pages, f) :: Space(Join(PageTexts(pages))[o])
  {
    if f > 0 {
      assert PageTexts(pages)[1..] == PageTexts(pages[1..]);
      EmptyPagesJoinToSpaces(pages[1..], f - 1);
      StartShift(pages, f);
      var joined := Join(PageTexts(pages));
      assert joined == pages[0].text + Separator + Join(PageTexts(pages[1..]));
      forall o | 0 <= o < PageStart(pages, f)
        ensures Space(joined[o])
      {
        if o >= 2 {
          assert joined[o] == Join(PageTexts(pages[1..]))[o - 2];
        }
      }
    }
  }

  lemma {:induction false} TrimLeftAt(s: string, k: nat)
    requires k < |s| && !Space(s[k]) && forall i | 0 <= i < k :: Space(s[i])
    ensures TrimLeft(s) == s[k..]
  {
    if k > 0 {
      TrimLeftAt(s[1..], k - 1);
      assert s[1..][k - 1..] == s[k..];
    }
  }

  /** The character of page `f` that opens the trimmed text sits at offset 0. */
  lemma TextOpensAt(pages: seq<Page>, f: nat)
    requires FirstText(pages, f) && forall p | p in pages :: Trimmed(p.text)
    ensures PageStart(pages, f) <= |Join(PageTexts(pages))|
    ensures JoinedText(pages) != [] && JoinedText(pages)[0] == pages[f].text[0]
    ensures JoinedText(pages) == TrimRight(Join(PageTexts(pages))[PageStart(pages, f)..])
  {
    var joined := Join(PageTexts(pages));
    JoinPlaces(pages, f);
    EmptyPagesJoinToSpaces(pages, f);
    var a := PageStart(pages, f);
    assert pages[f] in pages;
    assert joined[a] == joined[a..a + |pages[f].text|][0];
    TrimLeftAt(joined, a);
    var cut := TrimRightPrefix(joined[a..]);
    assert joined[a..][0] == joined[a];
  }

  /**
    Where character `j` of page `k` really is in the trimmed text: the separators of the
    empty pages in front of the first text are gone.
  */
  ghost function OffsetIn(pages: seq<Page>, f: nat, k: nat, j: nat): int
    requires f <= |pages| && k <= |pages|
  {
    PageStart(pages, k) - PageStart(pages, f) + j
  }

  /**
    `pageForOffset` attributes every character of a parsed document to its page exactly
    when the first page has text. Leading empty pages lose their separators to the final
    trim, and then already the first character of the text is attributed to page 1.
  */
  lemma PagesAttributedIffFirstHasText(pages: seq<Page>, f: nat)
    requires Numbered(pages) && FirstText(pages, f) && forall p | p in pages :: Trimmed(p.text)
    ensures (forall k: nat, j: nat | Owns(pages, k, j) && f <= k ::
               OffsetIn(pages, f, k, j) >= 0 && PageOf(pages, OffsetIn(pages, f, k, j)) == k + 1)
            <==> pages[0].text != []
  {
    if pages[0].text != [] {
      assert f == 0;
      forall k: nat, j: nat | Owns(pages, k, j) && f <= k
        ensures OffsetIn(pages, f, k, j) >= 0 && PageOf(pages, OffsetIn(pages, f, k, j)) == k + 1
      {
        PageOfOwnedCharacter(pages, k, j);
      }
    } else {
      assert Owns(pages, f, 0) && OffsetIn(pages, f, f, 0) == 0;
      assert PageOf(pages, OffsetIn(pages, f, f, 0)) == 1 != f + 1;
    }
  }

  /** The first page with text is not after any page that has a character. */
  lemma FirstTextFirst(pages: seq<Page>, f: nat, k: nat, j: nat)
    requires FirstText(pages, f) && Owns(pages, k, j)
    ensures f <= k && PageStart(pages, f) <= PageStart(pages, k)
  {
    if f < k {
      StartsGrow(pages, Gap, f, k);
    }
  }

  /** Trimming on the right keeps every piece that does not end in white space. */
  lemma CharacterKept(joined: string, trimmed: string, shift: nat, a: nat, text: string, j: nat)
    requires shift <= a && a + |text| <= |joined| && joined[a..a + |text|] == text && j < |text| && Trimmed(text)
    requires trimmed == TrimRight(joined[shift..])
    ensures a - shift + j < |trimmed|
    ensures trimmed[a - shift + j] == text[j]
  {
    var cut := TrimRightPrefix(joined[shift..]);
    var last := a + |text| - 1;
    assert joined[last] == joined[a..a + |text|][|text| - 1];
    assert joined[shift..][last - shift] == joined[last];
    assert joined[shift..][a + j - shift] == joined[a + j] == joined[a..a + |text|][j];
  }

  /** And those offsets are where the characters really are in the parsed document's text. */
  lemma OffsetsAreCharacters(pages: seq<Page>, f: nat, k: nat, j: nat)
    requires FirstText(pages, f) && (forall p | p in pages :: Trimmed(p.text)) && Owns(pages, k, j)
    ensures f <= k && 0 <= OffsetIn(pages, f, k, j) < |JoinedText(pages)|
    ensures JoinedText(pages)[OffsetIn(pages, f, k, j)] == pages[k].text[j]
  {
    FirstTextFirst(pages, f, k, j);
    TextOpensAt(pages, f);
    JoinPlaces(pages, k);
    assert Trimmed(pages[k].text) by {
      assert pages[k] in pages;
    }
    CharacterKept(Join(PageTexts(pages)), JoinedText(pages), PageStart(pages, f), PageStart(pages, k), pages[k].text,
                  j);
  }

  /** When the first page has text, trimming the joined text moves nothing. */
  lemma TrimKeepsOffsets(pages: seq<Page>, k: nat, j: nat)
    requires |pages| > 0 && pages[0].text != [] && (forall p | p in pages :: Trimmed(p.text))
    requires k < |pages| && j < |pages[k].text|
    ensures PageStart(pages, k) + j < |JoinedText(pages)|
    ensures JoinedText(pages)[PageStart(pages, k) + j] == pages[k].text[j]
  {
    assert PageStart(pages, 0) == 0;
    OffsetsAreCharacters(pages, 0, k, j);
  }

  /** The real offset of a character, counted the engine's way: without the separators. */
  lemma OffsetWithoutGaps(pages: seq<Page>, f: nat, k: nat, j: nat)
    requires FirstText(pages, f) && f <= k < |pages|
    ensures OffsetIn(pages, f, k, j) == StartOf(pages, 0, k) + 2 * (k - f) + j
  {
    GapsAddUp(pages, Gap, k);
    GapsAddUp(pages, Gap, f);
    NoTextYet(pages, f);
  }

  lemma {:induction false} NoTextYet(pages: seq<Page>, f: nat)
    requires f <= |pages| && forall i | 0 <= i < f :: pages[i].text == []
    ensures StartOf(pages, 0, f) == 0
  {
    if f > 0 {
      NoTextYet(pages, f - 1);
    }
  }

  /**
    Exactly which characters of a parsed document the engine places on their own page,
    `f` being the first page with text: on page k (counted from 0) those that leave
    2(k - f) characters between them and the end of the page, and everything on the last
    page; but never the very first character of a document with leading empty pages.
  */
  lemma EnginePageExact(pages: seq<Page>, f: nat, k: nat, j: nat)
    requires Numbered(pages) && FirstText(pages, f) && Owns(pages, k, j)
    ensures f <= k && 0 <= OffsetIn(pages, f, k, j)
    ensures EnginePage(pages, OffsetIn(pages, f, k, j)) == k + 1
            <==> (2 * (k - f) + j <= |pages[k].text| || k == |pages| - 1) && (f == 0 || 0 < OffsetIn(pages, f, k, j))
  {
    var offset := OffsetIn(pages, f, k, j);
    FirstTextFirst(pages, f, k, j);
    OffsetWithoutGaps(pages, f, k, j);
    if offset == 0 {
      OffsetZero(pages, f, k);
    } else {
      NoTextYet(pages, f);
      EarlierPagesPassed(pages, offset, k);
      EngineFindsOwn(pages, offset, k);
    }
  }

  /** Offset 0 is on the first page for the engine, whether that page has text or not. */
  lemma OffsetZero(pages: seq<Page>, f: nat, k: nat)
    requires Numbered(pages) && FirstText(pages, f) && f <= k < |pages| && StartOf(pages, 0, k) + 2 * (k - f) == 0
    ensures k == f && EnginePage(pages, 0) == 1
  {
    assert EnginePage(pages, 0) == pages[0].number;
  }
}
