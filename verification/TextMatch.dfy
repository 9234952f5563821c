/**
  The boundary matcher: the regular expression `(?:^|[^a-z0-9])candidate(?:$|[^a-z0-9])`
  run by a leftmost, ordered-alternative search, and the declarative property it refines.
  Texts are sequences of characters, each counted once; lower-casing keeps the length.
*/
module TextMatch {
  import opened Wrappers

  function LowerChar(c: char): char {
    if 'A' <= c <= 'Z' then ((c as int) + 32) as char else c
  }

  function Lower(s: string): (r: string)
    ensures |r| == |s|
  {
    seq(|s|, i requires 0 <= i < |s| => LowerChar(s[i]))
  }

  lemma LowerConcat(a: string, b: string)
    ensures Lower(a + b) == Lower(a) + Lower(b)
  {
  }

  predicate Alnum(c: char) {
    'a' <= c <= 'z' || '0' <= c <= '9'
  }

  /** Letters and digits, and lower-casing, by character code. */
  lemma AlnumCodes(c: char)
    ensures Alnum(c) <==> 97 <= c as int <= 122 || 48 <= c as int <= 57
    ensures LowerChar(c) as int == if 65 <= c as int <= 90 then c as int + 32 else c as int
  {
  }

  datatype Span = Span(start: nat, end: nat)

  // ----- the declarative reading -----

  /** The candidate stands at `i` with no letter or digit on either side. */
  predicate StandsAt(text: string, candidate: string, i: int) {
    && 0 <= i && i + |candidate| <= |text|
    && text[i..i + |candidate|] == candidate
    && (i == 0 || !Alnum(text[i - 1]))
    && (i + |candidate| == |text| || !Alnum(text[i + |candidate|]))
  }

  ghost predicate FirstStandsAt(text: string, candidate: string, i: int) {
    StandsAt(text, candidate, i) && forall j | 0 <= j < i :: !StandsAt(text, candidate, j)
  }

  /** The span of a match: the occurrence and the boundary character on each side that has one. */
  function SpanAround(text: string, candidate: string, i: nat): Span
    requires StandsAt(text, candidate, i)
  {
    Span(if i == 0 then 0 else i - 1,
         if i + |candidate| == |text| then i + |candidate| else i + |candidate| + 1)
  }

  // ----- the search -----

  /** `(?:$|[^a-z0-9])` at `k`: where the match ends. */
  function MatchTail(text: string, k: nat): Option<nat> {
    if k == |text| then Some(k)
    else if k < |text| && !Alnum(text[k]) then Some(k + 1)
    else None
  }

  /** `candidate(?:$|[^a-z0-9])` at `k`. */
  function MatchBody(text: string, candidate: string, k: nat): Option<nat> {
    if k + |candidate| <= |text| && text[k..k + |candidate|] == candidate
    then MatchTail(text, k + |candidate|)
    else None
  }

  /** The whole expression at `p`; the anchor is tried before the boundary character. */
  function MatchAt(text: string, candidate: string, p: nat): Option<Span> {
    var anchored := if p == 0 then MatchBody(text, candidate, p) else None;
    if anchored.Some? then Some(Span(p, anchored.value))
    else if p < |text| && !Alnum(text[p]) then
      var rest := MatchBody(text, candidate, p + 1);
      if rest.Some? then Some(Span(p, rest.value)) else None
    else None
  }

  function FirstMatchFrom(text: string, candidate: string, p: nat): Option<Span>
    decreases |text| - p
  {
    var here := MatchAt(text, candidate, p);
    if here.Some? || p >= |text| then here else FirstMatchFrom(text, candidate, p + 1)
  }

  function FirstMatch(text: string, candidate: string): Option<Span> {
    FirstMatchFrom(text, candidate, 0)
  }

  // ----- the search refines the reading -----

  lemma MatchBodyStands(text: string, candidate: string, k: nat)
    requires k == 0 || (k <= |text| && !Alnum(text[k - 1]))
    ensures MatchBody(text, candidate, k).Some? <==> StandsAt(text, candidate, k)
    ensures StandsAt(text, candidate, k) ==> MatchBody(text, candidate, k).value == SpanAround(text, candidate, k).end
  {
  }

  lemma MatchAtStands(text: string, candidate: string, p: nat)
    ensures MatchAt(text, candidate, p).Some? <==>
      StandsAt(text, candidate, p + 1) || (p == 0 && StandsAt(text, candidate, 0))
    ensures p == 0 && StandsAt(text, candidate, 0) ==>
      MatchAt(text, candidate, p) == Some(SpanAround(text, candidate, 0))
    ensures StandsAt(text, candidate, p + 1) && !(p == 0 && StandsAt(text, candidate, 0)) ==>
      MatchAt(text, candidate, p) == Some(SpanAround(text, candidate, p + 1))
  {
    if p == 0 {
      MatchBodyStands(text, candidate, 0);
    }
    if p < |text| && !Alnum(text[p]) {
      MatchBodyStands(text, candidate, p + 1);
    }
  }

  lemma {:induction false} FirstMatchFromStands(text: string, candidate: string, p: nat)
    requires p <= |text|
    requires forall j | 0 <= j <= p && (0 < p || j < p) :: !StandsAt(text, candidate, j)
    ensures FirstMatchFrom(text, candidate, p).None? ==> forall i :: !StandsAt(text, candidate, i)
    ensures FirstMatchFrom(text, candidate, p).Some? ==>
      exists i: nat :: FirstStandsAt(text, candidate, i)
                       && FirstMatchFrom(text, candidate, p).value == SpanAround(text, candidate, i)
    decreases |text| - p
  {
    MatchAtStands(text, candidate, p);
    if MatchAt(text, candidate, p).Some? {
      if p == 0 && StandsAt(text, candidate, 0) {
        assert FirstStandsAt(text, candidate, 0);
      } else {
        assert FirstStandsAt(text, candidate, p + 1);
      }
    } else if p < |text| {
      FirstMatchFromStands(text, candidate, p + 1);
    }
  }

  /** The match is the leftmost standing occurrence, and there is one exactly when there is a match. */
  lemma FirstMatchIsLeftmost(text: string, candidate: string)
    ensures FirstMatch(text, candidate).Some? <==> exists i :: StandsAt(text, candidate, i)
    ensures forall i: nat | FirstStandsAt(text, candidate, i) ::
      FirstMatch(text, candidate) == Some(SpanAround(text, candidate, i))
    ensures FirstMatch(text, candidate).Some? ==>
      exists i: nat :: FirstStandsAt(text, candidate, i)
  {
    FirstMatchFromStands(text, candidate, 0);
    forall i: nat, j: nat | FirstStandsAt(text, candidate, i) && FirstStandsAt(text, candidate, j)
      ensures i == j
    {
    }
  }

  /** The span lies in the text, around an occurrence, with at most one boundary character on each side. */
  lemma FirstMatchInside(text: string, candidate: string)
    ensures FirstMatch(text, candidate).Some? ==>
      var span := FirstMatch(text, candidate).value;
      && span.start <= span.end <= |text|
      && exists i: nat :: StandsAt(text, candidate, i) && span.start <= i <= span.start + 1
                          && i + |candidate| <= span.end <= i + |candidate| + 1
  {
    FirstMatchIsLeftmost(text, candidate);
    if FirstMatch(text, candidate).Some? {
      var i: nat :| FirstStandsAt(text, candidate, i);
      assert StandsAt(text, candidate, i);
    }
  }

  /** An occurrence in front of one in `text` stands in `text` already. */
  lemma StandsEarlier(text: string, suffix: string, candidate: string, j: nat, i: nat)
    requires j < i && StandsAt(text, candidate, i)
    ensures StandsAt(text + suffix, candidate, j) ==> StandsAt(text, candidate, j)
  {
    assert (text + suffix)[j..j + |candidate|] == text[j..j + |candidate|];
  }

  /**
    Appending text that starts with neither letter nor digit keeps the leftmost occurrence
    where it was, so it can extend a match by its right boundary but never lose it.
  */
  lemma AppendKeepsFirst(text: string, suffix: string, candidate: string, i: nat)
    requires suffix != [] && !Alnum(suffix[0])
    requires FirstStandsAt(text, candidate, i)
    ensures FirstStandsAt(text + suffix, candidate, i)
  {
    assert (text + suffix)[i..i + |candidate|] == text[i..i + |candidate|];
    forall j: nat | j < i
      ensures !StandsAt(text + suffix, candidate, j)
    {
      StandsEarlier(text, suffix, candidate, j, i);
    }
  }

  lemma AppendKeepsMatch(text: string, suffix: string, candidate: string)
    requires suffix != [] && !Alnum(suffix[0])
    requires FirstMatch(text, candidate).Some?
    ensures FirstMatch(text + suffix, candidate).Some?
    ensures FirstMatch(text + suffix, candidate).value.start == FirstMatch(text, candidate).value.start
  {
    FirstMatchIsLeftmost(text, candidate);
    FirstMatchIsLeftmost(text + suffix, candidate);
    var i: nat :| FirstStandsAt(text, candidate, i);
    AppendKeepsFirst(text, suffix, candidate, i);
  }

  /** The condition on the appended text matters: a letter right after the term hides it. */
  lemma AppendedLetterHides()
    ensures FirstMatch("go", "go").Some? && FirstMatch("go" + "a", "go").None?
  {
    assert StandsAt("go", "go", 0);
    FirstMatchIsLeftmost("go", "go");
    FirstMatchIsLeftmost("goa", "go");
    assert "go" + "a" == "goa";
    forall i
      ensures !StandsAt("goa", "go", i)
    {
      if i == 0 {
        assert "goa"[2] == 'a';
      }
    }
  }

  /** A character behind the term hides it exactly when it is a lower-case letter or a digit. */
  lemma BoundaryLaw(candidate: string, c: char)
    requires candidate != []
    ensures FirstMatch(candidate + [c], candidate).None? <==> 97 <= c as int <= 122 || 48 <= c as int <= 57
  {
    var text := candidate + [c];
    AlnumCodes(c);
    FirstMatchIsLeftmost(text, candidate);
    assert text[0..|candidate|] == candidate;
    if Alnum(c) {
      forall i
        ensures !StandsAt(text, candidate, i)
      {
        NotInside(candidate, c, i);
      }
    } else {
      assert StandsAt(text, candidate, 0);
    }
  }

  lemma NotInside(candidate: string, c: char, i: int)
    requires candidate != [] && Alnum(c)
    ensures !StandsAt(candidate + [c], candidate, i)
  {
    var text := candidate + [c];
    if i == 1 && text[1..1 + |candidate|] == candidate {
      AllSame(candidate, c, 0);
    }
  }

  /** A term that is its own tail followed by `c` consists of `c`. */
  lemma {:induction false} AllSame(candidate: string, c: char, k: nat)
    requires (candidate + [c])[1..1 + |candidate|] == candidate && k < |candidate|
    ensures candidate[k] == c
    decreases |candidate| - k
  {
    assert candidate[k] == (candidate + [c])[1..1 + |candidate|][k] == (candidate + [c])[k + 1];
    if k + 1 < |candidate| {
      AllSame(candidate, c, k + 1);
    }
  }

  // ----- words between word boundaries, as `\b(a|b|...)\b` finds them -----

  predicate WordChar(c: char) {
    'a' <= c <= 'z' || 'A' <= c <= 'Z' || '0' <= c <= '9' || c == '_'
  }

  lemma WordCharCodes(c: char)
    ensures WordChar(c) <==> c == '_' || Alnum(c) || Alnum(LowerChar(c))
  {
  }

  predicate WordAt(text: string, word: string, i: int) {
    && 0 <= i && i + |word| <= |text| && text[i..i + |word|] == word
    && (i == 0 || !WordChar(text[i - 1]))
    && (i + |word| == |text| || !WordChar(text[i + |word|]))
  }

  predicate HasWord(text: string, words: set<string>) {
    exists w, i | w in words && 0 <= i < |text| :: WordAt(text, w, i)
  }
}
