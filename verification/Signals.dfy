/**
  The four signals the score reads from the text. A regular expression without captures
  matches somewhere exactly when the text can be cut up the way the expression says, and
  that is how the expressions are written here.
*/
module Signals {
  import opened TextMatch
  import Documents

  datatype TextSignals = TextSignals(long: bool, privateUse: bool, email: bool, impact: bool)

  predicate InRange(s: string, lo: int, hi: int) {
    0 <= lo <= hi <= |s|
  }

  /** `\b` at `i`. */
  predicate Boundary(s: string, i: nat)
    requires i <= |s|
  {
    (0 < i && WordChar(s[i - 1])) != (i < |s| && WordChar(s[i]))
  }

  predicate Letter(c: char) {
    'a' <= c <= 'z' || 'A' <= c <= 'Z'
  }

  predicate Digit(c: char) {
    '0' <= c <= '9'
  }

  predicate DomainChar(c: char) {
    Letter(c) || Digit(c) || c in {'.', '-'}
  }

  predicate MailboxChar(c: char) {
    DomainChar(c) || c in {'_', '%', '+'}
  }

  /** White space as the engine's `trim` sees it. */
  predicate TrimmedAway(c: char) {
    Documents.Space(c) || c == '\U{85}'
  }

  /** More than 300 characters once both ends are trimmed. */
  predicate Long(text: string) {
    exists i, j | 0 <= i < j < |text| :: 300 <= j - i && !TrimmedAway(text[i]) && !TrimmedAway(text[j])
  }

  /** A mailbox from `a`, the `@` at `at`, the last dot at `dot`, and a top-level domain up to `e`. */
  predicate AddressAt(text: string, a: int, at: int, dot: int, e: int) {
    && 0 <= a < at && at + 1 < dot && dot + 2 < e <= |text|
    && text[at] == '@' && text[dot] == '.'
    && (forall i | a <= i < at :: MailboxChar(text[i]))
    && (forall i | at < i < dot :: DomainChar(text[i]))
    && (forall i | dot < i < e :: Letter(text[i]))
    && Boundary(text, a) && Boundary(text, e)
  }

  const Units: set<string> := {"users", "projects", "days", "hours", "months", "years"}

  predicate UnitAt(text: string, u: int) {
    exists unit | unit in Units :: InRange(text, u, u + |unit|) && text[u..u + |unit|] == unit
  }

  /** Digits from `a` to `b`, followed by one of `.%+` or, behind white space up to `u`, by a unit. */
  predicate QuantityAt(text: string, a: int, b: int, u: int) {
    && 0 <= a < b <= u <= |text|
    && Boundary(text, a)
    && (forall i | a <= i < b :: Digit(text[i]))
    && (|| (u == b < |text| && text[b] in {'.', '%', '+'})
        || ((forall i | b <= i < u :: Documents.Space(text[i])) && UnitAt(text, u)))
  }

  predicate PrivateUse(text: string) {
    exists i | 0 <= i < |text| :: '\U{E000}' <= text[i] <= '\U{F8FF}'
  }

  predicate Email(text: string) {
    exists a, at, dot, e | 0 <= a < at < dot < e <= |text| :: AddressAt(text, a, at, dot, e)
  }

  predicate Impact(lower: string) {
    exists a, b, u | 0 <= a < b <= u <= |lower| :: QuantityAt(lower, a, b, u)
  }

  function SignalsOf(text: string): TextSignals {
    TextSignals(Long(text), PrivateUse(text), Email(text), Impact(Lower(text)))
  }

  lemma UnitStays(text: string, suffix: string, u: int)
    requires UnitAt(text, u)
    ensures UnitAt(text + suffix, u)
  {
    var unit :| unit in Units && InRange(text, u, u + |unit|) && text[u..u + |unit|] == unit;
    assert (text + suffix)[u..u + |unit|] == text[u..u + |unit|];
  }

  lemma QuantityStays(text: string, suffix: string, a: int, b: int, u: int)
    requires QuantityAt(text, a, b, u)
    ensures QuantityAt(text + suffix, a, b, u)
  {
    var longer := text + suffix;
    assert forall i | a <= i < b :: longer[i] == text[i];
    assert forall i | b <= i < u :: longer[i] == text[i];
    assert a > 0 ==> longer[a - 1] == text[a - 1];
    if UnitAt(text, u) {
      UnitStays(text, suffix, u);
    }
  }

  lemma LongStays(text: string, suffix: string)
    requires Long(text)
    ensures Long(text + suffix)
  {
    var i, j :| 0 <= i < j < |text| && 300 <= j - i && !TrimmedAway(text[i]) && !TrimmedAway(text[j]);
    assert (text + suffix)[i] == text[i] && (text + suffix)[j] == text[j];
  }

  lemma ImpactStays(text: string, suffix: string)
    requires Impact(text)
    ensures Impact(text + suffix)
  {
    var a, b, u :| 0 <= a < b <= u <= |text| && QuantityAt(text, a, b, u);
    QuantityStays(text, suffix, a, b, u);
  }

  /** Appended text never takes away the length or the impact signal. */
  lemma AppendingKeepsSignals(text: string, suffix: string)
    ensures SignalsOf(text).long ==> SignalsOf(text + suffix).long
    ensures SignalsOf(text).impact ==> SignalsOf(text + suffix).impact
  {
    if SignalsOf(text).long {
      LongStays(text, suffix);
    }
    if SignalsOf(text).impact {
      LowerConcat(text, suffix);
      ImpactStays(Lower(text), Lower(suffix));
    }
  }

  /** What `trim` removes, by character code. */
  ghost predicate BlankCode(code: int) {
    || 9 <= code <= 13 || 8192 <= code <= 8202
    || code in {32, 133, 160, 5760, 8232, 8233, 8239, 8287, 12288, 65279}
  }

  lemma TrimmedCodes(c: char)
    ensures TrimmedAway(c) <==> BlankCode(c as int)
  {
    Documents.SpaceCodes(c);
    if c as int == 133 {
      assert c == '\U{85}';
    }
  }

  /** The trimmed text has more than 300 characters: from `a` to `b`, with nothing but white space outside. */
  lemma LongMeansTrimmedLength(text: string, a: nat, b: nat)
    requires a <= b <= |text|
    requires forall i | 0 <= i < a || b <= i < |text| :: BlankCode(text[i] as int)
    requires a < b ==> !BlankCode(text[a] as int) && !BlankCode(text[b - 1] as int)
    ensures SignalsOf(text).long <==> b - a > 300
  {
    forall i | 0 <= i < |text|
      ensures TrimmedAway(text[i]) <==> BlankCode(text[i] as int)
    {
      TrimmedCodes(text[i]);
    }
    if b - a > 300 {
      assert !TrimmedAway(text[a]) && !TrimmedAway(text[b - 1]);
    }
  }

  // ----- what sets a signal and what it needs -----

  /** A private-use character anywhere sets the signal, and nothing else does. */
  lemma PrivateUseAnywhere(a: string, c: char, b: string)
    ensures SignalsOf(a + [c] + b).privateUse
            <==> 0xE000 <= c as int <= 0xF8FF || SignalsOf(a).privateUse || SignalsOf(b).privateUse
  {
    var text := a + [c] + b;
    assert text[|a|] == c;
    assert forall i | 0 <= i < |a| :: text[i] == a[i];
    forall i | 0 <= i < |b|
      ensures text[|a| + 1 + i] == b[i]
    {
    }
    if i :| 0 <= i < |text| && '\U{E000}' <= text[i] <= '\U{F8FF}' {
      assert i < |a| || i == |a| || b[i - |a| - 1] == text[i];
    }
  }

  ghost predicate OpensNoWord(s: string) {
    s == [] || !WordChar(s[0])
  }

  ghost predicate ClosesNoWord(s: string) {
    s == [] || !WordChar(s[|s| - 1])
  }

  /** Every character is one of the class. */
  ghost predicate Only(s: string, holds: char -> bool) {
    forall i | 0 <= i < |s| :: holds(s[i])
  }

  // ----- the impact expression, as a way to cut the lower-cased text -----

  /** White space, if any, then one of the six units. */
  ghost predicate UnitBehind(rest: string, gap: string, unit: string, after: string) {
    && rest == gap + unit + after && Only(gap, Documents.Space)
    && unit in {"users", "projects", "days", "hours", "months", "years"}
  }

  /** A number that does not continue a word, followed by one of `.%+` or by a unit. */
  ghost predicate Quantity(lower: string, before: string, digits: string, rest: string) {
    && lower == before + digits + rest && ClosesNoWord(before)
    && digits != [] && Only(digits, c => '0' <= c <= '9')
    && ((rest != [] && rest[0] in {'.', '%', '+'}) || exists gap, unit, after :: UnitBehind(rest, gap, unit, after))
  }

  ghost predicate HasQuantity(lower: string) {
    exists before, digits, rest :: Quantity(lower, before, digits, rest)
  }

  /** The impact signal is set exactly when the lower-cased text can be cut that way. */
  lemma ImpactIff(text: string)
    ensures SignalsOf(text).impact <==> HasQuantity(Lower(text))
  {
    if Impact(Lower(text)) {
      CutOfImpact(Lower(text));
    }
    if HasQuantity(Lower(text)) {
      ImpactOfCut(Lower(text));
    }
  }

  lemma CutOfImpact(lower: string)
    requires Impact(lower)
    ensures HasQuantity(lower)
  {
    var a, b, u :| 0 <= a < b <= u <= |lower| && QuantityAt(lower, a, b, u);
    if QuantityAt(lower, a, b, u) {
      QuantityCut(lower, a, b, u);
    }
  }

  lemma ImpactOfCut(lower: string)
    requires HasQuantity(lower)
    ensures Impact(lower)
  {
    var before, digits, rest :| Quantity(lower, before, digits, rest);
    var u := QuantityPlace(lower, before, digits, rest);
  }

  lemma QuantityCut(lower: string, a: int, b: int, u: int)
    requires QuantityAt(lower, a, b, u)
    ensures HasQuantity(lower)
  {
    var before, digits, rest := lower[..a], lower[a..b], lower[b..];
    assert lower == before + digits + rest;
    if u == b < |lower| && lower[b] in {'.', '%', '+'} {
      assert rest[0] == lower[b];
    } else {
      UnitCut(lower, b, u);
    }
    assert Quantity(lower, before, digits, rest);
  }

  lemma UnitCut(lower: string, b: int, u: int)
    requires 0 <= b <= u <= |lower| && UnitAt(lower, u) && forall i | b <= i < u :: Documents.Space(lower[i])
    ensures exists gap, unit, after :: UnitBehind(lower[b..], gap, unit, after)
  {
    var unit :| unit in Units && InRange(lower, u, u + |unit|) && lower[u..u + |unit|] == unit;
    assert lower[b..] == lower[b..u] + unit + lower[u + |unit|..];
    assert UnitBehind(lower[b..], lower[b..u], unit, lower[u + |unit|..]);
  }

  lemma NumberPlace(lower: string, before: string, digits: string, rest: string)
    requires lower == before + digits + rest && ClosesNoWord(before)
    requires digits != [] && Only(digits, c => '0' <= c <= '9')
    ensures var a, b := |before|, |before| + |digits|;
      && Boundary(lower, a) && lower[b..] == rest && forall i | a <= i < b :: Digit(lower[i])
  {
    var a, b := |before|, |before| + |digits|;
    assert lower[..a] == before && lower[a..b] == digits && lower[b..] == rest;
    CharsOfPart(lower, a, b);
    BoundariesAt(lower, a, b);
    assert lower[a] == digits[0];
  }

  lemma QuantityPlace(lower: string, before: string, digits: string, rest: string) returns (u: int)
    requires Quantity(lower, before, digits, rest)
    ensures QuantityAt(lower, |before|, |before| + |digits|, u)
  {
    NumberPlace(lower, before, digits, rest);
    u := SignOrUnit(lower, |before| + |digits|);
  }

  lemma SignOrUnit(lower: string, b: nat) returns (u: int)
    requires b <= |lower|
    requires || (lower[b..] != [] && lower[b..][0] in {'.', '%', '+'})
             || exists gap, unit, after :: UnitBehind(lower[b..], gap, unit, after)
    ensures b <= u <= |lower|
    ensures || (u == b < |lower| && lower[b] in {'.', '%', '+'})
            || ((forall i | b <= i < u :: Documents.Space(lower[i])) && UnitAt(lower, u))
  {
    u := b;
    if lower[b..] == [] || lower[b..][0] !in {'.', '%', '+'} {
      var gap, unit, after :| UnitBehind(lower[b..], gap, unit, after);
      UnitPlace(lower, b, gap, unit, after);
      u := b + |gap|;
    }
  }

  lemma UnitPlace(lower: string, b: nat, gap: string, unit: string, after: string)
    requires b <= |lower| && UnitBehind(lower[b..], gap, unit, after)
    ensures UnitAt(lower, b + |gap|) && b + |gap| <= |lower|
    ensures forall i | b <= i < b + |gap| :: Documents.Space(lower[i])
  {
    var rest := lower[b..];
    assert lower[b + |gap|..b + |gap| + |unit|] == rest[|gap|..|gap| + |unit|] == unit;
    assert unit in Units;
    forall i | b <= i < b + |gap|
      ensures lower[i] == gap[i - b]
    {
      assert lower[i] == rest[i - b];
    }
  }

  // ----- the e-mail expression, as a way to cut the text -----

  /** A mailbox, an at sign, a host, a dot and two or more letters, with a word boundary at either end. */
  ghost predicate Address(text: string, before: string, mailbox: string, host: string, domain: string, after: string) {
    && text == before + mailbox + "@" + host + "." + domain + after
    && mailbox != [] && (forall i | 0 <= i < |mailbox| ::
          var c := mailbox[i];
          'a' <= c <= 'z' || 'A' <= c <= 'Z' || '0' <= c <= '9' || c in {'.', '_', '%', '+', '-'})
    && host != [] && (forall i | 0 <= i < |host| ::
          var c := host[i]; 'a' <= c <= 'z' || 'A' <= c <= 'Z' || '0' <= c <= '9' || c in {'.', '-'})
    && 2 <= |domain| && (forall i | 0 <= i < |domain| ::
          var c := domain[i]; 'a' <= c <= 'z' || 'A' <= c <= 'Z')
    && (WordChar(mailbox[0]) <==> ClosesNoWord(before)) && OpensNoWord(after)
  }

  ghost predicate HasAddress(text: string) {
    exists before, mailbox, host, domain, after :: Address(text, before, mailbox, host, domain, after)
  }

  /** The e-mail signal is set exactly when the text can be cut that way. */
  lemma EmailIff(text: string)
    ensures SignalsOf(text).email <==> HasAddress(text)
  {
    if Email(text) {
      CutOfEmail(text);
    }
    if HasAddress(text) {
      EmailOfCut(text);
    }
  }

  lemma CutOfEmail(text: string)
    requires Email(text)
    ensures HasAddress(text)
  {
    var a, at, dot, e :| 0 <= a < at < dot < e <= |text| && AddressAt(text, a, at, dot, e);
    if AddressAt(text, a, at, dot, e) {
      AddressCut(text, a, at, dot, e);
    }
  }

  lemma EmailOfCut(text: string)
    requires HasAddress(text)
    ensures Email(text)
  {
    var before, mailbox, host, domain, after :| Address(text, before, mailbox, host, domain, after);
    AddressPlace(text, before, mailbox, host, domain, after);
  }

  lemma AddressCut(text: string, a: int, at: int, dot: int, e: int)
    requires AddressAt(text, a, at, dot, e)
    ensures HasAddress(text)
  {
    var before, mailbox, host := text[..a], text[a..at], text[at + 1..dot];
    var domain, after := text[dot + 1..e], text[e..];
    assert text == before + mailbox + "@" + host + "." + domain + after;
    BoundariesAt(text, a, e);
    assert Letter(text[e - 1]) && mailbox[0] == text[a];
    assert OpensNoWord(after) && (WordChar(mailbox[0]) <==> ClosesNoWord(before));
    assert Address(text, before, mailbox, host, domain, after);
  }

  lemma AddressPlace(text: string, before: string, mailbox: string, host: string, domain: string, after: string)
    requires Address(text, before, mailbox, host, domain, after)
    ensures var a, at := |before|, |before| + |mailbox|;
      AddressAt(text, a, at, at + 1 + |host|, at + 2 + |host| + |domain|)
  {
    var a, at := |before|, |before| + |mailbox|;
    var dot := at + 1 + |host|;
    var e := dot + 1 + |domain|;
    PartsOf(text, before, mailbox, host, domain, after);
    CharsOfPart(text, a, at);
    CharsOfPart(text, at + 1, dot);
    CharsOfPart(text, dot + 1, e);
    BoundariesAt(text, a, e);
    assert Letter(text[e - 1]);
  }

  lemma PartsOf(text: string, before: string, mailbox: string, host: string, domain: string, after: string)
    requires text == before + mailbox + "@" + host + "." + domain + after
    ensures var a, at := |before|, |before| + |mailbox|;
      var dot := at + 1 + |host|;
      var e := dot + 1 + |domain|;
      && text[..a] == before && text[a..at] == mailbox && text[at] == '@' && text[at + 1..dot] == host
      && text[dot] == '.' && text[dot + 1..e] == domain && text[e..] == after
  {
  }

  lemma CharsOfPart(text: string, a: int, b: int)
    requires 0 <= a <= b <= |text|
    ensures forall i | a <= i < b :: text[i] == text[a..b][i - a]
  {
  }

  lemma BoundariesAt(text: string, a: int, e: int)
    requires 0 <= a < e <= |text|
    ensures Boundary(text, a) <==> (WordChar(text[a]) <==> ClosesNoWord(text[..a]))
    ensures WordChar(text[e - 1]) ==> (Boundary(text, e) <==> OpensNoWord(text[e..]))
  {
  }
}
