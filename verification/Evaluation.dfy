/**
  The evaluation counter: per-label true positives, false positives and false negatives,
  and the macro-averaged F1, over exact reals.
*/
module Evaluation {
  import opened Wrappers

  const Labels: seq<string> := ["strong", "weak", "mention_only", "missing", "contradictory"]

  datatype Case = Case(id: string, gold: seq<string>)

  datatype AgentResult = AgentResult(id: string, classifications: Option<seq<string>>)

  datatype Pair = Pair(expected: string, actual: string)

  datatype Counts = Counts(tp: nat, fp: nat, fn: nat)

  // ----- the pairs the loops visit -----

  /** The last result recorded under an id wins; a missing result predicts nothing. */
  function PredictedFor(agents: seq<AgentResult>, id: string): seq<string> {
    if agents == [] then []
    else
      var last := agents[|agents| - 1];
      if last.id == id then (if last.classifications.Some? then last.classifications.value else [])
      else PredictedFor(agents[..|agents| - 1], id)
  }

  function PairAt(gold: seq<string>, predicted: seq<string>, index: nat): Pair
    requires index < |gold|
  {
    Pair(gold[index], if index < |predicted| then predicted[index] else "missing")
  }

  function CasePairs(gold: seq<string>, predicted: seq<string>, n: nat): seq<Pair>
    requires n <= |gold|
  {
    seq(n, i requires 0 <= i < n => PairAt(gold, predicted, i))
  }

  function Pairs(cases: seq<Case>, agents: seq<AgentResult>): seq<Pair> {
    if cases == [] then []
    else
      var last := cases[|cases| - 1];
      Pairs(cases[..|cases| - 1], agents) + CasePairs(last.gold, PredictedFor(agents, last.id), |last.gold|)
  }

  function One(b: bool): nat {
    if b then 1 else 0
  }

  /** The counts of one label over the pairs. */
  function CountsOf(pairs: seq<Pair>, name: string): Counts {
    if pairs == [] then Counts(0, 0, 0)
    else Bump(CountsOf(pairs[..|pairs| - 1], name), pairs[|pairs| - 1], name)
  }

  function Bump(c: Counts, p: Pair, name: string): Counts {
    Counts(c.tp + One(p.actual == name && p.expected == name),
           c.fp + One(p.actual == name && p.expected != name),
           c.fn + One(p.actual != name && p.expected == name))
  }

  function InitialCounts(): map<string, Counts> {
    map name | name in Labels :: Counts(0, 0, 0)
  }

  /** The innermost loop: one pair against every label. */
  method CountPair(counts: map<string, Counts>, p: Pair) returns (updated: map<string, Counts>)
    requires counts.Keys == set l | l in Labels
    ensures updated.Keys == counts.Keys
    ensures forall l | l in Labels :: updated[l] == Bump(counts[l], p, l)
  {
    updated := counts;
    for k := 0 to |Labels|
      invariant updated.Keys == counts.Keys
      invariant forall j | 0 <= j < |Labels| ::
        updated[Labels[j]] == if j < k then Bump(counts[Labels[j]], p, Labels[j]) else counts[Labels[j]]
    {
      var name := Labels[k];
      LabelsDistinct();
      var c := updated[name];
      if p.actual == name && p.expected == name {
        c := c.(tp := c.tp + 1);
      }
      if p.actual == name && p.expected != name {
        c := c.(fp := c.fp + 1);
      }
      if p.actual != name && p.expected == name {
        c := c.(fn := c.fn + 1);
      }
      updated := updated[name := c];
    }
  }

  lemma LabelsDistinct()
    ensures forall i, j | 0 <= i < j < |Labels| :: Labels[i] != Labels[j]
  {
    assert |Labels[0]| == 6 && |Labels[1]| == 4 && |Labels[2]| == 12 && |Labels[3]| == 7 && |Labels[4]| == 13;
  }

  ghost predicate Counted(counts: map<string, Counts>, falsePositiveStrong: nat, pairs: seq<Pair>) {
    && counts.Keys == (set l | l in Labels)
    && (forall l | l in Labels :: counts[l] == CountsOf(pairs, l))
    && falsePositiveStrong == CountsOf(pairs, "strong").fp
  }

  lemma OneMorePair(seen: seq<Pair>, gold: seq<string>, predicted: seq<string>, index: nat)
    requires index < |gold|
    ensures seen + CasePairs(gold, predicted, index + 1)
            == seen + CasePairs(gold, predicted, index) + [PairAt(gold, predicted, index)]
  {
    assert CasePairs(gold, predicted, index + 1)
      == CasePairs(gold, predicted, index) + [PairAt(gold, predicted, index)];
  }

  lemma CountedSnoc(before: map<string, Counts>, strongBefore: nat, pairs: seq<Pair>, p: Pair, counts: map<string,
                    Counts>)
    requires Counted(before, strongBefore, pairs) && counts.Keys == before.Keys
    requires forall l | l in Labels :: counts[l] == Bump(before[l], p, l)
    ensures Counted(counts, strongBefore + One(p.actual == "strong" && p.expected != "strong"), pairs + [p])
  {
    assert (pairs + [p])[..|pairs|] == pairs;
    assert Labels[0] == "strong";
  }

  /** The middle loop: the gold labels of one case, after the pairs counted before. */
  method CountCase(before: map<string, Counts>, strongBefore: nat, gold: seq<string>, predicted: seq<string>,
                   ghost seen: seq<Pair>)
      returns (counts: map<string, Counts>, falsePositiveStrong: nat)
    requires Counted(before, strongBefore, seen)
    ensures Counted(counts, falsePositiveStrong, seen + CasePairs(gold, predicted, |gold|))
  {
    counts, falsePositiveStrong := before, strongBefore;
    assert seen + CasePairs(gold, predicted, 0) == seen;
    for index := 0 to |gold|
      invariant Counted(counts, falsePositiveStrong, seen + CasePairs(gold, predicted, index))
    {
      var actual := if index < |predicted| then predicted[index] else "missing";
      var p := Pair(gold[index], actual);
      ghost var so, was := seen + CasePairs(gold, predicted, index), counts;
      OneMorePair(seen, gold, predicted, index);
      counts := CountPair(counts, p);
      CountedSnoc(was, falsePositiveStrong, so, p, counts);
      if actual == "strong" && gold[index] != "strong" {
        falsePositiveStrong := falsePositiveStrong + 1;
      }
    }
  }

  /** The results by id: of several under one id the last is kept. */
  ghost function Indexed(agents: seq<AgentResult>): map<string, AgentResult> {
    if agents == [] then map[]
    else
      var last := agents[|agents| - 1];
      Indexed(agents[..|agents| - 1])[last.id := last]
  }

  method IndexById(agents: seq<AgentResult>) returns (byId: map<string, AgentResult>)
    ensures byId == Indexed(agents)
  {
    byId := map[];
    for n := 0 to |agents|
      invariant byId == Indexed(agents[..n])
    {
      assert agents[..n + 1][..n] == agents[..n];
      byId := byId[agents[n].id := agents[n]];
    }
    assert agents[..|agents|] == agents;
  }

  /** Result `i` is the last under the id. */
  ghost predicate LastUnder(agents: seq<AgentResult>, id: string, i: int) {
    0 <= i < |agents| && agents[i].id == id && forall j | i < j < |agents| :: agents[j].id != id
  }

  lemma {:induction false} IndexedLast(agents: seq<AgentResult>, id: string)
    ensures id !in Indexed(agents) ==> forall i | 0 <= i < |agents| :: agents[i].id != id
    ensures id in Indexed(agents) ==> exists i :: LastUnder(agents, id, i) && Indexed(agents)[id] == agents[i]
    ensures PredictedIn(Indexed(agents), id) == PredictedFor(agents, id)
    decreases |agents|
  {
    if agents != [] {
      var n := |agents| - 1;
      IndexedLast(agents[..n], id);
      if agents[n].id == id {
        assert LastUnder(agents, id, n);
      } else if i :| LastUnder(agents[..n], id, i) && Indexed(agents[..n])[id] == agents[..n][i] {
        assert LastUnder(agents, id, i);
      }
    }
  }

  /** What the result under the id predicts: nothing when there is none or it has no predictions. */
  function PredictedIn(byId: map<string, AgentResult>, id: string): seq<string> {
    if id in byId && byId[id].classifications.Some? then byId[id].classifications.value else []
  }

  /** The counts are those of all pairs, and the strong false positives are the false positives of "strong". */
  method CountAll(cases: seq<Case>, agents: seq<AgentResult>)
      returns (counts: map<string, Counts>, falsePositiveStrong: nat)
    ensures counts.Keys == {"strong", "weak", "mention_only", "missing", "contradictory"}
    ensures forall l | l in counts :: counts[l] == CountsOf(Pairs(cases, agents), l)
    ensures falsePositiveStrong == CountsOf(Pairs(cases, agents), "strong").fp
  {
    var byId := IndexById(agents);
    counts := InitialCounts();
    falsePositiveStrong := 0;
    for i := 0 to |cases|
      invariant Counted(counts, falsePositiveStrong, Pairs(cases[..i], agents))
    {
      assert cases[..i + 1][..i] == cases[..i];
      IndexedLast(agents, cases[i].id);
      counts, falsePositiveStrong :=
        CountCase(counts, falsePositiveStrong, cases[i].gold, PredictedIn(byId, cases[i].id),
                  Pairs(cases[..i], agents));
    }
    assert cases[..|cases|] == cases;
    FiveLabels();
  }

  lemma FiveLabels()
    ensures (set l | l in Labels) == {"strong", "weak", "mention_only", "missing", "contradictory"}
  {
    assert Labels == ["strong", "weak", "mention_only", "missing", "contradictory"];
  }

  function TruePositive(name: string): Pair -> bool {
    (p: Pair) => p.actual == name && p.expected == name
  }

  function FalsePositive(name: string): Pair -> bool {
    (p: Pair) => p.actual == name && p.expected != name
  }

  function FalseNegative(name: string): Pair -> bool {
    (p: Pair) => p.actual != name && p.expected == name
  }

  ghost function Where(pairs: seq<Pair>, f: Pair -> bool): set<int> {
    set i | 0 <= i < |pairs| && f(pairs[i])
  }

  lemma WhereSnoc(pairs: seq<Pair>, p: Pair, f: Pair -> bool)
    ensures |Where(pairs + [p], f)| == |Where(pairs, f)| + One(f(p))
  {
    assert Where(pairs + [p], f) == Where(pairs, f) + if f(p) then {|pairs|} else {};
  }

  /** The counts of a label are numbers of pairs: with both sides it, only the prediction, only the gold label. */
  lemma {:induction false} CountsAreSizes(pairs: seq<Pair>, name: string)
    ensures CountsOf(pairs, name).tp == |Where(pairs, TruePositive(name))|
    ensures CountsOf(pairs, name).fp == |Where(pairs, FalsePositive(name))|
    ensures CountsOf(pairs, name).fn == |Where(pairs, FalseNegative(name))|
    decreases |pairs|
  {
    if pairs != [] {
      var rest, last := pairs[..|pairs| - 1], pairs[|pairs| - 1];
      CountsAreSizes(rest, name);
      WhereSnoc(rest, last, TruePositive(name));
      WhereSnoc(rest, last, FalsePositive(name));
      WhereSnoc(rest, last, FalseNegative(name));
      assert pairs == rest + [last];
    }
  }

  // ----- conservation -----

  function SumTp(pairs: seq<Pair>, labels: seq<string>): nat {
    if labels == [] then 0 else CountsOf(pairs, labels[0]).tp + SumTp(pairs, labels[1..])
  }

  function SumFp(pairs: seq<Pair>, labels: seq<string>): nat {
    if labels == [] then 0 else CountsOf(pairs, labels[0]).fp + SumFp(pairs, labels[1..])
  }

  function SumFn(pairs: seq<Pair>, labels: seq<string>): nat {
    if labels == [] then 0 else CountsOf(pairs, labels[0]).fn + SumFn(pairs, labels[1..])
  }

  function GoldWithin(pairs: seq<Pair>, labels: seq<string>): nat {
    if pairs == [] then 0
    else GoldWithin(pairs[..|pairs| - 1], labels) + One(pairs[|pairs| - 1].expected in labels)
  }

  function PredictedWithin(pairs: seq<Pair>, labels: seq<string>): nat {
    if pairs == [] then 0
    else PredictedWithin(pairs[..|pairs| - 1], labels) + One(pairs[|pairs| - 1].actual in labels)
  }

  lemma {:induction false} OnePairCounted(pairs: seq<Pair>, p: Pair, labels: seq<string>)
    requires forall i, j | 0 <= i < j < |labels| :: labels[i] != labels[j]
    ensures SumTp(pairs + [p], labels) + SumFn(pairs + [p], labels)
            == SumTp(pairs, labels) + SumFn(pairs, labels) + One(p.expected in labels)
    ensures SumTp(pairs + [p], labels) + SumFp(pairs + [p], labels)
            == SumTp(pairs, labels) + SumFp(pairs, labels) + One(p.actual in labels)
  {
    if labels != [] {
      assert (pairs + [p])[..|pairs|] == pairs;
      OnePairCounted(pairs, p, labels[1..]);
      assert labels == [labels[0]] + labels[1..];
    }
  }

  lemma {:induction false} NoPairsNoCounts(labels: seq<string>)
    ensures SumTp([], labels) == 0 && SumFp([], labels) == 0 && SumFn([], labels) == 0
  {
    if labels != [] {
      NoPairsNoCounts(labels[1..]);
    }
  }

  lemma {:induction false} SumsConserved(pairs: seq<Pair>)
    ensures SumTp(pairs, Labels) + SumFn(pairs, Labels) == GoldWithin(pairs, Labels)
    ensures SumTp(pairs, Labels) + SumFp(pairs, Labels) == PredictedWithin(pairs, Labels)
    decreases |pairs|
  {
    if pairs == [] {
      NoPairsNoCounts(Labels);
    } else {
      var rest, p := pairs[..|pairs| - 1], pairs[|pairs| - 1];
      SumsConserved(rest);
      LabelsDistinct();
      OnePairCounted(rest, p, Labels);
      assert pairs == rest + [p];
    }
  }

  lemma {:induction false} WithinCounts(pairs: seq<Pair>, labels: seq<string>)
    ensures GoldWithin(pairs, labels) == |pairs| <==> forall i | 0 <= i < |pairs| :: pairs[i].expected in labels
    ensures PredictedWithin(pairs, labels) == |pairs| <==> forall i | 0 <= i < |pairs| :: pairs[i].actual in labels
    ensures GoldWithin(pairs, labels) <= |pairs| && PredictedWithin(pairs, labels) <= |pairs|
    decreases |pairs|
  {
    if pairs != [] {
      var rest := pairs[..|pairs| - 1];
      WithinCounts(rest, labels);
      assert pairs == rest + [pairs[|pairs| - 1]];
    }
  }

  /**
    Every gold label is a true positive or a false negative, every known prediction a true
    or false positive; the totals are the number of pairs exactly when all labels are known.
  */
  lemma CountsConserved(pairs: seq<Pair>)
    ensures SumTp(pairs, Labels) + SumFn(pairs, Labels) == GoldWithin(pairs, Labels) <= |pairs|
    ensures SumTp(pairs, Labels) + SumFp(pairs, Labels) == PredictedWithin(pairs, Labels) <= |pairs|
    ensures GoldWithin(pairs, Labels) == |pairs| <==> forall i | 0 <= i < |pairs| :: pairs[i].expected in Labels
    ensures PredictedWithin(pairs, Labels) == |pairs| <==> forall i | 0 <= i < |pairs| :: pairs[i].actual in Labels
  {
    SumsConserved(pairs);
    WithinCounts(pairs, Labels);
  }

  /** With known labels on both sides the three totals agree: each equals the number of gold labels. */
  lemma KnownLabelsBalance(cases: seq<Case>, agents: seq<AgentResult>)
    requires forall p | p in Pairs(cases, agents) :: p.expected in Labels && p.actual in Labels
    ensures var pairs := Pairs(cases, agents);
      && SumTp(pairs, Labels) + SumFn(pairs, Labels) == |pairs|
      && SumTp(pairs, Labels) + SumFp(pairs, Labels) == |pairs|
      && SumFp(pairs, Labels) == SumFn(pairs, Labels)
  {
    CountsConserved(Pairs(cases, agents));
  }

  // ----- precision, recall, F1 -----

  function RatioOf(numerator: real, denominator: real): real {
    if denominator == 0.0 then 0.0 else numerator / denominator
  }

  function Precision(c: Counts): real {
    RatioOf(c.tp as real, (c.tp + c.fp) as real)
  }

  function Recall(c: Counts): real {
    RatioOf(c.tp as real, (c.tp + c.fn) as real)
  }

  function Harmonic(p: real, r: real): real {
    RatioOf(2.0 * p * r, p + r)
  }

  function F1(c: Counts): real {
    Harmonic(Precision(c), Recall(c))
  }

  lemma Product(a: real, b: real)
    requires 0.0 <= a && 0.0 <= b
    ensures 0.0 <= a * b
    ensures a * b == 0.0 <==> a == 0.0 || b == 0.0
  {
  }

  lemma QuotientUnit(n: real, d: real)
    requires 0.0 <= n <= d && 0.0 < d
    ensures 0.0 <= n / d <= 1.0
    ensures n / d == 1.0 <==> n == d
    ensures n == 0.0 <==> n / d == 0.0
  {
    var q := n / d;
    assert q * d == n;
    if q < 0.0 {
      Product(-q, d);
    } else if 1.0 < q {
      Product(q - 1.0, d);
    }
  }

  lemma RatioUnit(a: nat, b: nat)
    requires a <= b
    ensures 0.0 <= RatioOf(a as real, b as real) <= 1.0
    ensures RatioOf(a as real, b as real) == 1.0 <==> a == b && 0 < b
    ensures RatioOf(a as real, b as real) == 0.0 <==> a == 0
  {
    if 0 < b {
      QuotientUnit(a as real, b as real);
    }
  }

  /** What the harmonic mean falls short of 1 by, over the common denominator. */
  lemma HarmonicGap(p: real, r: real)
    requires 0.0 <= p <= 1.0 && 0.0 <= r <= 1.0
    ensures 0.0 <= 2.0 * p * r <= p + r
    ensures 0.0 < p + r ==> (2.0 * p * r == p + r <==> p == 1.0 && r == 1.0)
    ensures p == 0.0 ==> 2.0 * p * r == 0.0
  {
    var q, a, b := p * r, p * (1.0 - r), r * (1.0 - p);
    Product(p, r);
    Product(p, 1.0 - r);
    Product(r, 1.0 - p);
    assert a == p - q && b == r - q && 2.0 * p * r == 2.0 * q;
  }

  lemma HarmonicUnit(p: real, r: real)
    requires 0.0 <= p <= 1.0 && 0.0 <= r <= 1.0
    ensures 0.0 <= Harmonic(p, r) <= 1.0
    ensures Harmonic(p, r) == 1.0 <==> p == 1.0 && r == 1.0
    ensures p == 0.0 ==> Harmonic(p, r) == 0.0
  {
    HarmonicGap(p, r);
    if p + r != 0.0 {
      QuotientUnit(2.0 * p * r, p + r);
    }
  }

  /** F1 lies in the unit interval; it is 1 exactly when the label is present and never confused. */
  lemma F1Unit(c: Counts)
    ensures 0.0 <= F1(c) <= 1.0
    ensures F1(c) == 1.0 <==> 0 < c.tp && c.fp == 0 && c.fn == 0
    ensures c.tp == 0 ==> F1(c) == 0.0
  {
    RatioUnit(c.tp, c.tp + c.fp);
    RatioUnit(c.tp, c.tp + c.fn);
    HarmonicUnit(Precision(c), Recall(c));
  }

  /** F1 from the counts themselves: twice the true positives over twice those and all errors. */
  lemma F1FromCounts(c: Counts)
    ensures var all := 2 * c.tp + c.fp + c.fn;
      F1(c) == if all == 0 then 0.0 else 2.0 * (c.tp as real) / (all as real)
  {
    F1Unit(c);
    if c.tp > 0 {
      var t, a, b := c.tp as real, (c.tp + c.fp) as real, (c.tp + c.fn) as real;
      HarmonicOfShares(t, a, b, t / a, t / b, F1(c));
    }
  }

  lemma HarmonicOfShares(t: real, a: real, b: real, p: real, r: real, f: real)
    requires 0.0 < t && 0.0 < a && 0.0 < b && p == t / a && r == t / b && f == Harmonic(p, r)
    ensures f * (a + b) == 2.0 * t
  {
    assert p * a == t && r * b == t;
    Positive(t, a, p);
    Positive(t, b, r);
    assert f * (p + r) == 2.0 * p * r;
    // both sides times a * b
    assert (f * (p + r)) * (a * b) == f * (t * b + t * a) by {
      assert (p + r) * (a * b) == (p * a) * b + (r * b) * a;
    }
    assert (2.0 * p * r) * (a * b) == 2.0 * (p * a) * (r * b);
    assert f * (t * b + t * a) == (f * (a + b)) * t;
    assert (f * (a + b) - 2.0 * t) * t == 0.0;
  }

  lemma Positive(t: real, a: real, p: real)
    requires 0.0 < t && 0.0 < a && p * a == t
    ensures 0.0 < p
  {
    if p <= 0.0 {
      Product(-p, a);
    }
  }

  function SumF1(pairs: seq<Pair>, labels: seq<string>): real {
    if labels == [] then 0.0 else F1(CountsOf(pairs, labels[0])) + SumF1(pairs, labels[1..])
  }

  function MacroF1(pairs: seq<Pair>): real {
    SumF1(pairs, Labels) / 5.0
  }

  lemma {:induction false} SumF1Snoc(pairs: seq<Pair>, labels: seq<string>, name: string)
    ensures SumF1(pairs, labels + [name]) == SumF1(pairs, labels) + F1(CountsOf(pairs, name))
  {
    if labels != [] {
      SumF1Snoc(pairs, labels[1..], name);
      assert (labels + [name])[1..] == labels[1..] + [name];
    }
  }

  lemma OneMoreLabel(pairs: seq<Pair>, k: nat)
    requires k < |Labels|
    ensures SumF1(pairs, Labels[..k + 1]) == SumF1(pairs, Labels[..k]) + F1(CountsOf(pairs, Labels[k]))
  {
    assert Labels[..k + 1] == Labels[..k] + [Labels[k]];
    SumF1Snoc(pairs, Labels[..k], Labels[k]);
  }

  /** The last loop: the per-label F1 values and their mean. */
  method MacroAverage(counts: map<string, Counts>, ghost falsePositiveStrong: nat, ghost pairs: seq<Pair>)
      returns (macroF1: real)
    requires Counted(counts, falsePositiveStrong, pairs)
    ensures macroF1 == MacroF1(pairs)
  {
    var total := 0.0;
    for k := 0 to |Labels|
      invariant total == SumF1(pairs, Labels[..k])
    {
      OneMoreLabel(pairs, k);
      total := total + F1(counts[Labels[k]]);
    }
    assert Labels[..|Labels|] == Labels;
    macroF1 := total / 5.0;
  }

  ghost function GoldLabels(pairs: seq<Pair>): set<string> {
    set i | 0 <= i < |pairs| :: pairs[i].expected
  }

  lemma {:induction false} CountsPresence(pairs: seq<Pair>, name: string)
    ensures name in GoldLabels(pairs) <==> 0 < CountsOf(pairs, name).tp + CountsOf(pairs, name).fn
    ensures CountsOf(pairs, name).fn == 0 <==> forall i | 0 <= i < |pairs| && pairs[i].expected == name ::
      pairs[i].actual == name
    ensures CountsOf(pairs, name).fp == 0 <==> forall i | 0 <= i < |pairs| && pairs[i].actual == name ::
      pairs[i].expected == name
  {
    if pairs != [] {
      var rest := pairs[..|pairs| - 1];
      CountsPresence(rest, name);
      assert GoldLabels(pairs) == GoldLabels(rest) + {pairs[|pairs| - 1].expected};
    }
  }

  ghost predicate AllRight(pairs: seq<Pair>) {
    forall i | 0 <= i < |pairs| :: pairs[i].actual == pairs[i].expected
  }

  /** One label contributes at most 1, and only if it occurs in the gold standard. */
  lemma LabelShare(pairs: seq<Pair>, name: string)
    ensures 0.0 <= F1(CountsOf(pairs, name)) <= One(name in GoldLabels(pairs)) as real
    ensures AllRight(pairs) ==> F1(CountsOf(pairs, name)) == One(name in GoldLabels(pairs)) as real
    ensures F1(CountsOf(pairs, name)) == One(name in GoldLabels(pairs)) as real ==>
      forall i | 0 <= i < |pairs| && pairs[i].expected == name :: pairs[i].actual == name
  {
    CountsPresence(pairs, name);
    F1Unit(CountsOf(pairs, name));
  }

  function GoldIn(pairs: seq<Pair>, labels: seq<string>): nat {
    if labels == [] then 0
    else One(exists i | 0 <= i < |pairs| :: pairs[i].expected == labels[0]) + GoldIn(pairs, labels[1..])
  }

  lemma {:induction false} SharesAddUp(pairs: seq<Pair>, labels: seq<string>)
    ensures 0.0 <= SumF1(pairs, labels) <= GoldIn(pairs, labels) as real
    ensures AllRight(pairs) ==> SumF1(pairs, labels) == GoldIn(pairs, labels) as real
    ensures SumF1(pairs, labels) == GoldIn(pairs, labels) as real ==>
      forall i | 0 <= i < |pairs| && pairs[i].expected in labels :: pairs[i].actual == pairs[i].expected
  {
    if labels != [] {
      LabelShare(pairs, labels[0]);
      SharesAddUp(pairs, labels[1..]);
      assert labels[0] in GoldLabels(pairs) <==> exists i | 0 <= i < |pairs| :: pairs[i].expected == labels[0];
      forall i | 0 <= i < |pairs| && pairs[i].expected in labels
        ensures pairs[i].expected == labels[0] || pairs[i].expected in labels[1..]
      {
      }
    }
  }

  ghost function GoldAmong(pairs: seq<Pair>, labels: seq<string>): set<string> {
    set l | l in labels && l in GoldLabels(pairs)
  }

  lemma {:induction false} GoldInSize(pairs: seq<Pair>, labels: seq<string>)
    requires forall i, j | 0 <= i < j < |labels| :: labels[i] != labels[j]
    ensures GoldIn(pairs, labels) == |GoldAmong(pairs, labels)|
  {
    var present := GoldAmong(pairs, labels);
    if labels == [] {
      assert present == {};
    } else {
      var name, rest := labels[0], GoldAmong(pairs, labels[1..]);
      GoldInSize(pairs, labels[1..]);
      assert labels == [name] + labels[1..];
      assert name in GoldLabels(pairs) <==> exists i | 0 <= i < |pairs| :: pairs[i].expected == name;
      assert name !in labels[1..];
      if name in GoldLabels(pairs) {
        assert present == rest + {name};
      } else {
        assert present == rest;
      }
    }
  }

  /**
    Macro-F1 is at most the number of distinct gold labels over five, and reaches that
    bound exactly when every prediction is right.
  */
  lemma MacroF1Bounded(pairs: seq<Pair>)
    requires forall i | 0 <= i < |pairs| :: pairs[i].expected in Labels
    ensures 0.0 <= MacroF1(pairs) <= |GoldLabels(pairs)| as real / 5.0
    ensures MacroF1(pairs) == |GoldLabels(pairs)| as real / 5.0 <==> AllRight(pairs)
  {
    SharesAddUp(pairs, Labels);
    LabelsDistinct();
    GoldInSize(pairs, Labels);
    assert GoldAmong(pairs, Labels) == GoldLabels(pairs);
  }
}
