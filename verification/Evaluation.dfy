/** Scoring one policy answer against a benchmark example, and averaging scores per policy. */
module Evaluation {
  import opened Options
  import opened Text
  import opened Arithmetic

  datatype Example = Example(id: string, contextChunks: seq<string>, goldAnswers: seq<string>, goldChunks: seq<string>)

  /** What the example schema guarantees. */
  ghost predicate ValidExample(e: Example) {
    e.goldAnswers != [] && e.goldChunks != [] && forall c :: c in e.goldChunks ==> c in e.contextChunks
  }

  datatype Answered = Answered(policyName: string, answer: string, cited: seq<string>)

  datatype Scores = Scores(exampleId: string, policyName: string, exact: real, contains: real, precision: real,
                           recall: real, f1: real, unsupported: real, abstained: bool)

  /** Case folding and white-space normalisation of an answer. */
  type Folding = string -> string

  function Members(s: seq<string>): set<string> {
    set x | x in s
  }

  predicate Distinct(s: seq<string>) {
    forall i, j :: 0 <= i < j < |s| ==> s[i] != s[j]
  }

  predicate OccursAt(part: string, whole: string, i: nat) {
    i + |part| <= |whole| && whole[i..i + |part|] == part
  }

  predicate Within(part: string, whole: string) {
    exists i :: 0 <= i <= |whole| && OccursAt(part, whole, i)
  }

  predicate ExactMatch(answer: string, gold: seq<string>, fold: Folding) {
    exists g :: g in gold && fold(answer) == fold(g)
  }

  predicate ContainsMatch(answer: string, gold: seq<string>, fold: Folding) {
    ExactMatch(answer, gold, fold) || exists g :: g in gold && Within(fold(g), fold(answer))
  }

  const ABSTENTIONS: set<string> :=
    {"i don't know", "i do not know", "unknown", "cannot answer", "unanswerable", "no answer", "not enough information"}

  function F1(precision: real, recall: real): real
    requires precision >= 0.0 && recall >= 0.0
  {
    if precision == 0.0 && recall == 0.0 then 0.0 else 2.0 * precision * recall / (precision + recall)
  }

  predicate CitationsValid(e: Example, a: Answered) {
    && a.policyName != "" && (exists c :: c in a.answer && !IsSpace(c))
    && a.cited != [] && "" !in a.cited && Distinct(a.cited)
    && forall c :: c in a.cited ==> c in e.contextChunks
  }

  function Indicator(p: bool): real {
    if p then 1.0 else 0.0
  }

  function Evaluate(e: Example, a: Answered, fold: Folding): Option<Scores>
    requires ValidExample(e)
  {
    if !CitationsValid(e, a) then None
    else
      var gold, cited := Members(e.goldChunks), Members(a.cited);
      assert a.cited[0] in cited && e.goldChunks[0] in gold;
      var precision := |cited * gold| as real / |cited| as real;
      var recall := |cited * gold| as real / |gold| as real;
      var abstained := fold(a.answer) in ABSTENTIONS;
      Some(Scores(e.id, a.policyName,
                  Indicator(!abstained && ExactMatch(a.answer, e.goldAnswers, fold)),
                  Indicator(!abstained && ContainsMatch(a.answer, e.goldAnswers, fold)),
                  precision, recall, F1(precision, recall), |cited - gold| as real / |cited| as real, abstained))
  }

  // ---------- One evaluation ----------

  lemma Fractions(a: nat, b: nat, n: nat)
    requires n > 0 && a + b == n
    ensures a as real / n as real + b as real / n as real == 1.0
    ensures 0.0 <= a as real / n as real <= 1.0
  {
    RealSum(a, b);
    QuotientSum(a as real, b as real, n as real);
    FractionWithin(a as real, n as real);
    Quotient(n as real, n as real);
    Cancel(n as real / n as real, 1.0, n as real);
  }

  lemma RealSum(a: int, b: int)
    ensures (a + b) as real == a as real + b as real
  {
  }

  lemma HarmonicMean(k: nat, c: nat, g: nat)
    requires c > 0 && g > 0
    ensures F1(k as real / c as real, k as real / g as real) == 2.0 * k as real / (c + g) as real
  {
    if k > 0 {
      FractionPositive(k as real, c as real);
      FractionPositive(k as real, g as real);
      HarmonicMeanOf(k as real, c as real, g as real, k as real / c as real, k as real / g as real);
    }
  }

  lemma FractionPositive(a: real, n: real)
    requires a > 0.0 && n > 0.0
    ensures a / n > 0.0 && (a / n) * n == a
  {
    Quotient(a, n);
    DivideKeepsOrder(0.0, a, n);
  }

  lemma HarmonicMeanOf(k: real, c: real, g: real, p: real, r: real)
    requires k > 0.0 && c > 0.0 && g > 0.0 && p > 0.0 && r > 0.0
    requires p * c == k && r * g == k
    ensures 2.0 * p * r / (p + r) == 2.0 * k / (c + g)
  {
    var f, e := 2.0 * p * r / (p + r), 2.0 * k / (c + g);
    Quotient(2.0 * p * r, p + r);
    Quotient(2.0 * k, c + g);
    CrossedSum(k, c, g, p, r);
    MulAssociates(e, p + r, c + g);
    MulAssociates(f, p + r, c + g);
    Cancel(f * (p + r), e * (p + r), c + g);
    Cancel(f, e, p + r);
  }

  /** Both ways of clearing the fractions give the same product. */
  lemma CrossedSum(k: real, c: real, g: real, p: real, r: real)
    requires p * c == k && r * g == k
    ensures (2.0 * p * r) * (c + g) == 2.0 * k * (p + r)
  {
    MulAssociates(p, r, c);
    MulAssociates(p, r, g);
    assert (p * r) * c == k * r;
    assert (p * r) * g == k * p;
  }

  ghost predicate Sound(s: Scores) {
    && 0.0 <= s.precision <= 1.0 && 0.0 <= s.recall <= 1.0 && 0.0 <= s.f1 <= 1.0
    && s.precision + s.unsupported == 1.0
    && 0.0 <= s.exact <= s.contains <= 1.0
    && (s.abstained ==> s.contains == 0.0)
  }

  /** Scores are fractions, precision and unsupported rate are complementary, and F1 is the overlap measure. */
  lemma EvaluateIsSound(e: Example, a: Answered, fold: Folding)
    requires ValidExample(e) && Evaluate(e, a, fold).Some?
    ensures var s, gold, cited := Evaluate(e, a, fold).value, Members(e.goldChunks), Members(a.cited);
            && Sound(s) && |cited| + |gold| > 0
            && s.f1 == 2.0 * |cited * gold| as real / (|cited| + |gold|) as real
            && (s.precision == 1.0 <==> cited <= gold) && (s.recall == 1.0 <==> gold <= cited)
            && (s.exact == 1.0 <==> !s.abstained && ExactMatch(a.answer, e.goldAnswers, fold))
  {
    var gold, cited := Members(e.goldChunks), Members(a.cited);
    assert a.cited[0] in cited && e.goldChunks[0] in gold;
    Partition(cited, gold);
    Partition(gold, cited);
    assert gold * cited == cited * gold;
    Fractions(|cited * gold|, |cited - gold|, |cited|);
    Fractions(|cited * gold|, |gold - cited|, |gold|);
    HarmonicMean(|cited * gold|, |cited|, |gold|);
    FractionIsOne(|cited * gold|, |cited|);
    FractionIsOne(|cited * gold|, |gold|);
    FractionWithin(2.0 * |cited * gold| as real, (|cited| + |gold|) as real);
  }

  lemma Partition(a: set<string>, b: set<string>)
    ensures |a * b| + |a - b| == |a|
    ensures |a * b| == |a| <==> a <= b
  {
    assert a == a * b + (a - b);
    assert |a * b + (a - b)| == |a * b| + |a - b|;
    if |a * b| == |a| {
      assert a - b == {};
    }
    if a <= b {
      assert a * b == a;
    }
  }

  lemma FractionIsOne(k: nat, n: nat)
    requires n > 0
    ensures k as real / n as real == 1.0 <==> k == n
  {
    Quotient(k as real, n as real);
    if k == n {
      Cancel(k as real / n as real, 1.0, n as real);
    }
  }

  // ---------- Averages per policy ----------

  type Metric = Scores -> real

  function SumOf(group: seq<Scores>, metric: Metric): real {
    if group == [] then 0.0 else SumOf(group[..|group| - 1], metric) + metric(group[|group| - 1])
  }

  function Mean(group: seq<Scores>, metric: Metric): real
    requires group != []
  {
    SumOf(group, metric) / |group| as real
  }

  function Group(all: seq<Scores>, policyName: string): seq<Scores> {
    if all == [] then []
    else
      var last := all[|all| - 1];
      Group(all[..|all| - 1], policyName) + if last.policyName == policyName then [last] else []
  }

  datatype PolicySummary = PolicySummary(policyName: string, exampleCount: nat, exact: real, contains: real,
                                         precision: real, recall: real, f1: real, unsupported: real, abstention: real)

  function Summary(policyName: string, group: seq<Scores>): PolicySummary
    requires group != []
  {
    PolicySummary(policyName, |group|, Mean(group, (s: Scores) => s.exact), Mean(group, (s: Scores) => s.contains),
                  Mean(group, (s: Scores) => s.precision), Mean(group, (s: Scores) => s.recall),
                  Mean(group, (s: Scores) => s.f1), Mean(group, (s: Scores) => s.unsupported),
                  Mean(group, (s: Scores) => Indicator(s.abstained)))
  }

  lemma {:induction false} SumBetween(group: seq<Scores>, lower: Metric, upper: Metric)
    requires forall s :: s in group ==> lower(s) <= upper(s)
    ensures SumOf(group, lower) <= SumOf(group, upper)
  {
    if group != [] {
      assert group[|group| - 1] in group;
      SumBetween(group[..|group| - 1], lower, upper);
    }
  }

  lemma {:induction false} SumOfConstant(group: seq<Scores>, c: real)
    ensures SumOf(group, (s: Scores) => c) == c * |group| as real
  {
    if group != [] {
      SumOfConstant(group[..|group| - 1], c);
    }
  }

  lemma {:induction false} SumOfSum(group: seq<Scores>, a: Metric, b: Metric)
    ensures SumOf(group, a) + SumOf(group, b) == SumOf(group, (s: Scores) => a(s) + b(s))
  {
    if group != [] {
      SumOfSum(group[..|group| - 1], a, b);
    }
  }

  /** Means keep an order that holds entry by entry. */
  lemma MeanBetween(group: seq<Scores>, lower: Metric, upper: Metric)
    requires group != [] && forall s :: s in group ==> lower(s) <= upper(s)
    ensures Mean(group, lower) <= Mean(group, upper)
  {
    SumBetween(group, lower, upper);
    DivideKeepsOrder(SumOf(group, lower), SumOf(group, upper), |group| as real);
  }

  lemma MeanOfConstant(group: seq<Scores>, c: real)
    requires group != []
    ensures Mean(group, (s: Scores) => c) == c
  {
    SumOfConstant(group, c);
  }

  lemma MeanWithin(group: seq<Scores>, metric: Metric)
    requires group != [] && forall s :: s in group ==> 0.0 <= metric(s) <= 1.0
    ensures 0.0 <= Mean(group, metric) <= 1.0
  {
    MeanOfConstant(group, 0.0);
    MeanOfConstant(group, 1.0);
    MeanBetween(group, (s: Scores) => 0.0, metric);
    MeanBetween(group, metric, (s: Scores) => 1.0);
  }

  ghost predicate SoundSummary(p: PolicySummary) {
    && 0.0 <= p.precision <= 1.0 && 0.0 <= p.recall <= 1.0 && 0.0 <= p.f1 <= 1.0
    && p.precision + p.unsupported == 1.0
    && 0.0 <= p.exact <= p.contains <= 1.0
    && p.contains + p.abstention <= 1.0
  }

  /** Averaging keeps every bound and relation between the scores; abstentions and matches exclude each other. */
  lemma SummaryIsSound(policyName: string, group: seq<Scores>)
    requires group != [] && forall s :: s in group ==> Sound(s)
    ensures SoundSummary(Summary(policyName, group))
  {
    MeanWithin(group, (s: Scores) => s.precision);
    MeanWithin(group, (s: Scores) => s.recall);
    MeanWithin(group, (s: Scores) => s.f1);
    MeanWithin(group, (s: Scores) => s.exact);
    MeanWithin(group, (s: Scores) => s.contains);
    MeanBetween(group, (s: Scores) => s.exact, (s: Scores) => s.contains);
    ComplementaryMeans(group);
    ExclusiveMeans(group);
  }

  lemma ComplementaryMeans(group: seq<Scores>)
    requires group != [] && forall s :: s in group ==> Sound(s)
    ensures Mean(group, (s: Scores) => s.precision) + Mean(group, (s: Scores) => s.unsupported) == 1.0
  {
    var p, u := (s: Scores) => s.precision, (s: Scores) => s.unsupported;
    MeanOfSum(group, p, u);
    MeanOfConstant(group, 1.0);
    MeanBetween(group, (s: Scores) => p(s) + u(s), (s: Scores) => 1.0);
    MeanBetween(group, (s: Scores) => 1.0, (s: Scores) => p(s) + u(s));
  }

  lemma ExclusiveMeans(group: seq<Scores>)
    requires group != [] && forall s :: s in group ==> Sound(s)
    ensures Mean(group, (s: Scores) => s.contains) + Mean(group, (s: Scores) => Indicator(s.abstained)) <= 1.0
  {
    var c, a := (s: Scores) => s.contains, (s: Scores) => Indicator(s.abstained);
    MeanOfSum(group, c, a);
    MeanOfConstant(group, 1.0);
    MeanBetween(group, (s: Scores) => c(s) + a(s), (s: Scores) => 1.0);
  }

  lemma MeanOfSum(group: seq<Scores>, a: Metric, b: Metric)
    requires group != []
    ensures Mean(group, a) + Mean(group, b) == Mean(group, (s: Scores) => a(s) + b(s))
  {
    SumOfSum(group, a, b);
    QuotientSum(SumOf(group, a), SumOf(group, b), |group| as real);
  }

  // ---------- Grouping ----------

  function Names(all: seq<Scores>): seq<string> {
    seq(|all|, i requires 0 <= i < |all| => all[i].policyName)
  }

  function GroupSizes(all: seq<Scores>, names: seq<string>): nat {
    if names == [] then 0 else GroupSizes(all, names[..|names| - 1]) + |Group(all, names[|names| - 1])|
  }

  lemma {:induction false} GroupMembers(all: seq<Scores>, policyName: string)
    ensures forall s :: s in Group(all, policyName) <==> s in all && s.policyName == policyName
    ensures Group(all, policyName) != [] <==> policyName in Names(all)
  {
    if all != [] {
      var front, last := all[..|all| - 1], all[|all| - 1];
      GroupMembers(front, policyName);
      assert all == front + [last];
      assert Names(all) == Names(front) + [last.policyName];
    }
  }

  /** One more evaluation adds one to exactly one group, if its name is listed. */
  lemma {:induction false} OneMoreEvaluation(all: seq<Scores>, names: seq<string>, s: Scores)
    requires Distinct(names)
    ensures GroupSizes(all + [s], names) == GroupSizes(all, names) + if s.policyName in names then 1 else 0
  {
    assert (all + [s])[..|all|] == all;
    if names != [] {
      var front, last := names[..|names| - 1], names[|names| - 1];
      assert names == front + [last];
      OneMoreEvaluation(all, front, s);
    }
  }

  /** The group sizes add up to the number of evaluations. */
  lemma {:induction false} GroupsCoverEverything(all: seq<Scores>, names: seq<string>)
    requires Distinct(names) && forall s :: s in all ==> s.policyName in names
    ensures GroupSizes(all, names) == |all|
  {
    if all == [] {
      NoGroups(names);
    } else {
      var front, last := all[..|all| - 1], all[|all| - 1];
      assert all == front + [last];
      GroupsCoverEverything(front, names);
      OneMoreEvaluation(front, names, last);
    }
  }

  lemma {:induction false} NoGroups(names: seq<string>)
    ensures GroupSizes([], names) == 0
  {
    if names != [] {
      NoGroups(names[..|names| - 1]);
    }
  }

  // ---------- What a match and a mean are ----------

  /** A match by containment: some gold answer, folded, is a stretch of the folded answer. */
  lemma ContainsMatchIff(answer: string, gold: seq<string>, fold: Folding)
    ensures ContainsMatch(answer, gold, fold)
       <==> exists g, i: nat, j: nat :: g in gold && i <= j <= |fold(answer)| && fold(answer)[i..j] == fold(g)
  {
    forall g | g in gold && Within(fold(g), fold(answer))
      ensures exists i: nat, j: nat :: i <= j <= |fold(answer)| && fold(answer)[i..j] == fold(g)
    {
      var i :| 0 <= i <= |fold(answer)| && OccursAt(fold(g), fold(answer), i);
      assert fold(answer)[i..i + |fold(g)|] == fold(g);
    }
    forall g | g in gold && fold(answer) == fold(g)
      ensures exists i: nat, j: nat :: i <= j <= |fold(answer)| && fold(answer)[i..j] == fold(g)
    {
      assert fold(answer)[0..|fold(answer)|] == fold(g);
    }
    forall g, i: nat, j: nat | g in gold && i <= j <= |fold(answer)| && fold(answer)[i..j] == fold(g)
      ensures Within(fold(g), fold(answer))
    {
      assert OccursAt(fold(g), fold(answer), i);
    }
  }

  /** Each mean of a summary is the sum of its own score, divided by the size of the group. */
  lemma SummaryMeans(policyName: string, group: seq<Scores>)
    requires group != []
    ensures var p, n := Summary(policyName, group), |group| as real;
            && p.policyName == policyName && p.exampleCount == |group|
            && p.exact * n == SumOf(group, (s: Scores) => s.exact) && p.contains * n == SumOf(group, (s: Scores) => s.contains)
            && p.precision * n == SumOf(group, (s: Scores) => s.precision) && p.recall * n == SumOf(group, (s: Scores) => s.recall)
            && p.f1 * n == SumOf(group, (s: Scores) => s.f1) && p.unsupported * n == SumOf(group, (s: Scores) => s.unsupported)
            && p.abstention * n == SumOf(group, (s: Scores) => Indicator(s.abstained))
  {
    MeansTimes(group, (s: Scores) => s.exact, (s: Scores) => s.contains, (s: Scores) => s.precision);
    MeansTimes(group, (s: Scores) => s.recall, (s: Scores) => s.f1, (s: Scores) => s.unsupported);
    MeanTimes(group, (s: Scores) => Indicator(s.abstained));
  }

  lemma MeansTimes(group: seq<Scores>, first: Metric, second: Metric, third: Metric)
    requires group != []
    ensures Mean(group, first) * |group| as real == SumOf(group, first)
    ensures Mean(group, second) * |group| as real == SumOf(group, second)
    ensures Mean(group, third) * |group| as real == SumOf(group, third)
  {
    MeanTimes(group, first);
    MeanTimes(group, second);
    MeanTimes(group, third);
  }

  lemma MeanTimes(group: seq<Scores>, metric: Metric)
    requires group != []
    ensures Mean(group, metric) * |group| as real == SumOf(group, metric)
  {
    Quotient(SumOf(group, metric), |group| as real);
  }
}
