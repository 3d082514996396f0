/**
 * The fuzzy recommendation engine: a genre antecedent with two degenerate
 * triangular terms, a recommendation consequent on 0..10 with three terms,
 * two rules, Mamdani implication by clipping, aggregation by pointwise
 * maximum, and centroid defuzzification over the discretised universe.
 */
module Fuzzy {
  import opened Wrappers

  /** A triangular membership function with breakpoints a, b, c. */
  datatype Triangle = Triangle(a: real, b: real, c: real)

  predicate WellFormed(t: Triangle)
  {
    t.a <= t.b <= t.c
  }

  /**
   * `fuzz.trimf` at one point: rises from a to b, falls from b to c, is 1 at
   * b and 0 elsewhere, degenerate sides being skipped.
   */
  function Trimf(t: Triangle, x: real): (m: real)
    requires WellFormed(t)
    ensures 0.0 <= m <= 1.0
    ensures m == 1.0 <==> x == t.b
    ensures m > 0.0 <==> (t.a < x < t.c || x == t.b)
  {
    if t.a != t.b && t.a < x < t.b then
      RatioBelowOne(x - t.a, t.b - t.a);
      (x - t.a) / (t.b - t.a)
    else if t.b != t.c && t.b < x < t.c then
      RatioBelowOne(t.c - x, t.c - t.b);
      (t.c - x) / (t.c - t.b)
    else if x == t.b then 1.0
    else 0.0
  }

  lemma RatioBelowOne(n: real, d: real)
    requires 0.0 < n < d
    ensures 0.0 < n / d < 1.0
  {
    var q := n / d;
    assert q * d == n;
    QuotientOrder(q, d, 1.0);
  }

  /** `np.arange(lo, hi, 1)` as reals. */
  function Range(lo: int, hi: int): (u: seq<real>)
    ensures |u| == if lo < hi then hi - lo else 0
    ensures forall i :: 0 <= i < |u| ==> lo as real <= u[i] < hi as real
    ensures forall i :: 0 < i < |u| ==> u[i] == u[i - 1] + 1.0
  {
    if lo >= hi then [] else seq(hi - lo, i requires 0 <= i < hi - lo => (lo + i) as real)
  }

  datatype GenreTerm = Match | NotMatch
  datatype RecommendationTerm = Low | Medium | High

  /** A rule "genre is `antecedent` implies recommendation is `consequent`". */
  datatype Rule = Rule(antecedent: GenreTerm, consequent: RecommendationTerm)

  datatype Antecedent = Antecedent(universe: seq<real>, matchTerm: Triangle, notMatchTerm: Triangle)
  datatype Consequent = Consequent(universe: seq<real>, low: Triangle, medium: Triangle, high: Triangle)
  datatype ControlSystem = ControlSystem(genre: Antecedent, recommendation: Consequent, rules: seq<Rule>)

  function AntecedentMf(v: Antecedent, t: GenreTerm): Triangle
  {
    match t
    case Match => v.matchTerm
    case NotMatch => v.notMatchTerm
  }

  function ConsequentMf(v: Consequent, t: RecommendationTerm): Triangle
  {
    match t
    case Low => v.low
    case Medium => v.medium
    case High => v.high
  }

  predicate ValidSystem(s: ControlSystem)
  {
    && WellFormed(s.genre.matchTerm) && WellFormed(s.genre.notMatchTerm)
    && WellFormed(s.recommendation.low) && WellFormed(s.recommendation.medium)
    && WellFormed(s.recommendation.high)
  }

  /** The `genre` antecedent: universe {0, 1}, `match` = (1, 1, 1), `not_match` = (0, 0, 0). */
  function GenreVariable(): Antecedent
  {
    Antecedent(Range(0, 2), Triangle(1.0, 1.0, 1.0), Triangle(0.0, 0.0, 0.0))
  }

  /** The `recommendation` consequent: universe 0..10, `low`, `medium` and `high`. */
  function RecommendationVariable(): Consequent
  {
    Consequent(Range(0, 11), Triangle(0.0, 0.0, 5.0), Triangle(0.0, 5.0, 10.0), Triangle(5.0, 10.0, 10.0))
  }

  /** match implies high; not_match implies low. */
  function Rules(): seq<Rule>
  {
    [Rule(Match, High), Rule(NotMatch, Low)]
  }

  /** The control system both front ends build at start-up. */
  function Control(): ControlSystem
  {
    ControlSystem(GenreVariable(), RecommendationVariable(), Rules())
  }

  /**
   * The degree to which a rule's antecedent holds for crisp input `x`; the
   * input is a universe point, so this is the term's membership at `x`.
   */
  function FiringStrength(s: ControlSystem, r: Rule, x: real): (w: real)
    requires ValidSystem(s)
    ensures 0.0 <= w <= 1.0
  {
    Trimf(AntecedentMf(s.genre, r.antecedent), x)
  }

  /** Mamdani implication: a membership value clipped at a firing strength. */
  function Clip(strength: real, m: real): (r: real)
    ensures r <= strength && r <= m
    ensures r == strength || r == m
  {
    if strength <= m then strength else m
  }

  /** The clipped output of rule `r` at consequent point `y`. */
  function Implication(s: ControlSystem, r: Rule, x: real, y: real): (v: real)
    requires ValidSystem(s)
    ensures 0.0 <= v <= FiringStrength(s, r, x)
    ensures v <= Trimf(ConsequentMf(s.recommendation, r.consequent), y)
  {
    Clip(FiringStrength(s, r, x), Trimf(ConsequentMf(s.recommendation, r.consequent), y))
  }

  /** Pointwise maximum of the clipped outputs of `rules` at point `y`. */
  function AggregateAt(s: ControlSystem, rules: seq<Rule>, x: real, y: real): (mu: real)
    requires ValidSystem(s)
    ensures 0.0 <= mu <= 1.0
    ensures forall k :: 0 <= k < |rules| ==> Implication(s, rules[k], x, y) <= mu
    ensures mu > 0.0 ==> exists k :: 0 <= k < |rules| && mu == Implication(s, rules[k], x, y)
  {
    if rules == [] then 0.0
    else
      var head, rest := Implication(s, rules[0], x, y), AggregateAt(s, rules[1..], x, y);
      assert forall k :: 1 <= k < |rules| ==> rules[k] == rules[1..][k - 1];
      if head >= rest then head else rest
  }

  /** The aggregated membership curve, sampled on the consequent's universe. */
  function Aggregated(s: ControlSystem, x: real): (mu: seq<real>)
    requires ValidSystem(s)
    ensures |mu| == |s.recommendation.universe|
  {
    var u := s.recommendation.universe;
    seq(|u|, i requires 0 <= i < |u| => AggregateAt(s, s.rules, x, u[i]))
  }

  predicate NonNegative(mu: seq<real>)
  {
    forall i :: 0 <= i < |mu| ==> mu[i] >= 0.0
  }

  /** Total membership. */
  function Mass(mu: seq<real>): real
  {
    if mu == [] then 0.0 else mu[0] + Mass(mu[1..])
  }

  /** First moment of the membership curve about the origin. */
  function Moment(xs: seq<real>, mu: seq<real>): real
    requires |xs| == |mu|
  {
    if mu == [] then 0.0 else xs[0] * mu[0] + Moment(xs[1..], mu[1..])
  }

  /** Defuzzification is undefined when the aggregated curve has no area. */
  datatype FuzzyError = ZeroArea

  /** Centroid defuzzification: the point about which the curve balances. */
  function Centroid(xs: seq<real>, mu: seq<real>): (r: Result<real, FuzzyError>)
    requires |xs| == |mu|
    ensures r.Success? ==> Mass(mu) != 0.0 && r.value * Mass(mu) == Moment(xs, mu)
    ensures r.Failure? ==> Mass(mu) == 0.0
  {
    var m := Mass(mu);
    if m == 0.0 then Failure(ZeroArea) else Success(Moment(xs, mu) / m)
  }

  /** `compute()`: fuzzify, fire the rules, aggregate and defuzzify. */
  function Infer(s: ControlSystem, x: real): Result<real, FuzzyError>
    requires ValidSystem(s)
  {
    Centroid(s.recommendation.universe, Aggregated(s, x))
  }

  /** `get_recommendation`: the crisp output, or 0 when `compute()` fails. */
  function Score(s: ControlSystem, x: real): real
    requires ValidSystem(s)
  {
    match Infer(s, x)
    case Success(v) => v
    case Failure(_) => 0.0
  }

  // ---------------------------------------------------------------------
  // Membership and aggregation facts

  /** On the genre universe {0, 1} the degenerate terms are indicators. */
  lemma GenreTermsAreIndicators(x: real)
    requires x in GenreVariable().universe
    ensures Trimf(GenreVariable().matchTerm, x) == if x == 1.0 then 1.0 else 0.0
    ensures Trimf(GenreVariable().notMatchTerm, x) == if x == 0.0 then 1.0 else 0.0
  {
  }

  /** A rule set that never concludes `medium` ignores the `medium` term. */
  lemma {:induction false} MediumIrrelevantAt(s: ControlSystem, m: Triangle, rules: seq<Rule>, x: real, y: real)
    requires ValidSystem(s) && WellFormed(m)
    requires forall k :: 0 <= k < |rules| ==> rules[k].consequent != Medium
    ensures ValidSystem(s.(recommendation := s.recommendation.(medium := m)))
    ensures AggregateAt(s.(recommendation := s.recommendation.(medium := m)), rules, x, y)
         == AggregateAt(s, rules, x, y)
  {
    if rules != [] {
      MediumIrrelevantAt(s, m, rules[1..], x, y);
    }
  }

  /** Changing `medium` changes nothing about the output of the two rules. */
  lemma MediumIrrelevant(m: Triangle, x: real)
    requires WellFormed(m)
    ensures ValidSystem(Control().(recommendation := Control().recommendation.(medium := m)))
    ensures Infer(Control().(recommendation := Control().recommendation.(medium := m)), x) == Infer(Control(), x)
  {
    var s' := Control().(recommendation := Control().recommendation.(medium := m));
    forall y { MediumIrrelevantAt(Control(), m, Rules(), x, y); }
    assert Aggregated(s', x) == Aggregated(Control(), x);
  }

  // ---------------------------------------------------------------------
  // Centroid bounds from the support of the aggregated curve

  lemma {:induction false} MassNonNegative(mu: seq<real>)
    requires NonNegative(mu)
    ensures Mass(mu) >= 0.0
  {
    if mu != [] { MassNonNegative(mu[1..]); }
  }

  lemma {:induction false} MassPositive(mu: seq<real>, k: nat)
    requires NonNegative(mu) && k < |mu| && mu[k] > 0.0
    ensures Mass(mu) > 0.0
  {
    if k == 0 { MassNonNegative(mu[1..]); } else { MassPositive(mu[1..], k - 1); }
  }

  lemma {:induction false} MassZero(mu: seq<real>)
    requires forall i :: 0 <= i < |mu| ==> mu[i] == 0.0
    ensures Mass(mu) == 0.0
  {
    if mu != [] { MassZero(mu[1..]); }
  }

  /** The moment about a pivot `t`: the sum of `(x - t) * mu(x)`. */
  function MomentAbout(xs: seq<real>, mu: seq<real>, t: real): real
    requires |xs| == |mu|
  {
    if mu == [] then 0.0 else Lever(xs[0], mu[0], t) + MomentAbout(xs[1..], mu[1..], t)
  }

  /** The contribution of mass `m` at `x` to the moment about `t`. */
  function Lever(x: real, m: real, t: real): real
  {
    (x - t) * m
  }

  lemma {:induction false} MomentAboutShift(xs: seq<real>, mu: seq<real>, t: real)
    requires |xs| == |mu|
    ensures MomentAbout(xs, mu, t) == Moment(xs, mu) - t * Mass(mu)
  {
    if mu != [] {
      MomentAboutShift(xs[1..], mu[1..], t);
      assert Lever(xs[0], mu[0], t) == xs[0] * mu[0] - t * mu[0];
      assert t * Mass(mu) == t * mu[0] + t * Mass(mu[1..]);
    }
  }

  /** Sign of one point's contribution to the moment about `t`. */
  lemma TermSign(x: real, m: real, t: real)
    requires m >= 0.0
    ensures m == 0.0 ==> Lever(x, m, t) == 0.0
    ensures t <= x ==> Lever(x, m, t) >= 0.0
    ensures x <= t ==> Lever(x, m, t) <= 0.0
    ensures m > 0.0 && t < x ==> Lever(x, m, t) > 0.0
    ensures m > 0.0 && x < t ==> Lever(x, m, t) < 0.0
  {
  }

  /** Mass only at or above `t` gives a non-negative moment about `t`, a positive one if some lies above. */
  lemma {:induction false} MomentAboutNonNegative(xs: seq<real>, mu: seq<real>, t: real)
    requires |xs| == |mu| && NonNegative(mu)
    requires forall i :: 0 <= i < |mu| && mu[i] > 0.0 ==> t <= xs[i]
    ensures MomentAbout(xs, mu, t) >= 0.0
  {
    if mu != [] {
      TermSign(xs[0], mu[0], t);
      MomentAboutNonNegative(xs[1..], mu[1..], t);
    }
  }

  lemma {:induction false} MomentAboutPositive(xs: seq<real>, mu: seq<real>, t: real, k: nat)
    requires |xs| == |mu| && NonNegative(mu)
    requires forall i :: 0 <= i < |mu| && mu[i] > 0.0 ==> t <= xs[i]
    requires k < |mu| && mu[k] > 0.0 && t < xs[k]
    ensures MomentAbout(xs, mu, t) > 0.0
  {
    TermSign(xs[0], mu[0], t);
    if k == 0 {
      MomentAboutNonNegative(xs[1..], mu[1..], t);
    } else {
      MomentAboutPositive(xs[1..], mu[1..], t, k - 1);
    }
  }

  /** Mass only at or below `t` gives a non-positive moment about `t`, a negative one if some lies below. */
  lemma {:induction false} MomentAboutNonPositive(xs: seq<real>, mu: seq<real>, t: real)
    requires |xs| == |mu| && NonNegative(mu)
    requires forall i :: 0 <= i < |mu| && mu[i] > 0.0 ==> xs[i] <= t
    ensures MomentAbout(xs, mu, t) <= 0.0
  {
    if mu != [] {
      TermSign(xs[0], mu[0], t);
      MomentAboutNonPositive(xs[1..], mu[1..], t);
    }
  }

  lemma {:induction false} MomentAboutNegative(xs: seq<real>, mu: seq<real>, t: real, k: nat)
    requires |xs| == |mu| && NonNegative(mu)
    requires forall i :: 0 <= i < |mu| && mu[i] > 0.0 ==> xs[i] <= t
    requires k < |mu| && mu[k] > 0.0 && xs[k] < t
    ensures MomentAbout(xs, mu, t) < 0.0
  {
    TermSign(xs[0], mu[0], t);
    if k == 0 {
      MomentAboutNonPositive(xs[1..], mu[1..], t);
    } else {
      MomentAboutNegative(xs[1..], mu[1..], t, k - 1);
    }
  }

  /** Order of a quotient by a positive mass, compared with a bound `t`. */
  lemma QuotientOrder(c: real, m: real, t: real)
    requires m > 0.0
    ensures t * m <= c * m ==> t <= c
    ensures c * m <= t * m ==> c <= t
    ensures t * m < c * m ==> t < c
    ensures c * m < t * m ==> c < t
  {
    assert (c - t) * m == c * m - t * m;
  }

  /** A curve with positive mass has a centroid inside the hull of its support. */
  lemma CentroidWithinSupport(xs: seq<real>, mu: seq<real>, lo: real, hi: real, k: nat)
    requires |xs| == |mu| && NonNegative(mu) && k < |mu| && mu[k] > 0.0
    requires forall i :: 0 <= i < |mu| && mu[i] > 0.0 ==> lo <= xs[i] <= hi
    ensures Centroid(xs, mu).Success?
    ensures lo <= Centroid(xs, mu).value <= hi
    ensures lo < xs[k] ==> lo < Centroid(xs, mu).value
    ensures xs[k] < hi ==> Centroid(xs, mu).value < hi
  {
    CentroidAboveLow(xs, mu, lo, hi, k);
    CentroidBelowHigh(xs, mu, lo, hi, k);
  }

  /** The centroid lies at or above the lower end of the support's hull, strictly when a positive point lies above it. */
  lemma CentroidAboveLow(xs: seq<real>, mu: seq<real>, lo: real, hi: real, k: nat)
    requires |xs| == |mu| && NonNegative(mu) && k < |mu| && mu[k] > 0.0
    requires forall i :: 0 <= i < |mu| && mu[i] > 0.0 ==> lo <= xs[i] <= hi
    ensures Centroid(xs, mu).Success?
    ensures lo <= Centroid(xs, mu).value
    ensures lo < xs[k] ==> lo < Centroid(xs, mu).value
  {
    MassPositive(mu, k);
    var c, m := Centroid(xs, mu).value, Mass(mu);
    assert c * m == Moment(xs, mu);
    SupportMoments(xs, mu, lo, hi, k);
    CentroidSide(c, m, Moment(xs, mu), lo);
  }

  /** The centroid lies at or below the upper end of the support's hull, strictly when a positive point lies below it. */
  lemma CentroidBelowHigh(xs: seq<real>, mu: seq<real>, lo: real, hi: real, k: nat)
    requires |xs| == |mu| && NonNegative(mu) && k < |mu| && mu[k] > 0.0
    requires forall i :: 0 <= i < |mu| && mu[i] > 0.0 ==> lo <= xs[i] <= hi
    ensures Centroid(xs, mu).Success?
    ensures Centroid(xs, mu).value <= hi
    ensures xs[k] < hi ==> Centroid(xs, mu).value < hi
  {
    MassPositive(mu, k);
    var c, m := Centroid(xs, mu).value, Mass(mu);
    assert c * m == Moment(xs, mu);
    SupportMoments(xs, mu, lo, hi, k);
    CentroidSide(c, m, Moment(xs, mu), hi);
  }

  /** The moments about the two ends of the support's hull have opposite signs. */
  lemma SupportMoments(xs: seq<real>, mu: seq<real>, lo: real, hi: real, k: nat)
    requires |xs| == |mu| && NonNegative(mu) && k < |mu| && mu[k] > 0.0
    requires forall i :: 0 <= i < |mu| && mu[i] > 0.0 ==> lo <= xs[i] <= hi
    ensures Moment(xs, mu) - lo * Mass(mu) >= 0.0
    ensures Moment(xs, mu) - hi * Mass(mu) <= 0.0
    ensures lo < xs[k] ==> Moment(xs, mu) - lo * Mass(mu) > 0.0
    ensures xs[k] < hi ==> Moment(xs, mu) - hi * Mass(mu) < 0.0
  {
    MomentAboutShift(xs, mu, lo);
    MomentAboutShift(xs, mu, hi);
    MomentAboutNonNegative(xs, mu, lo);
    MomentAboutNonPositive(xs, mu, hi);
    if lo < xs[k] { MomentAboutPositive(xs, mu, lo, k); }
    if xs[k] < hi { MomentAboutNegative(xs, mu, hi, k); }
  }

  /** The side of a pivot `t` on which a centroid lies is the sign of the moment about `t`. */
  lemma CentroidSide(c: real, m: real, mo: real, t: real)
    requires m > 0.0 && c * m == mo
    ensures mo - t * m >= 0.0 ==> t <= c
    ensures mo - t * m > 0.0 ==> t < c
    ensures mo - t * m <= 0.0 ==> c <= t
    ensures mo - t * m < 0.0 ==> c < t
  {
    QuotientOrder(c, m, t);
  }

  // ---------------------------------------------------------------------
  // The two possible scores

  lemma ControlIsValid()
    ensures ValidSystem(Control())
  {
  }

  /** On a positive aggregated value the contributing rule is known. */
  lemma {:induction false} FiredRule(x: real, y: real)
    requires AggregateAt(Control(), Rules(), x, y) > 0.0
    ensures (Implication(Control(), Rules()[0], x, y) == AggregateAt(Control(), Rules(), x, y))
         || (Implication(Control(), Rules()[1], x, y) == AggregateAt(Control(), Rules(), x, y))
  {
  }

  /** With the genre matching only `high` fires: the curve lives on (5, 10] and reaches 1 at 10. */
  lemma MatchCurve()
    ensures var mu := Aggregated(Control(), 1.0);
      && |mu| == 11 && NonNegative(mu) && mu[10] == 1.0
      && forall i :: 0 <= i < 11 && mu[i] > 0.0 ==>
           5.0 < RecommendationVariable().universe[i] <= 10.0
  {
    var mu, u := Aggregated(Control(), 1.0), RecommendationVariable().universe;
    assert Implication(Control(), Rules()[0], 1.0, u[10]) == 1.0;
    forall i | 0 <= i < 11 && mu[i] > 0.0 ensures 5.0 < u[i] <= 10.0 {
      FiredRule(1.0, u[i]);
      assert Implication(Control(), Rules()[1], 1.0, u[i]) <= 0.0;
    }
  }

  /** With no genre match only `low` fires: the curve lives on [0, 5) and reaches 1 at 0. */
  lemma NoMatchCurve()
    ensures var mu := Aggregated(Control(), 0.0);
      && |mu| == 11 && NonNegative(mu) && mu[0] == 1.0
      && forall i :: 0 <= i < 11 && mu[i] > 0.0 ==>
           0.0 <= RecommendationVariable().universe[i] < 5.0
  {
    var mu, u := Aggregated(Control(), 0.0), RecommendationVariable().universe;
    assert Implication(Control(), Rules()[1], 0.0, u[0]) == 1.0;
    forall i | 0 <= i < 11 && mu[i] > 0.0 ensures 0.0 <= u[i] < 5.0 {
      FiredRule(0.0, u[i]);
      assert Implication(Control(), Rules()[0], 0.0, u[i]) <= 0.0;
    }
  }

  /** A matching genre always computes, and scores above 5 and at most 10. */
  lemma MatchScore()
    ensures Infer(Control(), 1.0).Success?
    ensures 5.0 < Score(Control(), 1.0) <= 10.0
  {
    MatchCurve();
    CentroidWithinSupport(RecommendationVariable().universe, Aggregated(Control(), 1.0), 5.0, 10.0, 10);
  }

  /** A non-matching genre always computes, and scores at least 0 and below 5. */
  lemma NoMatchScore()
    ensures Infer(Control(), 0.0).Success?
    ensures 0.0 <= Score(Control(), 0.0) < 5.0
  {
    NoMatchCurve();
    CentroidWithinSupport(RecommendationVariable().universe, Aggregated(Control(), 0.0), 0.0, 5.0, 0);
  }

  /** With the default threshold 5 a score is kept exactly when the genre matches. */
  lemma DefaultThresholdSeparates(g: int)
    requires g == 0 || g == 1
    ensures Score(Control(), g as real) >= 5.0 <==> g == 1
  {
    if g == 1 { MatchScore(); } else { NoMatchScore(); }
  }

  /** A non-negative curve with non-zero mass is positive somewhere. */
  lemma PositivePoint(mu: seq<real>) returns (k: nat)
    requires NonNegative(mu) && Mass(mu) != 0.0
    ensures k < |mu| && mu[k] > 0.0
  {
    if forall i :: 0 <= i < |mu| ==> mu[i] <= 0.0 {
      MassZero(mu);
      assert false;
    }
    k :| 0 <= k < |mu| && mu[k] > 0.0;
  }

  /**
   * A score lies between any bounds of the consequent's universe that also
   * enclose the fallback 0.
   */
  lemma ScoreWithin(s: ControlSystem, x: real, lo: real, hi: real)
    requires ValidSystem(s) && lo <= 0.0 <= hi
    requires forall i :: 0 <= i < |s.recommendation.universe| ==> lo <= s.recommendation.universe[i] <= hi
    ensures lo <= Score(s, x) <= hi
  {
    var mu, u := Aggregated(s, x), s.recommendation.universe;
    if Infer(s, x).Success? {
      var k := PositivePoint(mu);
      CentroidWithinSupport(u, mu, lo, hi, k);
    }
  }

  /** Every score of the recommender lies on the consequent's universe range [0, 10]. */
  lemma ScoreRange(x: real)
    ensures 0.0 <= Score(Control(), x) <= 10.0
  {
    ScoreWithin(Control(), x, 0.0, 10.0);
  }

  /** A failed computation scores 0, which a threshold keeps only when it is at most 0. */
  lemma FailureScoresZero(x: real, threshold: real)
    requires Infer(Control(), x).Failure?
    ensures Score(Control(), x) == 0.0
    ensures Score(Control(), x) >= threshold <==> threshold <= 0.0
  {
  }
}
