/** The pieces of the variant test at one locus: the reference-to-codon
    probability of the error model, the corrected p-value, the expected-minor
    predictor, the variable-site rule, the acceptance rule, the confusion
    tally, and the majority codon used when no reference is given. */
module Tester {
  import opened Types
  import opened CodonOrder

  // ---------------------------------------------------------------------
  // Error model
  // ---------------------------------------------------------------------

  /** Probability of observing base b where the reference has base a. */
  function BaseProbability(a: char, b: char, error: ErrorEstimates): real
  {
    if a == '-' || b == '-' then error.deletion
    else if a != b then error.substitution
    else error.matchProb
  }

  /** Probability of reading codon b where the reference has codon a: the
      product of the three base probabilities. */
  function CodonProbability(a: string, b: string, error: ErrorEstimates): real
    requires |a| == 3 && |b| == 3
  {
    BaseProbability(a[0], b[0], error) * BaseProbability(a[1], b[1], error) * BaseProbability(a[2], b[2], error)
  }

  predicate ProbabilitiesInRange(error: ErrorEstimates)
  {
    0.0 <= error.matchProb <= 1.0 && 0.0 <= error.substitution <= 1.0 && 0.0 <= error.deletion <= 1.0
  }

  lemma ProductInRange(x: real, y: real)
    requires 0.0 <= x <= 1.0 && 0.0 <= y <= 1.0
    ensures 0.0 <= x * y <= y
  {
  }

  lemma BaseProbabilityInRange(a: char, b: char, error: ErrorEstimates)
    requires ProbabilitiesInRange(error)
    ensures 0.0 <= BaseProbability(a, b, error) <= 1.0
  {
  }

  lemma ProductOfThreeInRange(x: real, y: real, z: real)
    requires 0.0 <= x <= 1.0 && 0.0 <= y <= 1.0 && 0.0 <= z <= 1.0
    ensures 0.0 <= x * y * z <= 1.0
  {
    ProductInRange(x, y);
    ProductInRange(x * y, z);
  }

  /** The codon probability is a probability when the three error rates are. */
  lemma CodonProbabilityInRange(a: string, b: string, error: ErrorEstimates)
    requires |a| == 3 && |b| == 3 && ProbabilitiesInRange(error)
    ensures 0.0 <= CodonProbability(a, b, error) <= 1.0
  {
    hide BaseProbability;
    BaseProbabilityInRange(a[0], b[0], error);
    BaseProbabilityInRange(a[1], b[1], error);
    BaseProbabilityInRange(a[2], b[2], error);
    ProductOfThreeInRange(BaseProbability(a[0], b[0], error), BaseProbability(a[1], b[1], error), BaseProbability(a[2], b[2], error));
  }

  /** A gap-free codon against itself has probability match^3; against a codon
      differing at every base, substitution^3. */
  lemma CodonProbabilityExtremes(a: string, b: string, error: ErrorEstimates)
    requires |a| == 3 && |b| == 3 && '-' !in a && '-' !in b
    ensures a == b ==> CodonProbability(a, b, error) == error.matchProb * error.matchProb * error.matchProb
    ensures (a[0] != b[0] && a[1] != b[1] && a[2] != b[2]) ==>
              CodonProbability(a, b, error) == error.substitution * error.substitution * error.substitution
  {
    assert a[0] in a && a[1] in a && a[2] in a;
    assert b[0] in b && b[1] in b && b[2] in b;
  }

  // ---------------------------------------------------------------------
  // Corrected p-value and acceptance
  // ---------------------------------------------------------------------

  /** The raw p-value multiplied by the number of tests, clamped to 1. */
  function CorrectedP(raw: real, numberOfTests: nat): (p: real)
    ensures p <= 1.0
    ensures p == 1.0 || p == raw * numberOfTests as real
    ensures raw * numberOfTests as real <= 1.0 ==> p == raw * numberOfTests as real
    ensures 0.0 <= raw ==> 0.0 <= p
  {
    var q := raw * numberOfTests as real;
    if q > 1.0 then 1.0 else q
  }

  /** A site is variable when the codon's share of coverage is below 0.8. */
  predicate IsVariableSite(count: nat, coverage: nat)
  {
    5 * count < 4 * coverage
  }

  /** Below a threshold as a share of v iff below the threshold times v. */
  lemma ShareBelow(c: real, v: real, threshold: real)
    requires v > 0.0
    ensures c / v < threshold <==> c < threshold * v
  {
    var r := c / v;
    assert r * v == c;
    if r < threshold {
      assert r * v < threshold * v;
    }
    if c < threshold * v {
      assert r * v < threshold * v;
    }
  }

  /** The integer form of the variable-site rule is the 0.8 share threshold. */
  lemma VariableSiteIsShareBelowFourFifths(count: nat, coverage: nat)
    requires coverage > 0
    ensures IsVariableSite(count, coverage) <==> (count as real) / (coverage as real) < 0.8
  {
    var c, v := count as real, coverage as real;
    ShareBelow(c, v, 0.8);
    assert 5 * count < 4 * coverage <==> 5.0 * c < 4.0 * v;
  }

  /** The acceptance rule: significant, and, when expected minors are
      configured, also on a variable site. */
  predicate Accepted(hasExpectedMinors: bool, variableSite: bool, p: real, alpha: real)
  {
    ((hasExpectedMinors && variableSite) || !hasExpectedMinors) && p < alpha
  }

  /** The share of coverage reported as a call's frequency. */
  function Frequency(count: nat, coverage: nat): (f: real)
    ensures 0 < count <= coverage ==> 0.0 < f <= 1.0
    ensures coverage > 0 ==> f * coverage as real == count as real
  {
    if coverage == 0 then 0.0 else count as real / coverage as real
  }

  // ---------------------------------------------------------------------
  // Expected minors
  // ---------------------------------------------------------------------

  /** `s[0]` of a C++ string: its first character, or the terminating NUL of an empty one. */
  function FirstChar(s: string): char
  {
    if |s| > 0 then s[0] else '\0'
  }

  predicate MinorMatches(m: Minor, codonPos: int, aminoacid: char, codon: string)
  {
    codonPos == m.position && aminoacid == FirstChar(m.aminoacid) && codon == m.codon
  }

  /** Whether the call is one of the gene's expected minor variants. */
  function Predictor(minors: seq<Minor>, codonPos: int, aminoacid: char, codon: string): (r: bool)
    ensures r <==> exists j :: 0 <= j < |minors| && MinorMatches(minors[j], codonPos, aminoacid, codon)
  {
    if minors == [] then false
    else if MinorMatches(minors[0], codonPos, aminoacid, codon) then true
    else
      var r := Predictor(minors[1..], codonPos, aminoacid, codon);
      assert forall j :: 1 <= j < |minors| ==> minors[j] == minors[1..][j - 1];
      r
  }

  /** The confusion-matrix tally of MeasurePerformance. */
  class PerformanceTally {
    var truePositives: nat
    var falsePositives: nat
    var falseNegatives: nat
    var trueNegatives: nat

    function Total(): nat
      reads this
    {
      truePositives + falsePositives + falseNegatives + trueNegatives
    }

    constructor ()
      ensures truePositives == 0 && falsePositives == 0 && falseNegatives == 0 && trueNegatives == 0
    {
      truePositives, falsePositives, falseNegatives, trueNegatives := 0, 0, 0, 0;
    }

    /** Classifies one test of a codon at a locus: on a variable site exactly
        one counter goes up, as significance and the predictor say;
        otherwise none does. Returns whether the site is variable. */
    method Measure(minors: seq<Minor>, codonPos: int, aminoacid: char, codon: string,
                   count: nat, p: real, coverage: nat, alpha: real)
      returns (variableSite: bool)
      modifies this
      ensures variableSite == IsVariableSite(count, coverage)
      ensures var predicted := Predictor(minors, codonPos, aminoacid, codon);
        && truePositives == old(truePositives) + (if variableSite && p < alpha && predicted then 1 else 0)
        && falsePositives == old(falsePositives) + (if variableSite && p < alpha && !predicted then 1 else 0)
        && falseNegatives == old(falseNegatives) + (if variableSite && !(p < alpha) && predicted then 1 else 0)
        && trueNegatives == old(trueNegatives) + (if variableSite && !(p < alpha) && !predicted then 1 else 0)
      ensures Total() == old(Total()) + (if variableSite then 1 else 0)
    {
      variableSite := 5 * count < 4 * coverage;
      if variableSite {
        if p < alpha {
          if Predictor(minors, codonPos, aminoacid, codon) {
            truePositives := truePositives + 1;
          } else {
            falsePositives := falsePositives + 1;
          }
        } else {
          if Predictor(minors, codonPos, aminoacid, codon) {
            falseNegatives := falseNegatives + 1;
          } else {
            trueNegatives := trueNegatives + 1;
          }
        }
      }
    }
  }

  // ---------------------------------------------------------------------
  // Majority codon
  // ---------------------------------------------------------------------

  /** The majority codon of a tally: a codon of maximal count, the
      lexicographically smallest among equals; "" for an empty tally. */
  predicate IsMajority(tally: map<string, nat>, c: string)
  {
    if tally == map[] then c == []
    else c in tally && forall d :: d in tally ==>
      tally[d] < tally[c] || (tally[d] == tally[c] && !LexLess(d, c))
  }

  /** The majority rule picks exactly one codon. */
  lemma MajorityUnique(tally: map<string, nat>, c1: string, c2: string)
    requires IsMajority(tally, c1) && IsMajority(tally, c2)
    ensures c1 == c2
  {
    if tally != map[] && c1 != c2 {
      LexLessTotal(c1, c2);
    }
  }

  /** Scans the keys in map order and keeps the first one whose count is
      strictly greater than all counts seen before. */
  method MajorityCodon(codons: map<string, nat>, keys: seq<string>) returns (argmax: string)
    requires StrictlySorted(keys)
    requires forall k :: k in keys <==> k in codons
    ensures IsMajority(codons, argmax)
  {
    var max := -1;
    argmax := [];
    ghost var at := 0;
    for n := 0 to |keys|
      invariant n == 0 ==> argmax == [] && max == -1
      invariant 0 <= at <= n && (n > 0 ==> at < n)
      invariant n > 0 ==> argmax == keys[at] && max == codons[argmax]
      invariant forall j :: 0 <= j < n ==> codons[keys[j]] <= max
      invariant forall j :: 0 <= j < at ==> codons[keys[j]] < max
    {
      if codons[keys[n]] > max {
        max := codons[keys[n]];
        argmax := keys[n];
        at := n;
      }
    }
    if codons != map[] {
      var some :| some in codons;
      assert some in keys;
      forall d | d in codons
        ensures codons[d] < codons[argmax] || (codons[d] == codons[argmax] && !LexLess(d, argmax))
      {
        var j :| 0 <= j < |keys| && keys[j] == d;
        if j == at {
          LexLessIrreflexive(d);
        } else if j > at {
          LexLessAsymmetric(argmax, d);
        }
      }
    }
  }

  /** With a table of triplets, an empty tally's majority "" is not a codon,
      so such a locus is skipped. */
  lemma EmptyTallyHasNoReference(table: Table, c: string)
    requires WellFormedTable(table) && IsMajority(map[], c)
    ensures c !in table
  {
  }
}
