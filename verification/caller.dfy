/** The variant-calling pass of the amino-acid caller: for each gene, each
    codon start, the tally of the reads, the reference codon, and the
    accepted non-synonymous codons with their corrected p-values. */
module Caller {
  import opened Types
  import opened CodonOrder
  import opened Scanner
  import opened Tester
  import opened Drms

  /** Everything the pass reads: the aligned rows of the read matrix and the
      bounds [beginPos, endPos) of its window, the error estimates, the target
      configuration (genes, reference sequence, number of expected minors),
      the significance level, the translation table, and the exact test,
      which takes (observed, coverage, expected, coverage) to a raw p-value. */
  datatype Input = Input(
    rows: seq<string>,
    beginPos: int,
    endPos: int,
    error: ErrorEstimates,
    targetGenes: seq<TargetGene>,
    referenceSequence: string,
    numExpectedMinors: nat,
    alpha: real,
    table: Table,
    fisher: (int, int, real, int) -> real)

  /** The genes to call: the configured ones, or the whole window as gene "unknown". */
  function Genes(s: Input): (gs: seq<TargetGene>)
    ensures |gs| > 0
  {
    if s.targetGenes == [] then [TargetGene("unknown", s.beginPos, s.endPos, [], [])] else s.targetGenes
  }

  predicate HasReference(s: Input)
  {
    s.referenceSequence != []
  }

  predicate HasExpectedMinors(s: Input)
  {
    s.numExpectedMinors > 0
  }

  /** The Bonferroni factor of the run. */
  function Tests(s: Input): nat
  {
    NumberOfTests(s.rows, s.beginPos, s.table, Genes(s))
  }

  function Min(a: int, b: int): int
  {
    if a <= b then a else b
  }

  /** `reference.substr(pos, 3)`: None where it throws std::out_of_range
      (a negative position, or one past the end). */
  function Substr(reference: string, pos: int): (r: Option<string>)
    ensures r.Some? <==> 0 <= pos <= |reference|
    ensures r.Some? ==> |r.value| <= 3 && r.value <= reference[pos..]
  {
    if 0 <= pos <= |reference| then Some(reference[pos..Min(pos + 3, |reference|)]) else None
  }

  /** The reference lookup of the codon start i throws. */
  predicate RefThrows(s: Input, i: int)
  {
    HasReference(s) && Substr(s.referenceSequence, i - 1).None?
  }

  /** No codon start of the gene makes the reference lookup throw: the
      lookups of its first and of its last codon start are in range. */
  predicate GeneOk(s: Input, g: TargetGene)
  {
    LocusCount(g) == 0
    || (!RefThrows(s, LocusAt(g, 0)) && !RefThrows(s, LocusAt(g, LocusCount(g) - 1)))
  }

  lemma GeneOkPrefix(s: Input, gs: seq<TargetGene>, g: nat)
    requires g < |gs| && GeneOk(s, gs[g])
    requires forall j :: 0 <= j < g ==> GeneOk(s, gs[j])
    ensures forall j :: 0 <= j < g + 1 ==> GeneOk(s, gs[j])
  {
  }

  /** The lookup throws at some codon start of the gene iff it throws at the
      first or at the last one. */
  lemma GeneOkIff(s: Input, g: TargetGene)
    ensures GeneOk(s, g) <==> forall k :: 0 <= k < LocusCount(g) ==> !RefThrows(s, LocusAt(g, k))
  {
    if GeneOk(s, g) {
      forall k | 0 <= k < LocusCount(g)
        ensures !RefThrows(s, LocusAt(g, k))
      {
        assert LocusAt(g, 0) <= LocusAt(g, k) <= LocusAt(g, LocusCount(g) - 1);
      }
    }
  }

  // ---------------------------------------------------------------------
  // What is called at one locus
  // ---------------------------------------------------------------------

  /** One locus under test: its gene, codon start, reference codon, tally and coverage. */
  datatype Locus = Locus(gene: TargetGene, i: int, refCodon: string, tally: map<string, nat>, coverage: nat)

  predicate TestableLocus(s: Input, l: Locus)
  {
    WellFormedTable(s.table) && l.refCodon in s.table
    && forall c :: c in l.tally ==> c in s.table && 0 < l.tally[c] <= l.coverage
  }

  /** The raw p-value of the exact test of the 2x2 table of observed and
      expected counts against coverage. */
  function ExactTest(s: Input, observed: int, coverage: int, expected: real): real
  {
    s.fisher(observed, coverage, expected, coverage)
  }

  /** The count of codon c expected from sequencing errors alone, when the
      reference codon is refCodon. */
  function ExpectedCount(coverage: nat, refCodon: string, c: string, error: ErrorEstimates): real
    requires |refCodon| == 3 && |c| == 3
  {
    coverage as real * CodonProbability(refCodon, c, error)
  }

  /** The expected count lies between zero and the coverage. */
  lemma ExpectedCountInRange(coverage: nat, refCodon: string, c: string, error: ErrorEstimates)
    requires |refCodon| == 3 && |c| == 3 && ProbabilitiesInRange(error)
    ensures 0.0 <= ExpectedCount(coverage, refCodon, c, error) <= coverage as real
  {
    hide CodonProbability;
    var x, q := coverage as real, CodonProbability(refCodon, c, error);
    CodonProbabilityInRange(refCodon, c, error);
    ScaleDown(x, q);
    assert ExpectedCount(coverage, refCodon, c, error) == x * q;
  }

  lemma ScaleDown(x: real, q: real)
    requires 0.0 <= x && 0.0 <= q <= 1.0
    ensures 0.0 <= x * q <= x
  {
  }

  /** The corrected p-value of codon c at the locus. */
  function PValue(s: Input, n: nat, l: Locus, c: string): (p: real)
    requires TestableLocus(s, l) && c in l.tally
    ensures p <= 1.0
  {
    CorrectedP(ExactTest(s, l.tally[c], l.coverage, ExpectedCount(l.coverage, l.refCodon, c, s.error)), n)
  }

  /** Codon c is reported at the locus: it is not synonymous with the
      reference and passes the acceptance rule. */
  predicate Reported(s: Input, n: nat, l: Locus, c: string)
    requires TestableLocus(s, l)
  {
    c in l.tally
    && s.table[c] != s.table[l.refCodon]
    && Accepted(HasExpectedMinors(s), IsVariableSite(l.tally[c], l.coverage), PValue(s, n, l, c), s.alpha)
  }

  /** The record of a reported codon. */
  function Call(s: Input, n: nat, l: Locus, c: string): VariantCodon
    requires TestableLocus(s, l) && c in l.tally
  {
    VariantCodon(c, Frequency(l.tally[c], l.coverage), PValue(s, n, l, c),
                 DrmLabel(Genes(s), l.gene.name, CodonIndex(l.gene, l.i)))
  }

  predicate SortedCalls(vs: seq<VariantCodon>)
  {
    forall a, b :: 0 <= a < b < |vs| ==> LexLess(vs[a].codon, vs[b].codon)
  }

  /** A record in the list of amino acid aa: a reported codon of `done`
      that translates to aa, with its record. */
  ghost predicate CallOk(s: Input, n: nat, l: Locus, aa: char, vc: VariantCodon, done: set<string>)
    requires TestableLocus(s, l)
  {
    vc.codon in done && Reported(s, n, l, vc.codon) && s.table[vc.codon] == aa && vc == Call(s, n, l, vc.codon)
  }

  /** The list of amino acid aa: non-empty, in codon order, of sound records. */
  ghost predicate ListOk(s: Input, n: nat, l: Locus, aa: char, vs: seq<VariantCodon>, done: set<string>)
    requires TestableLocus(s, l)
  {
    vs != [] && SortedCalls(vs) && forall v :: 0 <= v < |vs| ==> CallOk(s, n, l, aa, vs[v], done)
  }

  /** Codon c has a record in the list of its amino acid. */
  ghost predicate Listed(s: Input, calls: map<char, seq<VariantCodon>>, c: string)
    requires c in s.table
  {
    s.table[c] in calls && exists v :: 0 <= v < |calls[s.table[c]]| && calls[s.table[c]][v].codon == c
  }

  /** The calls made for the tested codons `done`: every list is sound, and
      every reported codon of `done` is listed. */
  ghost predicate CallsSpec(s: Input, n: nat, l: Locus, calls: map<char, seq<VariantCodon>>, done: set<string>)
    requires TestableLocus(s, l)
  {
    (forall aa :: aa in calls ==> ListOk(s, n, l, aa, calls[aa], done))
    && (forall c :: c in done && Reported(s, n, l, c) ==> Listed(s, calls, c))
  }

  /** The relative offsets of the context columns around a call site: those
      of -3..5 whose absolute column lies in the window, in increasing order. */
  ghost predicate IsContext(js: seq<int>, i: int, beginPos: int, endPos: int)
  {
    (forall a, b :: 0 <= a < b < |js| ==> js[a] < js[b])
    && forall j :: j in js <==> -3 <= j < 6 && beginPos <= i + j < endPos
  }

  /** The record of a locus whose reference codon is not in the table. */
  function Unresolved(refCodon: string): VariantPosition
  {
    VariantPosition(refCodon, None, 0, map[], [])
  }

  /** The reference codon of the codon start i: the three bases of the
      reference sequence from i - 1 when one is configured (fewer at its
      end), otherwise the majority codon of the tally. */
  predicate ReferenceCodon(s: Input, i: int, refCodon: string)
  {
    if HasReference(s) then Substr(s.referenceSequence, i - 1) == Some(refCodon)
    else IsMajority(Tally(s.rows, i - s.beginPos, s.table), refCodon)
  }

  /** The record of the codon start i of a gene. */
  ghost predicate PositionSpec(s: Input, n: nat, gene: TargetGene, i: int, pos: VariantPosition)
  {
    var bi := i - s.beginPos;
    var tally := Tally(s.rows, bi, s.table);
    var coverage := Coverage(s.rows, bi);
    && ReferenceCodon(s, i, pos.refCodon)
    && if pos.refCodon !in s.table then pos == Unresolved(pos.refCodon)
       else
         var l := Locus(gene, i, pos.refCodon, tally, coverage);
         && pos.refAminoAcid == Some(s.table[pos.refCodon])
         && TestableLocus(s, l)
         && CallsSpec(s, n, l, pos.aminoAcidToCodons, tally.Keys)
         && if pos.aminoAcidToCodons == map[] then pos.coverage == 0 && pos.msaContext == []
            else pos.coverage == coverage && IsContext(pos.msaContext, i, s.beginPos, s.endPos)
  }

  /** A reference codon outside the table gives the unresolved record. */
  lemma UnresolvedSpec(s: Input, n: nat, gene: TargetGene, i: int, refCodon: string)
    requires ReferenceCodon(s, i, refCodon) && refCodon !in s.table
    ensures PositionSpec(s, n, gene, i, Unresolved(refCodon))
  {
  }

  /** A reference codon in the table gives the record of the tested codons:
      without calls, no coverage and no context. */
  lemma ResolvedSpec(s: Input, n: nat, l: Locus, calls: map<char, seq<VariantCodon>>, context: seq<int>)
    requires l.tally == Tally(s.rows, l.i - s.beginPos, s.table) && l.coverage == Coverage(s.rows, l.i - s.beginPos)
    requires ReferenceCodon(s, l.i, l.refCodon) && TestableLocus(s, l) && CallsSpec(s, n, l, calls, l.tally.Keys)
    requires calls != map[] ==> IsContext(context, l.i, s.beginPos, s.endPos)
    ensures PositionSpec(s, n, l.gene, l.i,
      if calls == map[] then VariantPosition(l.refCodon, Some(s.table[l.refCodon]), 0, calls, [])
      else VariantPosition(l.refCodon, Some(s.table[l.refCodon]), l.coverage, calls, context))
  {
  }

  /** Every record in the list of amino acid aa is that of a tested,
      non-synonymous codon (so never the reference codon itself) that
      translates to aa, with a clamped p-value below alpha and its share of
      the coverage as frequency. */
  lemma CallRecordMeaning(s: Input, n: nat, l: Locus, calls: map<char, seq<VariantCodon>>, aa: char, v: nat)
    requires TestableLocus(s, l) && CallsSpec(s, n, l, calls, l.tally.Keys)
    requires aa in calls && v < |calls[aa]|
    ensures calls[aa][v].codon in l.tally && s.table[calls[aa][v].codon] == aa
    ensures aa != s.table[l.refCodon] && calls[aa][v].codon != l.refCodon
    ensures calls[aa][v].pValue < s.alpha && calls[aa][v].pValue <= 1.0
    ensures calls[aa][v].frequency * l.coverage as real == l.tally[calls[aa][v].codon] as real
  {
    hide DrmLabel, ExactTest, ExpectedCount, Listed, PValue, Frequency, Accepted, Reported, Call;
    var vc := calls[aa][v];
    assert ListOk(s, n, l, aa, calls[aa], l.tally.Keys);
    assert CallOk(s, n, l, aa, vc, l.tally.Keys);
    ReportedCall(s, n, l, vc.codon);
  }

  /** The record of a reported codon: not synonymous with the reference,
      p-value below alpha and at most 1, frequency its share of the coverage. */
  lemma ReportedCall(s: Input, n: nat, l: Locus, c: string)
    requires TestableLocus(s, l) && c in l.tally && Reported(s, n, l, c)
    ensures s.table[c] != s.table[l.refCodon] && c != l.refCodon
    ensures Call(s, n, l, c).codon == c
    ensures Call(s, n, l, c).pValue < s.alpha && Call(s, n, l, c).pValue <= 1.0
    ensures Call(s, n, l, c).frequency * l.coverage as real == l.tally[c] as real
  {
    hide DrmLabel, ExactTest, ExpectedCount;
    assert 0 < l.tally[c] <= l.coverage;
  }

  /** A codon of a fully tested locus is listed iff it is reported. */
  lemma ListedIffReported(s: Input, n: nat, l: Locus, calls: map<char, seq<VariantCodon>>, c: string)
    requires TestableLocus(s, l) && CallsSpec(s, n, l, calls, l.tally.Keys)
    requires c in l.tally
    ensures Listed(s, calls, c) <==> Reported(s, n, l, c)
  {
    hide DrmLabel, ExactTest, ExpectedCount, PValue, Frequency, Accepted;
    if Listed(s, calls, c) {
      var v :| 0 <= v < |calls[s.table[c]]| && calls[s.table[c]][v].codon == c;
      assert ListOk(s, n, l, s.table[c], calls[s.table[c]], l.tally.Keys);
      assert CallOk(s, n, l, s.table[c], calls[s.table[c]][v], l.tally.Keys);
    }
  }

  /** The records of the first m codon starts of a gene, keyed by codon index. */
  ghost predicate PositionsUpTo(s: Input, n: nat, gene: TargetGene, positions: map<int, VariantPosition>, m: nat)
  {
    && (forall k :: k in positions <==> 1 <= k <= m)
    && forall k {:trigger positions[k]} :: k in positions ==>
         PositionSpec(s, n, gene, LocusAt(gene, k - 1), positions[k])
  }

  /** The record of one gene: named after it, one position per codon start. */
  ghost predicate GeneSpec(s: Input, n: nat, gene: TargetGene, vg: VariantGene)
  {
    vg.geneName == gene.name && PositionsUpTo(s, n, gene, vg.positions, LocusCount(gene))
  }

  /** The records of a list of genes: one per gene, in gene order. */
  ghost predicate GenesSpec(s: Input, n: nat, gs: seq<TargetGene>, records: seq<VariantGene>)
  {
    |records| == |gs| && forall j :: 0 <= j < |gs| ==> GeneSpec(s, n, gs[j], records[j])
  }

  /** Before any codon is tested there are no calls, and none is due. */
  lemma CallsSpecStart(s: Input, n: nat, l: Locus)
    requires TestableLocus(s, l)
    ensures CallsSpec(s, n, l, map[], {})
  {
  }

  /** A sound list stays sound when more codons have been tested. */
  lemma ListOkWiden(s: Input, n: nat, l: Locus, aa: char, vs: seq<VariantCodon>, done: set<string>, c: string)
    requires TestableLocus(s, l) && ListOk(s, n, l, aa, vs, done)
    ensures ListOk(s, n, l, aa, vs, done + {c})
  {
    hide PValue, DrmLabel, Frequency, Accepted;

    forall v | 0 <= v < |vs|
      ensures CallOk(s, n, l, aa, vs[v], done + {c})
    {
      assert CallOk(s, n, l, aa, vs[v], done);
    }
  }

  /** Appending the record of a reported codon of amino acid aa, larger than
      every tested codon, keeps the list of aa sound. */
  lemma ListOkAppend(s: Input, n: nat, l: Locus, aa: char, before: seq<VariantCodon>, done: set<string>, c: string)
    requires TestableLocus(s, l)
    requires before == [] || ListOk(s, n, l, aa, before, done)
    requires Reported(s, n, l, c) && s.table[c] == aa && forall d :: d in done ==> LexLess(d, c)
    ensures ListOk(s, n, l, aa, before + [Call(s, n, l, c)], done + {c})
  {
    hide PValue, DrmLabel, Frequency, Accepted;

    var after := before + [Call(s, n, l, c)];
    forall v | 0 <= v < |after|
      ensures CallOk(s, n, l, aa, after[v], done + {c})
    {
      if v < |before| {
        assert CallOk(s, n, l, aa, before[v], done);
      }
    }
    forall x, y | 0 <= x < y < |after|
      ensures LexLess(after[x].codon, after[y].codon)
    {
      if y == |before| {
        assert CallOk(s, n, l, aa, before[x], done);
      }
    }
  }

  /** Testing a codon that is not reported leaves the calls as they are. */
  lemma CallsSpecSkip(s: Input, n: nat, l: Locus, calls: map<char, seq<VariantCodon>>, done: set<string>, c: string)
    requires TestableLocus(s, l) && CallsSpec(s, n, l, calls, done)
    requires !Reported(s, n, l, c)
    ensures CallsSpec(s, n, l, calls, done + {c})
  {
    hide PValue, DrmLabel, Frequency, Accepted;

    forall aa | aa in calls
      ensures ListOk(s, n, l, aa, calls[aa], done + {c})
    {
      ListOkWiden(s, n, l, aa, calls[aa], done, c);
    }
  }

  /** Appending the record of a reported codon, larger than all tested
      before, to the list of its amino acid keeps every list sound. */
  lemma AddKeepsListsSound(s: Input, n: nat, l: Locus, calls: map<char, seq<VariantCodon>>, done: set<string>, c: string)
    requires TestableLocus(s, l) && forall aa :: aa in calls ==> ListOk(s, n, l, aa, calls[aa], done)
    requires Reported(s, n, l, c) && forall d :: d in done ==> LexLess(d, c)
    ensures var aa := s.table[c];
      var calls' := calls[aa := (if aa in calls then calls[aa] else []) + [Call(s, n, l, c)]];
      forall b :: b in calls' ==> ListOk(s, n, l, b, calls'[b], done + {c})
  {
    hide PValue, DrmLabel, Frequency, Accepted, ListOk, Call;
    var aa := s.table[c];
    var before := if aa in calls then calls[aa] else [];
    var calls' := calls[aa := before + [Call(s, n, l, c)]];
    forall b | b in calls'
      ensures ListOk(s, n, l, b, calls'[b], done + {c})
    {
      if b == aa {
        ListOkAppend(s, n, l, aa, before, done, c);
      } else {
        ListOkWiden(s, n, l, b, calls[b], done, c);
      }
    }
  }

  /** After appending the record of reported codon c to the list of its
      amino acid, every reported codon tested so far, c included, is listed. */
  lemma AddKeepsListed(s: Input, n: nat, l: Locus, calls: map<char, seq<VariantCodon>>, done: set<string>, c: string)
    requires TestableLocus(s, l) && forall x :: x in done && Reported(s, n, l, x) ==> Listed(s, calls, x)
    requires Reported(s, n, l, c)
    ensures var aa := s.table[c];
      var calls' := calls[aa := (if aa in calls then calls[aa] else []) + [Call(s, n, l, c)]];
      forall x :: x in done + {c} && Reported(s, n, l, x) ==> Listed(s, calls', x)
  {
    hide PValue, DrmLabel, Frequency, Accepted;
    var aa := s.table[c];
    var before := if aa in calls then calls[aa] else [];
    var after := before + [Call(s, n, l, c)];
    var calls' := calls[aa := after];
    forall x | x in done + {c} && Reported(s, n, l, x)
      ensures Listed(s, calls', x)
    {
      if x == c {
        assert after[|before|].codon == c;
      } else {
        assert Listed(s, calls, x);
        if s.table[x] == aa {
          var v :| 0 <= v < |calls[aa]| && calls[aa][v].codon == x;
          assert after[v].codon == x;
        }
      }
    }
  }

  /** Testing a reported codon, larger than all tested before, appends its
      record to the list of its amino acid. */
  lemma CallsSpecAdd(s: Input, n: nat, l: Locus, calls: map<char, seq<VariantCodon>>, done: set<string>, c: string)
    requires TestableLocus(s, l) && CallsSpec(s, n, l, calls, done)
    requires Reported(s, n, l, c) && forall d :: d in done ==> LexLess(d, c)
    ensures var aa := s.table[c];
      CallsSpec(s, n, l, calls[aa := (if aa in calls then calls[aa] else []) + [Call(s, n, l, c)]], done + {c})
  {
    hide PValue, DrmLabel, Frequency, Accepted, ListOk, Listed, Reported, Call;
    AddKeepsListsSound(s, n, l, calls, done, c);
    AddKeepsListed(s, n, l, calls, done, c);
  }

  /** Recording the next codon start extends the records by one. */
  lemma PositionsUpToStep(s: Input, n: nat, gene: TargetGene, positions: map<int, VariantPosition>, m: nat, pos: VariantPosition)
    requires PositionsUpTo(s, n, gene, positions, m)
    requires PositionSpec(s, n, gene, LocusAt(gene, m), pos)
    ensures PositionsUpTo(s, n, gene, positions[m + 1 := pos], m + 1)
  {
    hide PositionSpec, LocusAt;
    var after := positions[m + 1 := pos];
    forall k | 1 <= k <= m + 1
      ensures k in after && PositionSpec(s, n, gene, LocusAt(gene, k - 1), after[k])
    {
      if k <= m {
        assert after[k] == positions[k];
      }
    }
  }

  /** The records of the first g genes, extended by the record of gene g,
      are the records of the first g + 1 genes. */
  lemma GenesSpecNext(s: Input, n: nat, gs: seq<TargetGene>, g: nat, records: seq<VariantGene>, vg: VariantGene)
    requires g < |gs| && GenesSpec(s, n, gs[..g], records) && GeneSpec(s, n, gs[g], vg)
    ensures GenesSpec(s, n, gs[..g + 1], records + [vg])
  {
    forall j | 0 <= j < g + 1
      ensures GeneSpec(s, n, gs[..g + 1][j], (records + [vg])[j])
    {
      if j < g {
        assert gs[..g + 1][j] == gs[..g][j] && (records + [vg])[j] == records[j];
      }
    }
  }

  /** The gene record kept when a gene is closed: only one with positions. */
  function Kept(vg: VariantGene): (kept: seq<VariantGene>)
    ensures |kept| <= 1 && (kept == [vg] <==> vg.positions != map[])
  {
    if vg.positions != map[] then [vg] else []
  }

  /** The records kept when the genes are closed in order. */
  function NonEmpty(records: seq<VariantGene>): (kept: seq<VariantGene>)
    ensures |kept| <= |records|
    ensures forall v :: v in kept ==> v in records && v.positions != map[]
  {
    if records == [] then []
    else
      var init := records[..|records| - 1];
      assert forall v :: v in init ==> v in records;
      NonEmpty(init) + Kept(records[|records| - 1])
  }

  /** Closing one more gene appends its kept record. */
  lemma NonEmptySnoc(records: seq<VariantGene>, vg: VariantGene)
    ensures NonEmpty(records + [vg]) == NonEmpty(records) + Kept(vg)
  {
    assert (records + [vg])[..|records|] == records;
  }

  lemma AppendAssoc(a: seq<VariantGene>, b: seq<VariantGene>, c: seq<VariantGene>)
    ensures (a + b) + c == a + (b + c)
  {
  }

  /** A gene's record is kept iff the gene has a codon start. */
  lemma KeptIffCodonStart(s: Input, n: nat, g: TargetGene, vg: VariantGene)
    requires GeneSpec(s, n, g, vg)
    ensures Kept(vg) == if LocusCount(g) > 0 then [vg] else []
  {
    if LocusCount(g) > 0 {
      assert 1 in vg.positions;
    } else {
      assert forall k :: k !in vg.positions;
      assert vg.positions.Keys == {};
      assert vg.positions == map[];
    }
  }

  // ---------------------------------------------------------------------
  // The caller
  // ---------------------------------------------------------------------

  /** Collects the relative offsets of the context columns around codon start i. */
  method ContextOffsets(i: int, beginPos: int, endPos: int) returns (js: seq<int>)
    ensures IsContext(js, i, beginPos, endPos)
  {
    js := [];
    for j := -3 to 6
      invariant forall x :: x in js <==> -3 <= x < j && beginPos <= i + x < endPos
      invariant forall a, b :: 0 <= a < b < |js| ==> js[a] < js[b]
      invariant forall a :: 0 <= a < |js| ==> js[a] < j
    {
      if i + j >= beginPos && i + j < endPos {
        js := js + [j];
      }
    }
  }

  class AminoAcidCaller {
    const input: Input
    /** The genes with at least one position record, in gene order. */
    var variantGenes: seq<VariantGene>
    /** The gene being called, its name and its begin position. */
    var curVariantGene: VariantGene
    var geneName: string
    var geneOffset: int

    constructor (input: Input)
      ensures this.input == input && variantGenes == []
    {
      this.input := input;
      variantGenes := [];
      curVariantGene := VariantGene([], map[]);
      geneName := [];
      geneOffset := 0;
    }

    /** Starts a new gene: the previous gene is kept when it has positions. */
    method SetNewGene(begin: int, name: string)
      modifies this
      ensures geneName == name && geneOffset == begin
      ensures curVariantGene == VariantGene(name, map[])
      ensures variantGenes == old(variantGenes)
        + Kept(old(curVariantGene))
    {
      geneName := name;
      if curVariantGene.positions != map[] {
        variantGenes := variantGenes + [curVariantGene];
      }
      curVariantGene := VariantGene(name, map[]);
      geneOffset := begin;
    }

    /** Tests every codon of the tally, in map order, against the reference
        codon, classifies each test for the confusion tally, and groups the
        accepted ones by amino acid. */
    method TestCodons(l: Locus, keys: seq<string>, n: nat, perf: PerformanceTally)
      returns (calls: map<char, seq<VariantCodon>>)
      requires TestableLocus(input, l) && geneName == l.gene.name
      requires StrictlySorted(keys) && forall k :: k in keys <==> k in l.tally
      modifies perf
      ensures CallsSpec(input, n, l, calls, l.tally.Keys)
    {
      hide CallsSpec, ListOk, Listed, CallOk, LexLess;
      var codonPos := CodonIndex(l.gene, l.i);
      var refAminoAcid := input.table[l.refCodon];
      calls := map[];
      ghost var done: set<string> := {};
      CallsSpecStart(input, n, l);
      for k := 0 to |keys|
        invariant done == set j | 0 <= j < k :: keys[j]
        invariant CallsSpec(input, n, l, calls, done)
      {
        var codon := keys[k];
        assert forall d :: d in done ==> LexLess(d, codon);
        assert codon !in done by {
          LexLessIrreflexive(codon);
        }
        var count := l.tally[codon];
        var aminoAcid := input.table[codon];
        if aminoAcid == refAminoAcid {
          CallsSpecSkip(input, n, l, calls, done, codon);
          done := done + {codon};
          continue;
        }
        var expected := ExpectedCount(l.coverage, l.refCodon, codon, input.error);
        var raw := ExactTest(input, count, l.coverage, expected);
        var p := raw * n as real;
        if p > 1.0 {
          p := 1.0;
        }
        assert p == PValue(input, n, l, codon);
        var variableSite := perf.Measure(l.gene.minors, codonPos, aminoAcid, codon, count, p, l.coverage, input.alpha);
        if ((HasExpectedMinors(input) && variableSite) || !HasExpectedMinors(input)) && p < input.alpha {
          var drm := FindDRMs(geneName, Genes(input), codonPos);
          var call := VariantCodon(codon, count as real / l.coverage as real, p, drm);
          CallsSpecAdd(input, n, l, calls, done, codon);
          calls := calls[aminoAcid := (if aminoAcid in calls then calls[aminoAcid] else []) + [call]];
        } else {
          CallsSpecSkip(input, n, l, calls, done, codon);
        }
        done := done + {codon};
      }
      assert done == l.tally.Keys;
    }

    /** Calls the codon start i of a gene: scans the rows, resolves the
        reference codon, tests the other codons. Fails where the reference
        lookup throws. */
    method CallLocus(gene: TargetGene, i: int, n: nat, perf: PerformanceTally)
      returns (ok: bool, pos: VariantPosition)
      requires WellFormedTable(input.table) && geneName == gene.name
      modifies perf
      ensures ok <==> !RefThrows(input, i)
      ensures ok ==> PositionSpec(input, n, gene, i, pos)
    {
      hide PositionSpec, Tally, Coverage, CallsSpec, IsContext, IsMajority;
      // Absolute reference position
      var ai := i - 1;
      // Relative to window begin
      var bi := i - input.beginPos;
      var codons, coverage := ScanLocus(input.rows, bi, input.table);
      var keys := SortedKeys(codons.Keys);
      var refCodon;
      if input.referenceSequence != [] {
        if !(0 <= ai <= |input.referenceSequence|) {
          return false, Unresolved([]);
        }
        refCodon := input.referenceSequence[ai..Min(ai + 3, |input.referenceSequence|)];
      } else {
        refCodon := MajorityCodon(codons, keys);
      }
      assert ReferenceCodon(input, i, refCodon);
      if refCodon !in input.table {
        UnresolvedSpec(input, n, gene, i, refCodon);
        return true, Unresolved(refCodon);
      }
      pos := CallResolved(Locus(gene, i, refCodon, codons, coverage), keys, n, perf);
      ok := true;
    }

    /** Tests the codons of a locus whose reference codon translates, and
        builds its record with the context offsets when anything was called. */
    method CallResolved(l: Locus, keys: seq<string>, n: nat, perf: PerformanceTally)
      returns (pos: VariantPosition)
      requires WellFormedTable(input.table) && geneName == l.gene.name
      requires l.tally == Tally(input.rows, l.i - input.beginPos, input.table)
      requires l.coverage == Coverage(input.rows, l.i - input.beginPos)
      requires ReferenceCodon(input, l.i, l.refCodon) && l.refCodon in input.table
      requires StrictlySorted(keys) && forall k :: k in keys <==> k in l.tally
      modifies perf
      ensures PositionSpec(input, n, l.gene, l.i, pos)
    {
      hide PositionSpec, ReferenceCodon, Tally, Coverage, CallsSpec, IsContext;
      assert TestableLocus(input, l) by {
        TallyFacts(input.rows, l.i - input.beginPos, input.table);
      }
      var calls := TestCodons(l, keys, n, perf);
      var context := [];
      if calls == map[] {
        pos := VariantPosition(l.refCodon, Some(input.table[l.refCodon]), 0, calls, []);
      } else {
        context := ContextOffsets(l.i, input.beginPos, input.endPos);
        pos := VariantPosition(l.refCodon, Some(input.table[l.refCodon]), l.coverage, calls, context);
      }
      ResolvedSpec(input, n, l, calls, context);
    }

    /** Calls every codon start of one gene into a fresh gene record, after
        keeping the previous record when it has positions. */
    method CallGene(gene: TargetGene, n: nat, perf: PerformanceTally) returns (ok: bool)
      requires WellFormedTable(input.table)
      modifies this, perf
      ensures variantGenes == old(variantGenes)
        + Kept(old(curVariantGene))
      ensures ok <==> GeneOk(input, gene)
      ensures ok ==> GeneSpec(input, n, gene, curVariantGene)
    {
      hide PositionSpec, StartsBelow, LocusAt, LocusCount;
      SetNewGene(gene.begin, gene.name);
      var i := gene.begin;
      StartsBelowBegin(gene);
      while i < gene.end - 2
        invariant gene.begin <= i
        invariant i == gene.begin || i <= gene.end - 2
        invariant StartsBelow(gene, i) <= LocusCount(gene)
        invariant geneName == gene.name && geneOffset == gene.begin
        invariant variantGenes == old(variantGenes)
          + Kept(old(curVariantGene))
        invariant curVariantGene.geneName == gene.name
        invariant PositionsUpTo(input, n, gene, curVariantGene.positions, StartsBelow(gene, i))
        invariant forall k :: 0 <= k < StartsBelow(gene, i) ==> !RefThrows(input, LocusAt(gene, k))
      {
        StartsBelowStep(gene, i);
        // Relative to gene begin
        var ri := i - geneOffset;
        if ri % 3 == 0 {
          var codonPos := 1 + ri / 3;
          StartsBelowAtStart(gene, i);
          assert codonPos == StartsBelow(gene, i) + 1;
          var locusOk, pos := CallLocus(gene, i, n, perf);
          if !locusOk {
            GeneOkIff(input, gene);
            return false;
          }
          PositionsUpToStep(input, n, gene, curVariantGene.positions, codonPos - 1, pos);
          curVariantGene := curVariantGene.(positions := curVariantGene.positions[codonPos := pos]);
        }
        i := i + 1;
      }
      StartsBelowEnd(gene, i);
      GeneOkIff(input, gene);
      ok := true;
    }

    /** Calls the genes in order with the same number of tests. Fails at
        the first gene whose reference lookup throws; otherwise `records`
        holds one record per gene, and the records with positions, the
        current one included, follow the kept ones. */
    method CallGenes(genes: seq<TargetGene>, n: nat, perf: PerformanceTally)
      returns (ok: bool, ghost records: seq<VariantGene>)
      requires WellFormedTable(input.table)
      modifies this, perf
      ensures ok <==> forall g :: 0 <= g < |genes| ==> GeneOk(input, genes[g])
      ensures ok ==> && GenesSpec(input, n, genes, records)
                     && variantGenes + Kept(curVariantGene)
                        == old(variantGenes + Kept(curVariantGene)) + NonEmpty(records)
    {
      ghost var s := input;
      ghost var start := variantGenes + Kept(curVariantGene);
      ok := true;
      records := [];
      assert NonEmpty(records) == [] && start + [] == start;
      assert GenesSpec(s, n, genes[..0], records);
      for g := 0 to |genes|
        invariant GenesSpec(s, n, genes[..g], records)
        invariant forall j :: 0 <= j < g ==> GeneOk(s, genes[j])
        invariant variantGenes + Kept(curVariantGene) == start + NonEmpty(records)
      {
        ok := CallGene(genes[g], n, perf);
        if !ok {
          return;
        }
        GeneOkPrefix(s, genes, g);
        NonEmptySnoc(records, curVariantGene);
        AppendAssoc(start, NonEmpty(records), Kept(curVariantGene));
        GenesSpecNext(s, n, genes, g, records, curVariantGene);
        records := records + [curVariantGene];
      }
      assert genes[..|genes|] == genes;
    }

    /** The calling pass: counts the tests, then calls every gene in order and
        keeps the record of each gene that has positions. Fails where the
        reference lookup throws; otherwise `records` holds one record per
        gene, and those with positions are appended to the gene records. */
    method CallVariants() returns (ok: bool, ghost records: seq<VariantGene>)
      requires WellFormedTable(input.table)
      modifies this
      ensures ok <==> forall g :: 0 <= g < |Genes(input)| ==> GeneOk(input, Genes(input)[g])
      ensures ok ==> GenesSpec(input, Tests(input), Genes(input), records)
                     && variantGenes == old(variantGenes) + NonEmpty(records)
    {
      hide PositionSpec;
      var genes := Genes(input);
      curVariantGene := VariantGene([], map[]);
      geneName := [];
      geneOffset := 0;
      var n := CountNumberOfTests(input.rows, input.beginPos, input.table, genes);
      var perf := new PerformanceTally();
      ghost var before := variantGenes;
      assert Kept(curVariantGene) == [];
      assert before + Kept(curVariantGene) == before;
      ok, records := CallGenes(genes, n, perf);
      if !ok {
        return;
      }
      ghost var closed := variantGenes + Kept(curVariantGene);
      assert closed == before + NonEmpty(records);
      if curVariantGene.positions != map[] {
        variantGenes := variantGenes + [curVariantGene];
      }
      assert variantGenes == closed;
    }
  }
}
