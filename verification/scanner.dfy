/** The codon scanner: which codon starts of a gene are examined, what each
    aligned read contributes at a locus, the per-locus tally and coverage,
    and the total number of tests used for the Bonferroni correction. */
module Scanner {
  import opened Types

  // ---------------------------------------------------------------------
  // Codon starts of a gene
  // ---------------------------------------------------------------------

  /** Number of codon starts i of a gene: begin <= i < end - 2, i - begin a multiple of 3. */
  function LocusCount(g: TargetGene): nat
  {
    if g.end - 2 > g.begin then (g.end - 2 - g.begin + 2) / 3 else 0
  }

  /** The k-th codon start of a gene (k from 0). */
  function LocusAt(g: TargetGene, k: nat): int
  {
    g.begin + 3 * k
  }

  /** The relative codon index stored for the codon start i. */
  function CodonIndex(g: TargetGene, i: int): int
  {
    1 + (i - g.begin) / 3
  }

  /** Number of codon starts strictly below position i, for begin <= i. */
  function StartsBelow(g: TargetGene, i: int): nat
    requires g.begin <= i
  {
    (i - g.begin + 2) / 3
  }

  /** A position of the gene's scan range is examined iff it is a codon start,
      and then it is the k-th start with codon index k + 1. */
  lemma CodonStarts(g: TargetGene, i: int)
    requires g.begin <= i < g.end - 2
    ensures (i - g.begin) % 3 == 0 <==> exists k :: 0 <= k < LocusCount(g) && LocusAt(g, k) == i
    ensures (i - g.begin) % 3 == 0 ==>
              (0 <= (i - g.begin) / 3 < LocusCount(g)
               && LocusAt(g, (i - g.begin) / 3) == i
               && CodonIndex(g, i) == (i - g.begin) / 3 + 1)
  {
    var r := i - g.begin;
    var q := r / 3;
    assert r == 3 * q + r % 3;
    if r % 3 == 0 {
      assert LocusAt(g, q) == i;
    } else {
      forall k | 0 <= k < LocusCount(g)
        ensures LocusAt(g, k) != i
      {
        assert r - 3 * k == 3 * (q - k) + r % 3;
      }
    }
  }

  /** One step of a gene's scan past position i: the codon starts below
      i + 1 are those below i, and i itself when it is a codon start. */
  lemma StartsBelowStep(g: TargetGene, i: int)
    requires g.begin <= i < g.end - 2
    ensures StartsBelow(g, i + 1) <= LocusCount(g)
    ensures (i - g.begin) % 3 == 0 ==>
              && StartsBelow(g, i) < LocusCount(g)
              && StartsBelow(g, i + 1) == StartsBelow(g, i) + 1
              && LocusAt(g, StartsBelow(g, i)) == i
    ensures (i - g.begin) % 3 != 0 ==> StartsBelow(g, i + 1) == StartsBelow(g, i)
  {
    var r := i - g.begin;
    var q := r / 3;
    assert r == 3 * q + r % 3;
    if r % 3 == 0 {
      assert (r + 2) / 3 == q;
      assert (r + 3) / 3 == q + 1;
    } else if r % 3 == 1 {
      assert (r + 2) / 3 == q + 1;
      assert (r + 3) / 3 == q + 1;
    } else {
      assert (r + 2) / 3 == q + 1;
      assert (r + 3) / 3 == q + 1;
    }
  }

  /** At a codon start, the starts below it number its relative codon index minus one. */
  lemma StartsBelowAtStart(g: TargetGene, i: int)
    requires g.begin <= i && (i - g.begin) % 3 == 0
    ensures StartsBelow(g, i) == (i - g.begin) / 3
  {
    var r := i - g.begin;
    assert r == 3 * (r / 3);
  }

  /** No codon start lies below the gene's begin. */
  lemma StartsBelowBegin(g: TargetGene)
    ensures StartsBelow(g, g.begin) == 0
  {
  }

  /** When the scan of a gene ends, every codon start has been visited. */
  lemma StartsBelowEnd(g: TargetGene, i: int)
    requires g.begin <= i
    requires (i == g.begin && g.end - 2 <= g.begin) || i == g.end - 2 > g.begin
    ensures StartsBelow(g, i) == LocusCount(g)
  {
  }

  // ---------------------------------------------------------------------
  // What one read contributes at a locus
  // ---------------------------------------------------------------------

  /** The coverage guard: all three bases bi, bi+1, bi+2 lie inside the row. */
  predicate Covers(row: string, bi: int)
  {
    0 <= bi && bi + 2 < |row|
  }

  /** The guard as written at the tally loop of CallVariants. */
  predicate CoversAsWritten(row: string, bi: int)
  {
    !(bi + 2 > |row| || bi < 0)
  }

  /** The pad check of the tally loop of CallVariants as written, behind its
      own guard: `row.at` is evaluated left to right and stops at the first
      pad, and an index at or past the end throws std::out_of_range. */
  datatype PadCheck = SkippedRead | OutOfRangeThrown | PassedRead

  function PadCheckAsWritten(row: string, bi: int): PadCheck
  {
    if !CoversAsWritten(row, bi) then SkippedRead
    else if row[bi] == ' ' || row[bi + 1] == ' ' then SkippedRead
    else if bi + 2 >= |row| then OutOfRangeThrown
    else if row[bi + 2] == ' ' then SkippedRead
    else PassedRead
  }

  /** The as-written guard admits exactly one more case than the corrected
      one: a row ending right before the third base of the codon. */
  lemma GuardsDiffer(row: string, bi: int)
    ensures (CoversAsWritten(row, bi) && !Covers(row, bi)) <==> (0 <= bi && bi + 2 == |row|)
    ensures Covers(row, bi) ==> CoversAsWritten(row, bi)
  {
  }

  /** As written, a row of length bi + 2 whose last two bases are not pads
      makes the scan throw; the corrected guard skips that row. */
  lemma AsWrittenThrowsOnShortRow(table: Table)
    ensures PadCheckAsWritten("AC", 0) == OutOfRangeThrown
    ensures ReadTriplet("AC", 0, table) == OutOfWindow && !Reaches("AC", 0)
  {
  }

  /** As written, the scan throws iff the row ends right before the codon's
      third base and neither of its first two bases is a pad; the corrected
      guard never reads past the end of the row. */
  lemma AsWrittenThrowsExactly(row: string, bi: int)
    ensures PadCheckAsWritten(row, bi) == OutOfRangeThrown
        <==> (0 <= bi && bi + 2 == |row| && row[bi] != ' ' && row[bi + 1] != ' ')
    ensures PadCheckAsWritten(row, bi) == PassedRead <==> Reaches(row, bi)
  {
  }

  /** What a row yields at the codon starting at offset bi of the window. */
  datatype Triplet = OutOfWindow | Padded | Gapped | Unrecognised | Valid(codon: string)

  function ReadTriplet(row: string, bi: int, table: Table): (t: Triplet)
    ensures t.Valid? ==> Covers(row, bi) && t.codon == row[bi..bi + 3] && t.codon in table
                         && ' ' !in t.codon && '-' !in t.codon
    ensures t.OutOfWindow? <==> !Covers(row, bi)
  {
    if !Covers(row, bi) then OutOfWindow
    else if row[bi] == ' ' || row[bi + 1] == ' ' || row[bi + 2] == ' ' then Padded
    else if row[bi] == '-' || row[bi + 1] == '-' || row[bi + 2] == '-' then Gapped
    else if row[bi..bi + 3] !in table then Unrecognised
    else Valid(row[bi..bi + 3])
  }

  /** A row counts toward coverage when it reaches the codon without a pad,
      whether or not its triplet is gapped or recognised. */
  predicate CountsTowardCoverage(t: Triplet)
  {
    t.Gapped? || t.Unrecognised? || t.Valid?
  }

  /** The valid triplets the rows contribute, with multiplicity. */
  function ValidCodons(rows: seq<string>, bi: int, table: Table): multiset<string>
  {
    if rows == [] then multiset{}
    else
      var t := ReadTriplet(rows[|rows| - 1], bi, table);
      ValidCodons(rows[..|rows| - 1], bi, table) + (if t.Valid? then multiset{t.codon} else multiset{})
  }

  /** The row reaches the codon: inside the row and no pad among the three bases. */
  predicate Reaches(row: string, bi: int)
  {
    Covers(row, bi) && row[bi] != ' ' && row[bi + 1] != ' ' && row[bi + 2] != ' '
  }

  /** The coverage of a locus: the rows that reach the codon. */
  function Coverage(rows: seq<string>, bi: int): nat
  {
    if rows == [] then 0
    else Coverage(rows[..|rows| - 1], bi) + (if Reaches(rows[|rows| - 1], bi) then 1 else 0)
  }

  /** The codon -> count map of a multiset of codons. */
  function Counts(m: multiset<string>): map<string, nat>
  {
    map c | c in m :: m[c]
  }

  /** The tally of a locus. */
  function Tally(rows: seq<string>, bi: int, table: Table): map<string, nat>
  {
    Counts(ValidCodons(rows, bi, table))
  }

  /** A row counts toward coverage iff it reaches the codon, whatever the
      table says: gapped and unrecognised triplets count too. */
  lemma CoverageCounts(row: string, bi: int, table: Table)
    ensures CountsTowardCoverage(ReadTriplet(row, bi, table)) <==> Reaches(row, bi)
  {
  }

  /** A codon is in the tally iff some row yields it as a valid triplet. */
  lemma {:induction false} ValidCodonsMembers(rows: seq<string>, bi: int, table: Table, c: string)
    ensures c in ValidCodons(rows, bi, table)
        <==> exists j :: 0 <= j < |rows| && ReadTriplet(rows[j], bi, table) == Valid(c)
  {
    if rows != [] {
      var init := rows[..|rows| - 1];
      ValidCodonsMembers(init, bi, table, c);
      assert forall j :: 0 <= j < |init| ==> init[j] == rows[j];
    }
  }

  /** Every valid triplet adds one to coverage, and gapped or unrecognised
      ones add to coverage only: the sum of the tally's counts (the size of
      the multiset) never exceeds coverage. */
  lemma {:induction false} TallyWithinCoverage(rows: seq<string>, bi: int, table: Table)
    ensures |ValidCodons(rows, bi, table)| <= Coverage(rows, bi)
  {
    if rows != [] {
      TallyWithinCoverage(rows[..|rows| - 1], bi, table);
    }
  }

  /** Each codon's count lies between 1 and the coverage. */
  lemma {:induction false} CountWithinCoverage(rows: seq<string>, bi: int, table: Table, c: string)
    ensures ValidCodons(rows, bi, table)[c] <= Coverage(rows, bi)
  {
    if rows != [] {
      CountWithinCoverage(rows[..|rows| - 1], bi, table, c);
    }
  }

  /** Properties of the tally: its keys are recognised triplets read from some
      row, and each count is positive and at most the coverage. */
  lemma TallyFacts(rows: seq<string>, bi: int, table: Table)
    ensures forall c :: c in Tally(rows, bi, table) ==>
      c in table && |c| == 3 && 0 < Tally(rows, bi, table)[c] <= Coverage(rows, bi)
      && exists j :: 0 <= j < |rows| && ReadTriplet(rows[j], bi, table) == Valid(c)
  {
    forall c | c in Tally(rows, bi, table)
      ensures c in table && |c| == 3 && 0 < Tally(rows, bi, table)[c] <= Coverage(rows, bi)
      ensures exists j :: 0 <= j < |rows| && ReadTriplet(rows[j], bi, table) == Valid(c)
    {
      ValidCodonsMembers(rows, bi, table, c);
      CountWithinCoverage(rows, bi, table, c);
    }
  }

  /** Adding one codon to a multiset bumps its count by one and nothing else. */
  lemma CountsAdd(m: multiset<string>, c: string)
    ensures Counts(m + multiset{c}) == Counts(m)[c := (if c in Counts(m) then Counts(m)[c] else 0) + 1]
  {
    var l := Counts(m + multiset{c});
    var r := Counts(m)[c := (if c in Counts(m) then Counts(m)[c] else 0) + 1];
    assert l.Keys == r.Keys;
    forall d | d in l
      ensures l[d] == r[d]
    {
    }
  }

  // ---------------------------------------------------------------------
  // Scanning one locus
  // ---------------------------------------------------------------------

  /** Row k adds its valid triplet to the tally and, when it reaches the
      codon, one to the coverage. */
  lemma ScanRowStep(rows: seq<string>, bi: int, table: Table, k: nat)
    requires k < |rows|
    ensures var t := ReadTriplet(rows[k], bi, table);
      ValidCodons(rows[..k + 1], bi, table)
        == if t.Valid? then ValidCodons(rows[..k], bi, table) + multiset{t.codon} else ValidCodons(rows[..k], bi, table)
    ensures Coverage(rows[..k + 1], bi) == Coverage(rows[..k], bi) + (if Reaches(rows[k], bi) then 1 else 0)
  {
    assert rows[..k + 1][..k] == rows[..k];
  }

  /** Walks every row at the codon starting at window offset bi, counting
      coverage and tallying the recognised gap-free triplets. */
  method ScanLocus(rows: seq<string>, bi: int, table: Table) returns (codons: map<string, nat>, coverage: nat)
    ensures codons == Tally(rows, bi, table)
    ensures coverage == Coverage(rows, bi)
  {
    codons := map[];
    coverage := 0;
    var k := 0;
    assert ValidCodons(rows[..k], bi, table) == multiset{} && Coverage(rows[..k], bi) == 0;
    assert Counts(multiset{}) == map[];
    while k < |rows|
      invariant 0 <= k <= |rows|
      invariant codons == Counts(ValidCodons(rows[..k], bi, table))
      invariant coverage == Coverage(rows[..k], bi)
    {
      ScanRowStep(rows, bi, table, k);
      var row := rows[k];
      k := k + 1;
      // Read does not cover codon
      if bi + 2 >= |row| || bi < 0 {
        continue;
      }
      if row[bi] == ' ' || row[bi + 1] == ' ' || row[bi + 2] == ' ' {
        continue;
      }
      coverage := coverage + 1;
      // Read has a deletion
      if row[bi] == '-' || row[bi + 1] == '-' || row[bi + 2] == '-' {
        continue;
      }
      var codon := [row[bi], row[bi + 1], row[bi + 2]];
      assert codon == row[bi..bi + 3];
      // Codon is bogus
      if codon !in table {
        continue;
      }
      CountsAdd(ValidCodons(rows[..k - 1], bi, table), codon);
      codons := codons[codon := (if codon in codons then codons[codon] else 0) + 1];
    }
    assert rows[..k] == rows;
  }

  // ---------------------------------------------------------------------
  // Number of tests
  // ---------------------------------------------------------------------

  /** Number of distinct valid triplets at the codon starting at window offset bi. */
  function DistinctCodons(rows: seq<string>, bi: int, table: Table): nat
  {
    |Tally(rows, bi, table).Keys|
  }

  /** Tests contributed by the first k codon starts of a gene. */
  function GeneTests(rows: seq<string>, beginPos: int, table: Table, g: TargetGene, k: nat): nat
  {
    if k == 0 then 0
    else GeneTests(rows, beginPos, table, g, k - 1) + DistinctCodons(rows, LocusAt(g, k - 1) - beginPos, table)
  }

  /** The Bonferroni factor: over all genes and all their codon starts, the
      number of distinct valid triplets. */
  function NumberOfTests(rows: seq<string>, beginPos: int, table: Table, genes: seq<TargetGene>): nat
  {
    if genes == [] then 0
    else
      var g := genes[|genes| - 1];
      NumberOfTests(rows, beginPos, table, genes[..|genes| - 1]) + GeneTests(rows, beginPos, table, g, LocusCount(g))
  }

  /** The number of tests is additive over a split of the gene list. */
  lemma {:induction false} NumberOfTestsAppend(rows: seq<string>, beginPos: int, table: Table, gs: seq<TargetGene>, hs: seq<TargetGene>)
    ensures NumberOfTests(rows, beginPos, table, gs + hs)
         == NumberOfTests(rows, beginPos, table, gs) + NumberOfTests(rows, beginPos, table, hs)
  {
    if hs == [] {
      assert gs + hs == gs;
    } else {
      var init := hs[..|hs| - 1];
      assert (gs + hs)[..|gs + hs| - 1] == gs + init;
      NumberOfTestsAppend(rows, beginPos, table, gs, init);
    }
  }

  /** Adding genes, before or after, never lowers the number of tests. */
  lemma NumberOfTestsMonotone(rows: seq<string>, beginPos: int, table: Table, gs: seq<TargetGene>, hs: seq<TargetGene>)
    ensures NumberOfTests(rows, beginPos, table, gs) <= NumberOfTests(rows, beginPos, table, gs + hs)
    ensures NumberOfTests(rows, beginPos, table, hs) <= NumberOfTests(rows, beginPos, table, gs + hs)
  {
    NumberOfTestsAppend(rows, beginPos, table, gs, hs);
  }

  /** Before the scan of a gene: no tests counted. */
  lemma ScanStart(rows: seq<string>, beginPos: int, table: Table, g: TargetGene)
    ensures GeneTests(rows, beginPos, table, g, 0) == 0
  {
  }

  /** The k-th codon start adds the size of its tally. */
  lemma GeneTestsStep(rows: seq<string>, beginPos: int, table: Table, g: TargetGene, k: nat)
    ensures GeneTests(rows, beginPos, table, g, k + 1)
         == GeneTests(rows, beginPos, table, g, k) + |Tally(rows, LocusAt(g, k) - beginPos, table)|
  {
  }

  /** Counts the tests of one gene, scanning each of its codon starts. */
  method CountGeneTests(rows: seq<string>, beginPos: int, table: Table, gene: TargetGene)
    returns (tests: nat)
    ensures tests == GeneTests(rows, beginPos, table, gene, LocusCount(gene))
  {
    hide GeneTests, StartsBelow, LocusAt, LocusCount, Tally, DistinctCodons;
    tests := 0;
    var i := gene.begin;
    StartsBelowBegin(gene);
    ScanStart(rows, beginPos, table, gene);
    while i < gene.end - 2
      invariant gene.begin <= i
      invariant i == gene.begin || i <= gene.end - 2
      invariant StartsBelow(gene, i) <= LocusCount(gene)
      invariant tests == GeneTests(rows, beginPos, table, gene, StartsBelow(gene, i))
    {
      StartsBelowStep(gene, i);
      // Relative to gene begin
      var ri := i - gene.begin;
      if ri % 3 == 0 {
        // Relative to window begin
        var bi := i - beginPos;
        var codons, _ := ScanLocus(rows, bi, table);
        GeneTestsStep(rows, beginPos, table, gene, StartsBelow(gene, i));
        tests := tests + |codons|;
      }
      i := i + 1;
    }
    StartsBelowEnd(gene, i);
  }

  /** Counts the tests over all genes. */
  method CountNumberOfTests(rows: seq<string>, beginPos: int, table: Table, genes: seq<TargetGene>)
    returns (numberOfTests: nat)
    ensures numberOfTests == NumberOfTests(rows, beginPos, table, genes)
  {
    numberOfTests := 0;
    for n := 0 to |genes|
      invariant numberOfTests == NumberOfTests(rows, beginPos, table, genes[..n])
    {
      assert genes[..n + 1][..n] == genes[..n];
      var tests := CountGeneTests(rows, beginPos, table, genes[n]);
      numberOfTests := numberOfTests + tests;
    }
    assert genes[..|genes|] == genes;
  }
}
