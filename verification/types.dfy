/** Value types shared by the amino-acid caller: the target configuration,
    the error model and the variant records the caller produces. */
module Types {

  datatype Option<+T> = None | Some(value: T)

  /** Translation table from a nucleotide triplet to its one-letter amino acid. */
  type Table = map<string, char>

  /** Every key of the translation table is a triplet. */
  predicate WellFormedTable(table: Table)
  {
    forall k :: k in table ==> |k| == 3
  }

  /** Probabilities of a matching base, a substituted base and a deleted base. */
  datatype ErrorEstimates = ErrorEstimates(matchProb: real, substitution: real, deletion: real)

  /** An expected minor variant of a gene: codon position, amino acid and codon. */
  datatype Minor = Minor(position: int, aminoacid: string, codon: string)

  /** A drug-resistance mutation: its name and the codon positions it involves. */
  datatype Drm = Drm(name: string, positions: seq<int>)

  /** A gene of the target configuration, covering absolute positions [begin, end). */
  datatype TargetGene = TargetGene(name: string, begin: int, end: int, minors: seq<Minor>, drms: seq<Drm>)

  /** One accepted call at a locus. */
  datatype VariantCodon = VariantCodon(codon: string, frequency: real, pValue: real, knownDrm: string)

  /** The record kept for one codon position of a gene. `refAminoAcid` is None
      while the reference codon is not a key of the translation table;
      `msaContext` holds the relative offsets of the columns reported around
      the call site. */
  datatype VariantPosition = VariantPosition(
    refCodon: string,
    refAminoAcid: Option<char>,
    coverage: nat,
    aminoAcidToCodons: map<char, seq<VariantCodon>>,
    msaContext: seq<int>)

  /** The calls of one gene, keyed by relative codon index (1 for the first codon). */
  datatype VariantGene = VariantGene(geneName: string, positions: map<int, VariantPosition>)
}
