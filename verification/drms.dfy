/** The known-DRM label of a call: the names of the drug-resistance
    mutations of the call's gene that involve the call's codon position. */
module Drms {
  import opened Types

  /** Appends one name to a label, with " + " between it and a non-empty label. */
  function AppendName(acc: string, name: string): string
  {
    if acc == [] then name else acc + " + " + name
  }

  /** The label the loop builds from the names, left to right. */
  function Summary(names: seq<string>): string
  {
    if names == [] then [] else AppendName(Summary(names[..|names| - 1]), names[|names| - 1])
  }

  /** The names joined by " + ", defined from the front. */
  function Joined(names: seq<string>): string
  {
    if names == [] then []
    else if |names| == 1 then names[0]
    else names[0] + " + " + Joined(names[1..])
  }

  lemma {:induction false} JoinedSnoc(names: seq<string>, name: string)
    requires names != []
    ensures Joined(names + [name]) == Joined(names) + " + " + name
  {
    if |names| > 1 {
      assert (names + [name])[1..] == names[1..] + [name];
      JoinedSnoc(names[1..], name);
    }
  }

  /** A label is empty iff every name appended to it is empty. */
  lemma {:induction false} SummaryEmpty(names: seq<string>)
    ensures Summary(names) == [] <==> forall j :: 0 <= j < |names| ==> names[j] == []
  {
    if names != [] {
      var init := names[..|names| - 1];
      SummaryEmpty(init);
      assert forall j :: 0 <= j < |init| ==> init[j] == names[j];
    }
  }

  /** With non-empty names the label is the names joined by " + ". */
  lemma {:induction false} SummaryIsJoined(names: seq<string>)
    requires forall j :: 0 <= j < |names| ==> names[j] != []
    ensures Summary(names) == Joined(names)
  {
    if |names| > 1 {
      var init := names[..|names| - 1];
      SummaryIsJoined(init);
      SummaryEmpty(init);
      JoinedSnoc(init, names[|names| - 1]);
      assert init + [names[|names| - 1]] == names;
    }
  }

  /** Names, in list order, of the DRMs that involve the position. */
  function MatchingNames(drms: seq<Drm>, position: int): (names: seq<string>)
    ensures |names| <= |drms|
  {
    if drms == [] then []
    else
      var last := drms[|drms| - 1];
      MatchingNames(drms[..|drms| - 1], position) + (if position in last.positions then [last.name] else [])
  }

  /** The names are those of the matching DRMs, each in its list position. */
  lemma {:induction false} MatchingNamesMembers(drms: seq<Drm>, position: int, name: string)
    ensures name in MatchingNames(drms, position)
        <==> exists j :: 0 <= j < |drms| && drms[j].name == name && position in drms[j].positions
  {
    if drms != [] {
      var init := drms[..|drms| - 1];
      MatchingNamesMembers(init, position, name);
      assert forall j :: 0 <= j < |init| ==> init[j] == drms[j];
    }
  }

  /** Index of the first gene with the given name. */
  function FirstNamed(genes: seq<TargetGene>, name: string): (r: Option<nat>)
    ensures r.Some? ==> r.value < |genes| && genes[r.value].name == name
                        && forall j :: 0 <= j < r.value ==> genes[j].name != name
    ensures r.None? ==> forall j :: 0 <= j < |genes| ==> genes[j].name != name
  {
    if genes == [] then None
    else if genes[0].name == name then Some(0)
    else match FirstNamed(genes[1..], name)
      case None => None
      case Some(j) => Some(j + 1)
  }

  /** The label of a call at a codon position of the named gene. */
  function DrmLabel(genes: seq<TargetGene>, geneName: string, position: int): string
  {
    match FirstNamed(genes, geneName)
    case None => []
    case Some(g) => Summary(MatchingNames(genes[g].drms, position))
  }

  /** Builds the label: finds the first gene with the name, then appends the
      names of its DRMs that involve the position. */
  method FindDRMs(geneName: string, genes: seq<TargetGene>, position: int) returns (drmSummary: string)
    ensures drmSummary == DrmLabel(genes, geneName, position)
  {
    drmSummary := [];
    var n := 0;
    while n < |genes|
      invariant 0 <= n <= |genes|
      invariant forall j :: 0 <= j < n ==> genes[j].name != geneName
      invariant drmSummary == []
    {
      var gene := genes[n];
      if geneName == gene.name {
        assert FirstNamed(genes, geneName) == Some(n);
        for d := 0 to |gene.drms|
          invariant drmSummary == Summary(MatchingNames(gene.drms[..d], position))
        {
          assert gene.drms[..d + 1][..d] == gene.drms[..d];
          var drm := gene.drms[d];
          ghost var names := MatchingNames(gene.drms[..d], position);
          if position in drm.positions {
            assert (names + [drm.name])[..|names|] == names;
            if drmSummary != [] {
              drmSummary := drmSummary + " + ";
            }
            drmSummary := drmSummary + drm.name;
            assert drmSummary == AppendName(Summary(names), drm.name);
            assert drmSummary == Summary(names + [drm.name]);
          } else {
            assert names + [] == names;
          }
          assert gene.drms[..d + 1][d] == drm;
        }
        assert gene.drms[..|gene.drms|] == gene.drms;
        return;
      }
      n := n + 1;
    }
  }

  /** No gene of that name, or no DRM of it at the position: the label is empty. */
  lemma DrmLabelEmpty(genes: seq<TargetGene>, geneName: string, position: int)
    ensures (forall j :: 0 <= j < |genes| ==> genes[j].name != geneName) ==> DrmLabel(genes, geneName, position) == []
    ensures forall g :: 0 <= g < |genes| && genes[g].name == geneName
                        && (forall d :: 0 <= d < |genes[g].drms| ==> position !in genes[g].drms[d].positions)
                        && (forall j :: 0 <= j < g ==> genes[j].name != geneName)
                        ==> DrmLabel(genes, geneName, position) == []
  {
    forall g | 0 <= g < |genes| && genes[g].name == geneName
               && (forall d :: 0 <= d < |genes[g].drms| ==> position !in genes[g].drms[d].positions)
               && (forall j :: 0 <= j < g ==> genes[j].name != geneName)
      ensures DrmLabel(genes, geneName, position) == []
    {
      var names := MatchingNames(genes[g].drms, position);
      if names != [] {
        MatchingNamesMembers(genes[g].drms, position, names[0]);
      }
    }
  }

  /** Genes after the first one with the name do not change the label. */
  lemma {:induction false} DrmLabelIgnoresLater(genes: seq<TargetGene>, more: seq<TargetGene>, geneName: string, position: int)
    requires exists j :: 0 <= j < |genes| && genes[j].name == geneName
    ensures DrmLabel(genes + more, geneName, position) == DrmLabel(genes, geneName, position)
  {
    var all := genes + more;
    var g := FirstNamed(genes, geneName).value;
    assert all[g] == genes[g];
    assert forall j :: 0 <= j < g ==> all[j] == genes[j];
    var h := FirstNamed(all, geneName);
    assert h == Some(g);
  }
}
