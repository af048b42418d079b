/** Group expansion: at most two incomplete groups are searched again for their missing members. */
module RecallExpand {
  import opened Prelude
  import opened Hits
  import opened Groups
  import opened Ranking
  import opened RecallSearch

  datatype GroupInfo = GroupInfo(gid: string, total: int, present: nat, best: real)

  function BestOf(g: GroupInfo): real { g.best }

  /** phase_total of the first hit of the group. */
  function TotalOf(hits: seq<Hit>): int {
    if |hits| > 0 && hits[0].phaseTotal.Some? then hits[0].phaseTotal.value else 0
  }

  function InfoOf(results: seq<Hit>, gid: string): GroupInfo {
    var hits := OfGroup(results, gid);
    GroupInfo(gid, TotalOf(hits), |hits|, BestScore(hits))
  }

  predicate Incomplete(results: seq<Hit>, gid: string) {
    gid in Gids(results) && InfoOf(results, gid).total > InfoOf(results, gid).present
  }

  function GidOf(g: GroupInfo): string { g.gid }

  ghost predicate DistinctGids(infos: seq<GroupInfo>) {
    DistinctBy(infos, GidOf)
  }

  /** The groups to search again: at most two incomplete ones, and none left out scores higher. */
  ghost predicate IsChoice(results: seq<Hit>, chosen: seq<GroupInfo>) {
    && |chosen| <= 2 && DistinctGids(chosen)
    && (forall c | c in chosen :: c == InfoOf(results, c.gid) && Incomplete(results, c.gid))
    && (forall gid | Incomplete(results, gid) && InfoOf(results, gid) !in chosen ::
          |chosen| == 2 && forall c | c in chosen :: c.best >= InfoOf(results, gid).best)
  }

  ghost predicate IsTally(groups: map<string, GroupInfo>, results: seq<Hit>) {
    groups.Keys == Gids(results) && forall gid | gid in groups :: groups[gid] == InfoOf(results, gid)
  }

  method GroupInfos(results: seq<Hit>) returns (groups: map<string, GroupInfo>)
    ensures IsTally(groups, results)
  {
    groups := map[];
    for i := 0 to |results|
      invariant IsTally(groups, results[..i])
    {
      assert results[..i + 1] == results[..i] + [results[i]];
      groups := Tally(groups, results[i], results[..i]);
    }
    assert results[..|results|] == results;
  }

  /** The entry of the hit's own group after counting the hit. */
  function Counted(groups: map<string, GroupInfo>, gid: string, h: Hit): GroupInfo {
    var g := if gid in groups then groups[gid]
             else GroupInfo(gid, if h.phaseTotal.Some? then h.phaseTotal.value else 0, 0, 0.0);
    GroupInfo(gid, g.total, g.present + 1, if h.score > g.best then h.score else g.best)
  }

  lemma CountedIsInfo(groups: map<string, GroupInfo>, h: Hit, before: seq<Hit>)
    requires IsTally(groups, before) && h.groupId.Some?
    ensures Counted(groups, h.groupId.value, h) == InfoOf(before + [h], h.groupId.value)
  {
    InfoAppend(before, h, h.groupId.value);
    GroupMembers(before, h.groupId.value);
  }

  lemma TallyStep(groups: map<string, GroupInfo>, h: Hit, before: seq<Hit>)
    requires IsTally(groups, before)
    ensures IsTally(if h.groupId.None? then groups else groups[h.groupId.value := Counted(groups, h.groupId.value, h)], before + [h])
  {
    var after := before + [h];
    var groups' := if h.groupId.None? then groups else groups[h.groupId.value := Counted(groups, h.groupId.value, h)];
    GroupsAppend(before, h, "");
    assert groups'.Keys == Gids(after);
    forall gid | gid in groups' ensures groups'[gid] == InfoOf(after, gid) {
      if InGroup(h, gid) {
        CountedIsInfo(groups, h, before);
      } else {
        assert gid in groups && groups'[gid] == groups[gid];
        InfoAppend(before, h, gid);
      }
    }
  }

  method Tally(groups: map<string, GroupInfo>, h: Hit, ghost before: seq<Hit>) returns (groups': map<string, GroupInfo>)
    requires IsTally(groups, before)
    ensures IsTally(groups', before + [h])
  {
    TallyStep(groups, h, before);
    if h.groupId.None? {
      return groups;
    }
    groups' := groups[h.groupId.value := Counted(groups, h.groupId.value, h)];
  }

  lemma InfoAppend(before: seq<Hit>, h: Hit, gid: string)
    ensures InfoOf(before + [h], gid) ==
      if !InGroup(h, gid) then InfoOf(before, gid)
      else GroupInfo(gid, if gid in Gids(before) then InfoOf(before, gid).total else TotalOf([h]),
                     InfoOf(before, gid).present + 1,
                     if h.score > InfoOf(before, gid).best then h.score else InfoOf(before, gid).best)
  {
    GroupsAppend(before, h, gid);
    GroupMembers(before, gid);
    BestAppend(OfGroup(before, gid), h);
    var hits := OfGroup(before, gid);
    if InGroup(h, gid) {
      assert OfGroup(before + [h], gid) == hits + [h];
    } else {
      assert OfGroup(before + [h], gid) == hits;
    }
  }

  ghost predicate AreIncomplete(results: seq<Hit>, infos: seq<GroupInfo>, among: set<string>) {
    && DistinctGids(infos)
    && (forall g | g in infos :: g.gid in among && g == InfoOf(results, g.gid) && Incomplete(results, g.gid))
    && (forall gid | gid in among && Incomplete(results, gid) :: InfoOf(results, gid) in infos)
  }

  lemma OneMoreGroup(results: seq<Hit>, infos: seq<GroupInfo>, among: set<string>, gid: string)
    requires AreIncomplete(results, infos, among) && gid !in among
    ensures AreIncomplete(results, if Incomplete(results, gid) then infos + [InfoOf(results, gid)] else infos, among + {gid})
  {
    if Incomplete(results, gid) {
      AddGroup(infos, InfoOf(results, gid));
    }
  }

  lemma AddGroup(infos: seq<GroupInfo>, g: GroupInfo)
    requires DistinctGids(infos) && forall x | x in infos :: x.gid != g.gid
    ensures DistinctGids(infos + [g])
    ensures forall x :: x in infos + [g] <==> x in infos || x == g
  {
    assert forall k | 0 <= k < |infos| :: infos[k] in infos;
  }

  /** The map is walked in an arbitrary order. */
  method CollectIncomplete(results: seq<Hit>, groups: map<string, GroupInfo>) returns (incomplete: seq<GroupInfo>)
    requires IsTally(groups, results)
    ensures AreIncomplete(results, incomplete, Gids(results))
  {
    incomplete := [];
    var remaining := groups.Keys;
    while remaining != {}
      invariant remaining <= groups.Keys
      invariant AreIncomplete(results, incomplete, groups.Keys - remaining)
      decreases remaining
    {
      var gid :| gid in remaining;
      OneMoreGroup(results, incomplete, groups.Keys - remaining, gid);
      assert groups.Keys - (remaining - {gid}) == groups.Keys - remaining + {gid};
      remaining := remaining - {gid};
      var g := groups[gid];
      if g.total > g.present {
        incomplete := incomplete + [g];
      }
    }
    assert groups.Keys - {} == Gids(results);
  }

  // ------------------------------------------------- which groups that is, told from the hits

  /** The first hit of the group says there are n members, and fewer are here. */
  ghost predicate MissesMembers(results: seq<Hit>, gid: string, n: int) {
    && (exists i: nat :: IsFirstOf(results, gid, i) && results[i].phaseTotal == Some(n))
    && n > |PlacesOf(results, gid)|
  }

  lemma IncompleteMisses(results: seq<Hit>, gid: string)
    requires Incomplete(results, gid)
    ensures MissesMembers(results, gid, InfoOf(results, gid).total)
  {
    var i := HasFirst(results, gid);
    OfGroupStarts(results, gid, i);
    OfGroupCounts(results, gid);
  }

  lemma MissesIsIncomplete(results: seq<Hit>, gid: string, n: int)
    requires MissesMembers(results, gid, n)
    ensures Incomplete(results, gid) && InfoOf(results, gid).total == n
  {
    var i: nat :| IsFirstOf(results, gid, i) && results[i].phaseTotal == Some(n);
    OfGroupStarts(results, gid, i);
    OfGroupCounts(results, gid);
    GroupMembers(results, gid);
  }

  /** Each positive score in the one group is reached by some score in the other. */
  ghost predicate ScoresNoLower(results: seq<Hit>, other: string, gid: string) {
    forall h | h in results && h.groupId == Some(gid) && h.score > 0.0 ::
      exists g :: g in results && g.groupId == Some(other) && g.score >= h.score
  }

  lemma BestIsReached(results: seq<Hit>, other: string, gid: string)
    requires InfoOf(results, other).best >= InfoOf(results, gid).best
    ensures ScoresNoLower(results, other, gid)
  {
    GroupMembers(results, gid);
    GroupMembers(results, other);
    forall h | h in results && h.groupId == Some(gid) && h.score > 0.0
      ensures exists g :: g in results && g.groupId == Some(other) && g.score >= h.score
    {
      assert h in OfGroup(results, gid);
      var g :| g in OfGroup(results, other) && g.score == BestScore(OfGroup(results, other));
      assert g.score >= h.score;
    }
  }

  ghost predicate IsSearched(chosen: seq<GroupInfo>, gid: string, n: int) {
    exists c :: c in chosen && c.gid == gid && c.total == n
  }

  /** Only groups that miss members are searched again, and one that is not has two others that score no lower. */
  ghost predicate SearchesTheMissing(results: seq<Hit>, chosen: seq<GroupInfo>) {
    && |chosen| <= 2
    && (forall k, l | 0 <= k < l < |chosen| :: chosen[k].gid != chosen[l].gid)
    && (forall c | c in chosen :: MissesMembers(results, c.gid, c.total))
    && (forall gid, n | MissesMembers(results, gid, n) :: IsSearched(chosen, gid, n) || Outscored(results, chosen, gid))
  }

  ghost predicate Outscored(results: seq<Hit>, chosen: seq<GroupInfo>, gid: string) {
    |chosen| == 2 && forall c | c in chosen :: c.gid != gid && ScoresNoLower(results, c.gid, gid)
  }

  lemma LeftOutIsOutscored(results: seq<Hit>, chosen: seq<GroupInfo>, gid: string, n: int)
    requires IsChoice(results, chosen) && MissesMembers(results, gid, n)
    ensures IsSearched(chosen, gid, n) || Outscored(results, chosen, gid)
  {
    MissesIsIncomplete(results, gid, n);
    if InfoOf(results, gid) !in chosen {
      forall c | c in chosen ensures c.gid != gid && ScoresNoLower(results, c.gid, gid) {
        BestIsReached(results, c.gid, gid);
      }
    }
  }

  lemma ChoiceSearchesTheMissing(results: seq<Hit>, chosen: seq<GroupInfo>)
    requires IsChoice(results, chosen)
    ensures SearchesTheMissing(results, chosen)
  {
    forall k, l | 0 <= k < l < |chosen| ensures chosen[k].gid != chosen[l].gid {
      assert GidOf(chosen[k]) != GidOf(chosen[l]);
    }
    forall c | c in chosen ensures MissesMembers(results, c.gid, c.total) {
      IncompleteMisses(results, c.gid);
    }
    forall gid, n | MissesMembers(results, gid, n) ensures IsSearched(chosen, gid, n) || Outscored(results, chosen, gid) {
      LeftOutIsOutscored(results, chosen, gid, n);
    }
  }

  /** The sort need not be stable: the order it starts from is arbitrary. */
  method PickIncomplete(results: seq<Hit>, groups: map<string, GroupInfo>) returns (chosen: seq<GroupInfo>)
    requires IsTally(groups, results)
    ensures IsChoice(results, chosen) && Descending(chosen, BestOf)
    ensures SearchesTheMissing(results, chosen)
  {
    var incomplete := CollectIncomplete(results, groups);
    var sorted := StableSort(incomplete, BestOf);
    StableSortSorts(incomplete, BestOf);
    RearrangedDistinct(incomplete, sorted, GidOf);
    forall g: GroupInfo ensures g in sorted <==> g in incomplete {
      RearrangedMembers(incomplete, sorted, g);
    }
    TakeIsChoice(results, sorted);
    chosen := Take(sorted, 2);
    ChoiceSearchesTheMissing(results, chosen);
  }

  lemma LeftOutIsWorse(sorted: seq<GroupInfo>, g: GroupInfo)
    requires Descending(sorted, BestOf) && g in sorted && g !in Take(sorted, 2)
    ensures |Take(sorted, 2)| == 2 && Take(sorted, 2)[0].best >= g.best && Take(sorted, 2)[1].best >= g.best
  {
    assert forall k | 0 <= k < 2 && k < |sorted| :: Take(sorted, 2)[k] == sorted[k] && Take(sorted, 2)[k] in Take(sorted, 2);
    var k :| 0 <= k < |sorted| && sorted[k] == g;
    assert BestOf(sorted[0]) >= BestOf(sorted[k]) && BestOf(sorted[1]) >= BestOf(sorted[k]);
  }

  lemma TakeMembers(sorted: seq<GroupInfo>, n: nat)
    requires DistinctGids(sorted) && Descending(sorted, BestOf)
    ensures forall c | c in Take(sorted, n) :: c in sorted
    ensures DistinctGids(Take(sorted, n)) && Descending(Take(sorted, n), BestOf)
  {
    var taken := Take(sorted, n);
    assert forall k | 0 <= k < |taken| :: taken[k] == sorted[k];
  }

  lemma TakeIsChoice(results: seq<Hit>, sorted: seq<GroupInfo>)
    requires AreIncomplete(results, sorted, Gids(results)) && Descending(sorted, BestOf)
    ensures IsChoice(results, Take(sorted, 2)) && Descending(Take(sorted, 2), BestOf)
  {
    var taken := Take(sorted, 2);
    TakeMembers(sorted, 2);
    forall gid | Incomplete(results, gid) && InfoOf(results, gid) !in taken
      ensures |taken| == 2 && forall c | c in taken :: c.best >= InfoOf(results, gid).best
    {
      LeftOutIsWorse(sorted, InfoOf(results, gid));
      assert taken == [taken[0], taken[1]];
    }
  }

  /** Appends the new members of one group that its search found. */
  function AddMembers(results: seq<Hit>, gid: string, hits: seq<Hit>): seq<Hit> {
    if |hits| == 0 then results
    else
      var before, h := AddMembers(results, gid, hits[..|hits| - 1]), hits[|hits| - 1];
      if h.recordId !in Ids(before) && InGroup(h, gid) then before + [h] else before
  }

  function AddAnswer(results: seq<Hit>, gid: string, answer: Answer): seq<Hit> {
    if answer.Found? then AddMembers(results, gid, answer.hits) else results
  }

  /** search(gid, total) is what embedding and searching for the group's name comes to. */
  function AddAll(results: seq<Hit>, chosen: seq<GroupInfo>, search: (string, int) -> Answer): seq<Hit> {
    if |chosen| == 0 then results
    else
      var g := chosen[|chosen| - 1];
      AddAnswer(AddAll(results, chosen[..|chosen| - 1], search), g.gid, search(g.gid, g.total))
  }

  /** Appends to results the members of one group that are not there yet. */
  method AddFound(results: seq<Hit>, seen: set<string>, gid: string, hits: seq<Hit>) returns (expanded: seq<Hit>, seen': set<string>)
    requires seen == Ids(results)
    ensures expanded == AddMembers(results, gid, hits) && seen' == Ids(expanded)
  {
    expanded, seen' := results, seen;
    for k := 0 to |hits|
      invariant expanded == AddMembers(results, gid, hits[..k]) && seen' == Ids(expanded)
    {
      var h := hits[k];
      assert hits[..k + 1][..k] == hits[..k];
      if h.recordId !in seen' && InGroup(h, gid) {
        IdsAppend(expanded, h);
        seen' := seen' + {h.recordId};
        expanded := expanded + [h];
      }
    }
    assert hits[..|hits|] == hits;
  }

  lemma AddAllStep(results: seq<Hit>, chosen: seq<GroupInfo>, search: (string, int) -> Answer, i: nat)
    requires i < |chosen|
    ensures AddAll(results, chosen[..i + 1], search) ==
      AddAnswer(AddAll(results, chosen[..i], search), chosen[i].gid, search(chosen[i].gid, chosen[i].total))
  {
    assert chosen[..i + 1][..i] == chosen[..i];
  }

  /** Searches each of these groups again. */
  method ExpandEach(results: seq<Hit>, incomplete: seq<GroupInfo>, search: (string, int) -> Answer) returns (expanded: seq<Hit>)
    ensures expanded == AddAll(results, incomplete, search)
  {
    var seen := Ids(results);
    expanded := results;
    for i := 0 to |incomplete|
      invariant expanded == AddAll(results, incomplete[..i], search) && seen == Ids(expanded)
    {
      AddAllStep(results, incomplete, search, i);
      var answer := search(incomplete[i].gid, incomplete[i].total);
      if answer.Found? {
        expanded, seen := AddFound(expanded, seen, incomplete[i].gid, answer.hits);
      }
    }
    assert incomplete[..|incomplete|] == incomplete;
  }

  /** What searching for a group of n members finds of it. */
  function FoundFor(search: (string, int) -> Answer, gid: string, n: int): set<Hit> {
    var answer := search(gid, n);
    if answer.Found? then set h | h in answer.hits && h.groupId == Some(gid) else {}
  }

  /** Every record found for a chosen group is there. */
  ghost predicate HasAllFound(expanded: seq<Hit>, chosen: seq<GroupInfo>, search: (string, int) -> Answer) {
    forall c, h | c in chosen && h in FoundFor(search, c.gid, c.total) :: h.recordId in Ids(expanded)
  }

  /** Everything past the results was found by the search for a chosen group. */
  ghost predicate AddedByChosen(results: seq<Hit>, expanded: seq<Hit>, chosen: seq<GroupInfo>, search: (string, int) -> Answer) {
    forall i | |results| <= i < |expanded| :: exists c :: c in chosen && expanded[i] in FoundFor(search, c.gid, c.total)
  }

  /**
   * A group whose first hit announces more members than are here gets every
   * member its search finds, unless two other such groups that score no lower
   * were searched; a group that is whole is never searched.
   */
  method ExpandPhaseChains(results: seq<Hit>, search: (string, int) -> Answer)
    returns (expanded: seq<Hit>, ghost chosen: seq<GroupInfo>)
    ensures IsChoice(results, chosen) && Descending(chosen, BestOf)
    ensures expanded == AddAll(results, chosen, search)
    ensures results <= expanded && (DistinctIds(results) ==> DistinctIds(expanded))
    ensures SearchesTheMissing(results, chosen)
    ensures HasAllFound(expanded, chosen, search) && AddedByChosen(results, expanded, chosen, search)
  {
    var groups := GroupInfos(results);
    var incomplete := PickIncomplete(results, groups);
    chosen := incomplete;
    expanded := ExpandEach(results, incomplete, search);
    ExpansionKeeps(results, incomplete, search);
    ExpansionAdds(results, incomplete, search);
    forall c, h | c in chosen && h in FoundFor(search, c.gid, c.total) ensures h.recordId in Ids(expanded) {
      assert search(c.gid, c.total).Found? && h in search(c.gid, c.total).hits && InGroup(h, c.gid);
    }
  }

  // ----------------------------------------------------------- what expansion keeps

  lemma {:induction false} AddMembersAdds(results: seq<Hit>, gid: string, hits: seq<Hit>)
    ensures results <= AddMembers(results, gid, hits)
    ensures forall i | |results| <= i < |AddMembers(results, gid, hits)| ::
      AddMembers(results, gid, hits)[i] in hits && AddMembers(results, gid, hits)[i].groupId == Some(gid)
  {
    if |hits| > 0 {
      AddMembersAdds(results, gid, hits[..|hits| - 1]);
    }
  }

  lemma {:induction false} ExpansionAdds(results: seq<Hit>, chosen: seq<GroupInfo>, search: (string, int) -> Answer)
    ensures results <= AddAll(results, chosen, search)
    ensures AddedByChosen(results, AddAll(results, chosen, search), chosen, search)
  {
    if |chosen| > 0 {
      var n := |chosen| - 1;
      var g, before, after := chosen[n], AddAll(results, chosen[..n], search), AddAll(results, chosen, search);
      ExpansionAdds(results, chosen[..n], search);
      if search(g.gid, g.total).Found? {
        AddMembersAdds(before, g.gid, search(g.gid, g.total).hits);
      }
      forall i | |results| <= i < |after|
        ensures exists c :: c in chosen && after[i] in FoundFor(search, c.gid, c.total)
      {
        if i < |before| {
          var c :| c in chosen[..n] && before[i] in FoundFor(search, c.gid, c.total);
          assert c in chosen && after[i] == before[i];
        } else {
          assert g in chosen && after[i] in FoundFor(search, g.gid, g.total);
        }
      }
    }
  }

  ghost predicate OnlyFrom(results: seq<Hit>, expanded: seq<Hit>, gids: set<string>) {
    && results <= expanded
    && forall i | |results| <= i < |expanded| :: expanded[i].groupId.Some? && expanded[i].groupId.value in gids
  }

  lemma {:induction false} AddMembersKeeps(results: seq<Hit>, gid: string, hits: seq<Hit>)
    ensures OnlyFrom(results, AddMembers(results, gid, hits), {gid})
    ensures DistinctIds(results) ==> DistinctIds(AddMembers(results, gid, hits))
    ensures forall h | h in hits && InGroup(h, gid) :: h.recordId in Ids(AddMembers(results, gid, hits))
  {
    if |hits| > 0 {
      var n := |hits| - 1;
      AddMembersKeeps(results, gid, hits[..n]);
      var before := AddMembers(results, gid, hits[..n]);
      IdsAppend(before, hits[n]);
      if hits[n].recordId !in Ids(before) {
        NewIdIsDistinct(before, hits[n]);
      }
      assert hits == hits[..n] + [hits[n]];
    }
  }

  lemma NewIdIsDistinct(before: seq<Hit>, h: Hit)
    requires h.recordId !in Ids(before)
    ensures DistinctIds(before) ==> DistinctIds(before + [h])
  {
    forall k | 0 <= k < |before| ensures IdOf(before[k]) != IdOf(h) {
      assert before[k] in before;
    }
  }

  /**
   * The results stay a prefix, only members of the chosen groups are added,
   * every member an answer found ends up present, and record IDs stay distinct.
   */
  lemma {:induction false} ExpansionKeeps(results: seq<Hit>, chosen: seq<GroupInfo>, search: (string, int) -> Answer)
    ensures OnlyFrom(results, AddAll(results, chosen, search), set c | c in chosen :: c.gid)
    ensures DistinctIds(results) ==> DistinctIds(AddAll(results, chosen, search))
    ensures forall c, h | c in chosen && search(c.gid, c.total).Found? && h in search(c.gid, c.total).hits && InGroup(h, c.gid) ::
      h.recordId in Ids(AddAll(results, chosen, search))
  {
    if |chosen| > 0 {
      var n := |chosen| - 1;
      var g, before := chosen[n], AddAll(results, chosen[..n], search);
      ExpansionKeeps(results, chosen[..n], search);
      assert chosen == chosen[..n] + [g];
      var after := AddAll(results, chosen, search);
      if search(g.gid, g.total).Found? {
        AddMembersKeeps(before, g.gid, search(g.gid, g.total).hits);
      }
      assert before <= after;
      assert Ids(before) <= Ids(after) by {
        assert forall h | h in before :: h in after;
      }
    }
  }
}
