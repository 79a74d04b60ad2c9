/** A prune is complete: what is left over is left for a reason that still holds. */
module PruneClosure {
  import opened Wrappers
  import opened Trees
  import opened Worlds
  import opened Prune
  import opened PruneSafety

  // ----- sorting and filtering commute

  ghost predicate Ordered(ws: seq<World>) {
    forall i, j :: 0 <= i < j < |ws| ==> ws[i].finished <= ws[j].finished
  }

  lemma {:induction false} InsertOrdered(ws: seq<World>, w: World)
    requires Ordered(ws)
    ensures Ordered(Insert(ws, w))
  {
    if ws != [] && ws[|ws| - 1].finished > w.finished {
      var n := |ws| - 1;
      InsertOrdered(ws[..n], w);
      var before := Insert(ws[..n], w);
      forall x | x in before ensures x.finished <= ws[n].finished {
        if x != w {
          var i :| 0 <= i < n && ws[..n][i] == x;
          assert ws[i] == x;
        }
      }
    }
  }

  lemma {:induction false} SortedIsOrdered(ws: seq<World>)
    ensures Ordered(Sorted(ws))
  {
    if ws != [] {
      SortedIsOrdered(ws[..|ws| - 1]);
      InsertOrdered(Sorted(ws[..|ws| - 1]), ws[|ws| - 1]);
    }
  }

  lemma {:induction false} FilterConcat(a: seq<World>, b: seq<World>, f: World -> bool)
    ensures Filter(a + b, f) == Filter(a, f) + Filter(b, f)
  {
    if b == [] {
      assert a + b == a;
    } else {
      assert (a + b)[..|a + b| - 1] == a + b[..|b| - 1];
      FilterConcat(a, b[..|b| - 1], f);
    }
  }

  lemma FilterSnoc(ws: seq<World>, x: World, f: World -> bool)
    ensures Filter(ws + [x], f) == if f(x) then Filter(ws, f) + [x] else Filter(ws, f)
  {
    assert (ws + [x])[..|ws|] == ws;
  }

  lemma InsertSnoc(ws: seq<World>, x: World, w: World)
    ensures Insert(ws + [x], w) == if x.finished <= w.finished then ws + [x] + [w] else Insert(ws, w) + [x]
  {
    assert (ws + [x])[..|ws|] == ws;
  }

  lemma SortedSnoc(ws: seq<World>, x: World)
    ensures Sorted(ws + [x]) == Insert(Sorted(ws), x)
  {
    assert (ws + [x])[..|ws|] == ws;
  }

  lemma LastOff(ws: seq<World>)
    requires ws != []
    ensures ws == ws[..|ws| - 1] + [ws[|ws| - 1]]
  {
  }

  lemma FilterInsertLast(ws: seq<World>, w: World, f: World -> bool)
    requires Ordered(ws) && (ws == [] || ws[|ws| - 1].finished <= w.finished)
    ensures Filter(Insert(ws, w), f) == if f(w) then Insert(Filter(ws, f), w) else Filter(ws, f)
  {
    InsertLast(ws, w, ws);
    FilterSnoc(ws, w, f);
    InsertLast(Filter(ws, f), w, ws);
  }

  lemma FilterInsertStep(rest: seq<World>, x: World, w: World, f: World -> bool, all: seq<World>, there: seq<World>)
    requires x.finished > w.finished && all == rest + [x] && there == Insert(rest, w)
    requires Filter(there, f) == if f(w) then Insert(Filter(rest, f), w) else Filter(rest, f)
    ensures Filter(Insert(all, w), f) == if f(w) then Insert(Filter(all, f), w) else Filter(all, f)
  {
    InsertSnoc(rest, x, w);
    assert Insert(all, w) == there + [x];
    FilterSnoc(there, x, f);
    FilterSnoc(rest, x, f);
    InsertSnoc(Filter(rest, f), x, w);
  }

  lemma {:induction false} FilterInsert(ws: seq<World>, w: World, f: World -> bool)
    requires Ordered(ws)
    ensures Filter(Insert(ws, w), f) == if f(w) then Insert(Filter(ws, f), w) else Filter(ws, f)
  {
    if ws == [] || ws[|ws| - 1].finished <= w.finished {
      FilterInsertLast(ws, w, f);
    } else {
      var rest, x := ws[..|ws| - 1], ws[|ws| - 1];
      LastOff(ws);
      FilterInsert(rest, w, f);
      FilterInsertStep(rest, x, w, f, ws, Insert(rest, w));
    }
  }

  lemma InsertLast(some: seq<World>, w: World, ws: seq<World>)
    requires Ordered(ws) && (ws == [] || ws[|ws| - 1].finished <= w.finished)
    requires forall x :: x in some ==> x in ws
    ensures Insert(some, w) == some + [w]
  {
    if some != [] {
      assert some[|some| - 1] in some;
      var i :| 0 <= i < |ws| && ws[i] == some[|some| - 1];
    }
  }

  lemma {:induction false} FilterSorted(ws: seq<World>, f: World -> bool)
    ensures Filter(Sorted(ws), f) == Sorted(Filter(ws, f))
  {
    if ws != [] {
      LastOff(ws);
      FilterSorted(ws[..|ws| - 1], f);
      FilterSortedStep(ws[..|ws| - 1], ws[|ws| - 1], f, ws);
    }
  }

  lemma FilterSortedStep(rest: seq<World>, x: World, f: World -> bool, all: seq<World>)
    requires all == rest + [x] && Filter(Sorted(rest), f) == Sorted(Filter(rest, f))
    ensures Filter(Sorted(all), f) == Sorted(Filter(all, f))
  {
    SortedIsOrdered(rest);
    SortedSnoc(rest, x);
    FilterInsert(Sorted(rest), x, f);
    FilterSnoc(rest, x, f);
    SortedSnoc(Filter(rest, f), x);
  }

  lemma {:induction false} FilterAll(ws: seq<World>, f: World -> bool)
    requires forall w :: w in ws ==> f(w)
    ensures Filter(ws, f) == ws
  {
    if ws != [] {
      assert ws == ws[..|ws| - 1] + [ws[|ws| - 1]];
      FilterAll(ws[..|ws| - 1], f);
    }
  }

  lemma {:induction false} SortedDistinct(ws: seq<World>)
    requires DistinctIds(ws)
    ensures DistinctIds(Sorted(ws))
  {
    if ws != [] {
      var n := |ws| - 1;
      SortedDistinct(ws[..n]);
      forall x | x in Sorted(ws[..n]) ensures x.id != ws[n].id {
        var i :| 0 <= i < n && ws[..n][i] == x;
        assert ws[i] == x;
      }
      InsertDistinct(Sorted(ws[..n]), ws[n]);
    }
  }

  lemma {:induction false} InsertDistinct(ws: seq<World>, w: World)
    requires DistinctIds(ws) && forall x :: x in ws ==> x.id != w.id
    ensures DistinctIds(Insert(ws, w))
  {
    if ws != [] && ws[|ws| - 1].finished > w.finished {
      var n := |ws| - 1;
      assert forall x :: x in ws[..n] ==> x in ws;
      InsertDistinct(ws[..n], w);
      forall x | x in Insert(ws[..n], w) ensures x.id != ws[n].id {
        if x != w {
          var i :| 0 <= i < n && ws[..n][i] == x;
          assert ws[i] == x;
        } else {
          assert ws[n] in ws;
        }
      }
    }
  }

  lemma {:induction false} FilterDistinct(ws: seq<World>, f: World -> bool)
    requires DistinctIds(ws)
    ensures DistinctIds(Filter(ws, f))
  {
    if ws != [] {
      var n := |ws| - 1;
      FilterDistinct(ws[..n], f);
      forall x | x in Filter(ws[..n], f) ensures x.id != ws[n].id {
        var i :| 0 <= i < n && ws[..n][i] == x;
        assert ws[i] == x;
      }
    }
  }

  // ----- the candidates of a second plan

  function StillUnpruned(gone: set<string>): World -> bool {
    (w: World) => w.id !in gone
  }

  /** Marking worlds pruned takes exactly them from the eligible. */
  lemma {:induction false} EligibleAfter(facts: Facts, c: Criteria, worlds: seq<World>, after: seq<World>, gone: set<string>)
    requires |after| == |worlds|
    requires forall i :: 0 <= i < |worlds| ==>
               after[i] == if worlds[i].id in gone then worlds[i].(pruned := true) else worlds[i]
    ensures AllEligible(facts, c, after) == Filter(AllEligible(facts, c, worlds), StillUnpruned(gone))
  {
    if worlds != [] {
      var n := |worlds| - 1;
      EligibleAfter(facts, c, worlds[..n], after[..n], gone);
      var old_ := AllEligible(facts, c, worlds[..n]);
      var last := if Eligible(facts, c, worlds[n]) then [worlds[n]] else [];
      FilterConcat(old_, last, StillUnpruned(gone));
      assert AllEligible(facts, c, worlds) == old_ + last;
      FilterOne(worlds[n], gone);
    }
  }

  lemma FilterOne(w: World, gone: set<string>)
    ensures Filter([w], StillUnpruned(gone)) == if w.id in gone then [] else [w]
    ensures Filter([], StillUnpruned(gone)) == []
  {
    assert [w][..0] == [];
  }

  /** No kept world is among the chosen, so none of the kept is pruned. */
  lemma KeptAreNotGone(facts: Facts, c: Criteria, worlds: seq<World>, gone: set<string>, chosen: seq<World>, kept: seq<World>)
    requires DistinctIds(worlds) && Sorted(AllEligible(facts, c, worlds)) == chosen + kept && gone <= Ids(chosen)
    ensures forall w :: w in kept ==> w.id !in gone
  {
    FilterDistinct(worlds, (w: World) => Eligible(facts, c, w));
    SortedDistinct(AllEligible(facts, c, worlds));
    forall w | w in kept ensures w.id !in gone {
      var j :| 0 <= j < |kept| && kept[j] == w;
      assert (chosen + kept)[|chosen| + j] == w;
      forall x | x in chosen ensures x.id != w.id {
        var i :| 0 <= i < |chosen| && chosen[i] == x;
        assert (chosen + kept)[i] == x;
      }
    }
  }

  /** The second plan's candidates are those of the first that were not pruned: the kept stay kept. */
  lemma CandidatesAfter(facts: Facts, c: Criteria, worlds: seq<World>, after: seq<World>, gone: set<string>)
    requires DistinctIds(worlds) && |after| == |worlds|
    requires forall i :: 0 <= i < |worlds| ==>
               after[i] == if worlds[i].id in gone then worlds[i].(pruned := true) else worlds[i]
    requires gone <= Ids(Candidates(facts, c, worlds))
    ensures Candidates(facts, c, after) == Filter(Candidates(facts, c, worlds), StillUnpruned(gone))
  {
    var sorted := Sorted(AllEligible(facts, c, worlds));
    var chosen := AllButNewest(sorted, c.keep);
    var kept := sorted[|chosen|..];
    assert sorted == chosen + kept;
    EligibleAfter(facts, c, worlds, after, gone);
    FilterSorted(AllEligible(facts, c, worlds), StillUnpruned(gone));
    FilterConcat(chosen, kept, StillUnpruned(gone));
    KeptAreNotGone(facts, c, worlds, gone, chosen, kept);
    FilterAll(kept, StillUnpruned(gone));
    FilterShortens(chosen, StillUnpruned(gone));
    DropKept(sorted, chosen, Filter(chosen, StillUnpruned(gone)), kept, c.keep);
  }

  lemma {:induction false} FilterShortens(ws: seq<World>, f: World -> bool)
    ensures |Filter(ws, f)| <= |ws|
  {
    if ws != [] { FilterShortens(ws[..|ws| - 1], f); }
  }

  lemma DropKept(sorted: seq<World>, chosen: seq<World>, left: seq<World>, kept: seq<World>, keep: Option<int>)
    requires sorted == chosen + kept && chosen == AllButNewest(sorted, keep)
    requires |left| <= |chosen|
    ensures AllButNewest(left + kept, keep) == left
  {
    if chosen == [] {
      assert left + kept == sorted;
    } else if keep.Some? && keep.value > 0 {
      assert |kept| == keep.value;
      assert (left + kept)[..|left|] == left;
      if |left| == 0 { assert left == []; }
    } else {
      assert kept == [];
      assert left + kept == left;
    }
  }

  // ----- the second plan

  /** Without a failure, every directory a plan offered is gone. */
  lemma {:induction false} SweptAway(fs: set<Path>, ds: seq<Path>, outcome: Path -> Removal)
    requires SweepAll(fs, ds, outcome).partial == [] && SweepAll(fs, ds, outcome).untouched == []
    ensures forall d :: d in ds ==> d !in SweepAll(fs, ds, outcome).fs
  {
    if ds != [] {
      var n := |ds| - 1;
      assert ds == ds[..n] + [ds[n]];
      SweptAway(fs, ds[..n], outcome);
    }
  }

  lemma {:induction false} AppliedAway(store: Path, r: Run, entries: seq<Item>, outcome: Path -> Removal, logsFail: set<string>)
    requires !ApplyAll(store, r, entries, outcome, logsFail).failed
    ensures ApplyAll(store, r, entries, outcome, logsFail).fs <= r.fs
    ensures forall e, d :: e in entries && d in e.directories ==> d !in ApplyAll(store, r, entries, outcome, logsFail).fs
  {
    if entries != [] {
      var n := |entries| - 1;
      assert entries == entries[..n] + [entries[n]];
      var s := ApplyAll(store, r, entries[..n], outcome, logsFail);
      AppliedAway(store, r, entries[..n], outcome, logsFail);
      SweepShrinks(s.fs, entries[n].directories, outcome);
      SweptAway(s.fs, entries[n].directories, outcome);
    }
  }

  function NewlyPruned(worlds: seq<World>, after: seq<World>): set<string>
    requires |after| == |worlds|
  {
    set i | 0 <= i < |worlds| && worlds[i] != after[i] :: worlds[i].id
  }

  lemma {:induction false} NothingOffered(facts: Facts, c: Criteria, fs: set<Path>, referenced: set<Path>, candidates: seq<World>)
    requires !c.logs
    requires forall w :: w in candidates ==>
               && (forall d :: d in {w.payload, w.base} ==> d !in fs || d in referenced)
               && facts.overlayOf(w.id) !in fs
    ensures OfferAll(facts, c, fs, referenced, candidates) == Plan([], {})
  {
    if candidates != [] {
      var n := |candidates| - 1;
      assert candidates[n] in candidates;
      NothingOffered(facts, c, fs, referenced, candidates[..n]);
    }
  }

  lemma {:induction false} NoLeftovers(facts: Facts, fs: set<Path>, plan: Plan, worlds: seq<World>)
    requires forall w :: w in worlds && IsHistory(facts, w) ==> facts.overlayOf(w.id) !in fs
    ensures OfferLeftovers(facts, fs, plan, worlds) == plan
  {
    if worlds != [] {
      assert worlds[|worlds| - 1] in worlds;
      NoLeftovers(facts, fs, plan, worlds[..|worlds| - 1]);
    }
  }

  /** Only candidates are newly pruned, and the records changed in nothing else. */
  lemma PrunedAreCandidates(store: Path, facts: Facts, c: Criteria, worlds: seq<World>, fs: set<Path>,
                            outcome: Path -> Removal, logsFail: set<string>)
    requires DistinctIds(worlds)
    ensures var after := Pruned(store, facts, c, worlds, fs, outcome, logsFail).worlds;
            && |after| == |worlds|
            && NewlyPruned(worlds, after) <= Ids(Candidates(facts, c, worlds))
            && forall i :: 0 <= i < |worlds| ==>
                 after[i] == if worlds[i].id in NewlyPruned(worlds, after) then worlds[i].(pruned := true) else worlds[i]
  {
    var entries := PlanOf(facts, c, worlds, fs).entries;
    var after := Pruned(store, facts, c, worlds, fs, outcome, logsFail).worlds;
    MarkedByEntries(store, Run(fs, worlds, facts.logFiles, false), entries, outcome, logsFail);
    OfferedAreCandidates(facts, c, worlds, fs);
    forall i | 0 <= i < |worlds| ensures worlds[i] != after[i] ==> worlds[i].id in Ids(Candidates(facts, c, worlds)) {
      if worlds[i] != after[i] {
        var e :| e in entries && !e.leftover && e.id == worlds[i].id;
      }
    }
    ChangedAre(worlds, after, Ids(Candidates(facts, c, worlds)));
  }

  lemma OfferedAreCandidates(facts: Facts, c: Criteria, worlds: seq<World>, fs: set<Path>)
    ensures forall e :: e in PlanOf(facts, c, worlds, fs).entries && !e.leftover ==> e.id in Ids(Candidates(facts, c, worlds))
  {
    PlanFits(facts, c, worlds, fs);
    forall e | e in PlanOf(facts, c, worlds, fs).entries && !e.leftover
      ensures e.id in Ids(Candidates(facts, c, worlds))
    {
      var w :| w in Candidates(facts, c, worlds) && w.id == e.id;
    }
  }

  lemma ChangedAre(worlds: seq<World>, after: seq<World>, ids: set<string>)
    requires |after| == |worlds| && DistinctIds(worlds)
    requires forall i :: 0 <= i < |worlds| ==> after[i] == worlds[i] || after[i] == worlds[i].(pruned := true)
    requires forall i :: 0 <= i < |worlds| && worlds[i] != after[i] ==> worlds[i].id in ids
    ensures NewlyPruned(worlds, after) <= ids
    ensures forall i :: 0 <= i < |worlds| ==>
              after[i] == if worlds[i].id in NewlyPruned(worlds, after) then worlds[i].(pruned := true) else worlds[i]
  {
  }

  lemma ReferencedAfter(facts: Facts, worlds: seq<World>, after: seq<World>, gone: set<string>, candidates: seq<World>)
    requires |after| == |worlds| && gone <= Ids(candidates)
    requires forall i :: 0 <= i < |worlds| ==>
               after[i] == if worlds[i].id in gone then worlds[i].(pruned := true) else worlds[i]
    ensures Referenced(facts, after, Ids(Filter(candidates, StillUnpruned(gone)))) == Referenced(facts, worlds, Ids(candidates))
  {
    var left := Filter(candidates, StillUnpruned(gone));
    forall i | 0 <= i < |worlds|
      ensures (after[i].id !in Ids(left) && !after[i].pruned) <==> (worlds[i].id !in Ids(candidates) && !worlds[i].pruned)
    {
      if worlds[i].id in Ids(candidates) && worlds[i].id !in gone {
        var w :| w in candidates && w.id == worlds[i].id;
        assert w in left;
      }
    }
    SamePayloads(worlds, after, Ids(candidates), Ids(left));
  }

  lemma SamePayloads(worlds: seq<World>, after: seq<World>, a: set<string>, b: set<string>)
    requires |after| == |worlds|
    requires forall i :: 0 <= i < |worlds| ==> after[i].payload == worlds[i].payload && after[i].base == worlds[i].base
    requires forall i :: 0 <= i < |worlds| ==> ((after[i].id !in b && !after[i].pruned) <==> (worlds[i].id !in a && !worlds[i].pruned))
    ensures Payloads(after, b) == Payloads(worlds, a)
  {
    PayloadsWithin(worlds, after, a, b);
    PayloadsWithin(after, worlds, b, a);
  }

  lemma PayloadsWithin(worlds: seq<World>, after: seq<World>, a: set<string>, b: set<string>)
    requires |after| == |worlds|
    requires forall i :: 0 <= i < |worlds| ==> after[i].payload == worlds[i].payload && after[i].base == worlds[i].base
    requires forall i :: 0 <= i < |worlds| ==> worlds[i].id !in a && !worlds[i].pruned ==> after[i].id !in b && !after[i].pruned
    ensures Payloads(worlds, a) <= Payloads(after, b)
  {
    forall w | w in worlds && w.id !in a && !w.pruned ensures w.payload in Payloads(after, b) && w.base in Payloads(after, b) {
      var i :| 0 <= i < |worlds| && worlds[i] == w;
      assert after[i] in after;
    }
  }

  /** With logs off and nothing failed, a second plan offers nothing: not of a retained world, not of a
      skipped one, not of one pruned earlier. */
  lemma PruneIsClosure(store: Path, facts: Facts, c: Criteria, worlds: seq<World>, fs: set<Path>,
                       outcome: Path -> Removal, logsFail: set<string>)
    requires DistinctIds(worlds) && !c.logs
    requires !Pruned(store, facts, c, worlds, fs, outcome, logsFail).failed
    ensures var after := Pruned(store, facts, c, worlds, fs, outcome, logsFail);
            PlanOf(facts, c, after.worlds, after.fs) == Plan([], {})
  {
    var plan := PlanOf(facts, c, worlds, fs);
    var after := Pruned(store, facts, c, worlds, fs, outcome, logsFail);
    var candidates := Candidates(facts, c, worlds);
    var referenced := Referenced(facts, worlds, Ids(candidates));
    PlanFits(facts, c, worlds, fs);
    TakenIsGone(store, facts, c, worlds, fs, outcome, logsFail);
    PrunedAreCandidates(store, facts, c, worlds, fs, outcome, logsFail);
    var gone := NewlyPruned(worlds, after.worlds);
    CandidatesAfter(facts, c, worlds, after.worlds, gone);
    ReferencedAfter(facts, worlds, after.worlds, gone, candidates);
    NothingOffered(facts, c, after.fs, referenced, Filter(candidates, StillUnpruned(gone)));
    HistoryIsSwept(facts, worlds, after.worlds, after.fs, gone, candidates);
    NoLeftovers(facts, after.fs, Plan([], {}), after.worlds);
  }

  lemma HistoryIsSwept(facts: Facts, worlds: seq<World>, after: seq<World>, fs: set<Path>, gone: set<string>, candidates: seq<World>)
    requires |after| == |worlds| && gone <= Ids(candidates)
    requires forall i :: 0 <= i < |worlds| ==>
               after[i] == if worlds[i].id in gone then worlds[i].(pruned := true) else worlds[i]
    requires forall w :: w in candidates ==> facts.overlayOf(w.id) !in fs
    requires forall w :: w in worlds && IsHistory(facts, w) ==> facts.overlayOf(w.id) !in fs
    ensures forall w :: w in after && IsHistory(facts, w) ==> facts.overlayOf(w.id) !in fs
  {
    forall w | w in after && IsHistory(facts, w) ensures facts.overlayOf(w.id) !in fs {
      var i :| 0 <= i < |worlds| && after[i] == w;
      if w.id in gone {
        var x :| x in candidates && x.id == w.id;
      } else {
        assert worlds[i] in worlds;
      }
    }
  }

  lemma TakenIsGone(store: Path, facts: Facts, c: Criteria, worlds: seq<World>, fs: set<Path>,
                    outcome: Path -> Removal, logsFail: set<string>)
    requires !Pruned(store, facts, c, worlds, fs, outcome, logsFail).failed
    ensures var after := Pruned(store, facts, c, worlds, fs, outcome, logsFail);
            after.fs <= fs && forall d :: d in PlanOf(facts, c, worlds, fs).taken ==> d !in after.fs
  {
    var plan := PlanOf(facts, c, worlds, fs);
    var after := Pruned(store, facts, c, worlds, fs, outcome, logsFail);
    PlanFits(facts, c, worlds, fs);
    AppliedAway(store, Run(fs, worlds, facts.logFiles, false), plan.entries, outcome, logsFail);
    forall d | d in plan.taken ensures d !in after.fs {
      var i :| 0 <= i < |plan.entries| && d in plan.entries[i].directories;
      assert plan.entries[i] in plan.entries;
    }
  }

  // ----- what the plan skips

  /** A candidate with nothing of its own to reclaim is skipped, and stays unpruned; but what it points
      at is not protected by it. Its payload is kept exactly when a world that stays, or a live root,
      refers to it. */
  lemma SkippedKeepsPayloadIff(store: Path, facts: Facts, c: Criteria, worlds: seq<World>, fs: set<Path>,
                               outcome: Path -> Removal, logsFail: set<string>, w: World)
    requires Layout(facts, worlds) && DistinctIds(worlds)
    requires w in Candidates(facts, c, worlds) && w.payload in fs
    requires forall e :: e in PlanOf(facts, c, worlds, fs).entries ==> e.id != w.id
    requires !Pruned(store, facts, c, worlds, fs, outcome, logsFail).failed
    ensures var after := Pruned(store, facts, c, worlds, fs, outcome, logsFail);
            && w in after.worlds
            && (w.payload in after.fs <==> w.payload in Referenced(facts, worlds, Ids(Candidates(facts, c, worlds))))
  {
    var plan := PlanOf(facts, c, worlds, fs);
    var r := Run(fs, worlds, facts.logFiles, false);
    PlanFits(facts, c, worlds, fs);
    TakenIsGone(store, facts, c, worlds, fs, outcome, logsFail);
    MarkedByEntries(store, r, plan.entries, outcome, logsFail);
    var i :| 0 <= i < |worlds| && worlds[i] == w;
    assert Pruned(store, facts, c, worlds, fs, outcome, logsFail).worlds[i] == w;
    if w.payload in Referenced(facts, worlds, Ids(Candidates(facts, c, worlds))) {
      ReferencedIsKept(store, facts, c, worlds, fs, outcome, logsFail, w.payload, w.payload);
    }
  }

  /** Two archived worlds over one payload, none referred to by anyone else: the first to finish takes
      it, and the second stays, unpruned, without its payload. */
  lemma SkippedCanLosePayload(store: Path, d: Path, a: World, b: World, facts: Facts, c: Criteria)
    requires Inside(store, d) && a.id != b.id && a.finished < b.finished
    requires a.payload == d && a.base == d && b.payload == d && b.base == d
    requires a.state == ARCHIVED && b.state == ARCHIVED && !a.pruned && !b.pruned
    requires facts == Facts(None, {}, {}, facts.overlayOf, {}) && c == Criteria(None, None, false)
    requires facts.overlayOf(a.id) != d && facts.overlayOf(b.id) != d
    ensures var after := Pruned(store, facts, c, [a, b], {d}, (p: Path) => Removed, {});
            !after.failed && after.fs == {} && after.worlds == [a.(pruned := true), b]
  {
    var worlds := [a, b];
    TwoEligible(facts, c, a, b);
    assert Candidates(facts, c, worlds) == worlds;
    var referenced := Referenced(facts, worlds, Ids(worlds));
    assert referenced == {};
    var e := Item(a.id, [d], false, false);
    OfferFirst(facts, c, d, a, b, e);
    NoLeftovers(facts, {d}, Plan([e], {d}), worlds);
    OneEntry(store, d, worlds, facts.logFiles, e);
  }

  lemma OfferFirst(facts: Facts, c: Criteria, d: Path, a: World, b: World, e: Item)
    requires a.payload == d && a.base == d && b.payload == d && b.base == d && !c.logs
    requires facts.overlayOf(a.id) != d && facts.overlayOf(b.id) != d
    requires e == Item(a.id, [d], false, false)
    ensures OfferAll(facts, c, {d}, {}, [a, b]) == Plan([e], {d})
  {
    var first := OfferAll(facts, c, {d}, {}, [a]);
    assert [a][..0] == [] && [a, b][..1] == [a];
    assert Own(facts, {d}, {}, {}, a) == [d];
    assert (set x | x in [d]) == {d};
    OfferAllOne(facts, c, {d}, {}, a);
    assert first == Plan([e], {d});
    assert Own(facts, {d}, {}, {d}, b) == [];
  }

  lemma OfferAllOne(facts: Facts, c: Criteria, fs: set<Path>, referenced: set<Path>, a: World)
    ensures OfferAll(facts, c, fs, referenced, [a]) == Offer(facts, c, fs, referenced, Plan([], {}), a)
  {
    var none := [a][..0];
    assert none == [];
    assert OfferAll(facts, c, fs, referenced, none) == Plan([], {});
  }

  lemma TwoEligible(facts: Facts, c: Criteria, a: World, b: World)
    requires a.finished < b.finished && Eligible(facts, c, a) && Eligible(facts, c, b)
    ensures AllEligible(facts, c, [a, b]) == [a, b] && Sorted([a, b]) == [a, b]
  {
    var f := (w: World) => Eligible(facts, c, w);
    assert [] + [a] == [a] && [a] + [b] == [a, b];
    FilterSnoc([], a, f);
    FilterSnoc([a], b, f);
    SortedSnoc([], a);
    SortedSnoc([a], b);
  }

  lemma OneEntry(store: Path, d: Path, worlds: seq<World>, logFiles: set<string>, e: Item)
    requires Inside(store, d) && |worlds| == 2 && worlds[0].id != worlds[1].id
    requires e == Item(worlds[0].id, [d], false, false) && worlds[0].payload == d
    ensures var after := ApplyAll(store, Run({d}, worlds, logFiles, false), [e], (p: Path) => Removed, {});
            after == Run({}, [worlds[0].(pruned := true), worlds[1]], logFiles, false)
  {
    var outcome := (p: Path) => Removed;
    assert [e][..0] == [] && [d][..0] == [];
    assert SweepAll({d}, [d], outcome) == Sweep({}, [d], [], []) by {
      assert SweepAll({d}, [], outcome) == Sweep({d}, [], [], []);
      assert RemoveDir({d}, d, Removed) == {};
    }
    assert MarkPruned(worlds, worlds[0].id) == [worlds[0].(pruned := true), worlds[1]];
    assert HasWorld(worlds, e.id) by { assert worlds[0].id == e.id; }
    var found := Find(worlds, e.id);
    assert found == worlds[0];
  }
}
