/** What a prune plan is, said of the recorded facts alone: which worlds go, and what is offered for them. */
module PruneMeaning {
  import opened Wrappers
  import opened Trees
  import opened Worlds
  import opened Prune
  import opened PruneSafety

  /** Finished for good, not PRIME nor what PRIME goes back to, not at work, and finished long enough ago. */
  ghost predicate MayGo(facts: Facts, c: Criteria, w: World) {
    && !w.pruned && (w.state == ARCHIVED || w.state == DEAD || w.state == DEGRADED || w.state == COLLAPSED)
    && Loose(facts, w)
    && (c.cutoff.Some? ==> w.finished < c.cutoff.value)
  }

  ghost predicate Loose(facts: Facts, w: World) {
    && (facts.prime.Some? ==> w.id != facts.prime.value.id && facts.prime.value.parent != Some(w.id))
    && w.id !in facts.active
  }

  ghost predicate Before(worlds: seq<World>, x: World, y: World) {
    exists i, j :: 0 <= i < j < |worlds| && worlds[i] == x && worlds[j] == y
  }

  /** `y` finished after `x`, or at the same time and is recorded after it. */
  ghost predicate Later(worlds: seq<World>, x: World, y: World) {
    y.finished > x.finished || (y.finished == x.finished && Before(worlds, x, y))
  }

  ghost function LaterOnes(facts: Facts, c: Criteria, worlds: seq<World>, w: World): set<World> {
    set y | y in worlds && MayGo(facts, c, y) && Later(worlds, w, y)
  }

  /** It may go, and so may at least as many later ones as are to be kept. */
  ghost predicate Goes(facts: Facts, c: Criteria, worlds: seq<World>, w: World) {
    && w in worlds && MayGo(facts, c, w)
    && (c.keep.Some? && c.keep.value > 0 ==> |LaterOnes(facts, c, worlds, w)| >= c.keep.value)
  }

  // ----- the candidates are the worlds that go

  ghost predicate NoDuplicate(ws: seq<World>) {
    forall i, j :: 0 <= i < j < |ws| ==> ws[i] != ws[j]
  }

  ghost predicate InOrder(all: seq<World>, ws: seq<World>) {
    forall p, q :: 0 <= p < q < |ws| ==> Later(all, ws[p], ws[q])
  }

  lemma BeforeMore(ws: seq<World>, w: World, x: World, y: World)
    ensures Before(ws, x, y) ==> Before(ws + [w], x, y)
    ensures x in ws ==> Before(ws + [w], x, w)
  {
    var more := ws + [w];
    if Before(ws, x, y) {
      var i, j :| 0 <= i < j < |ws| && ws[i] == x && ws[j] == y;
      assert more[i] == x && more[j] == y;
    }
    if x in ws {
      var i :| 0 <= i < |ws| && ws[i] == x;
      assert more[i] == x && more[|ws|] == w;
    }
  }

  lemma {:induction false} FilterKeepsOrder(ws: seq<World>, f: World -> bool)
    ensures forall x, y :: Before(Filter(ws, f), x, y) ==> Before(ws, x, y)
  {
    if ws != [] {
      var n := |ws| - 1;
      var kept := Filter(ws[..n], f);
      FilterKeepsOrder(ws[..n], f);
      assert ws == ws[..n] + [ws[n]];
      forall x, y | Before(Filter(ws, f), x, y) ensures Before(ws, x, y) {
        BeforeMore(ws[..n], ws[n], x, y);
        var i, j :| 0 <= i < j < |Filter(ws, f)| && Filter(ws, f)[i] == x && Filter(ws, f)[j] == y;
        if j < |kept| {
          assert kept[i] == x && kept[j] == y;
        } else {
          assert kept[i] == x && x in kept;
        }
      }
    }
  }

  lemma {:induction false} FilterKeepsDistinct(ws: seq<World>, f: World -> bool)
    requires NoDuplicate(ws)
    ensures NoDuplicate(Filter(ws, f))
  {
    if ws != [] {
      var n := |ws| - 1;
      FilterKeepsDistinct(ws[..n], f);
      var kept := Filter(ws[..n], f);
      forall i | 0 <= i < |kept| ensures kept[i] != ws[n] {
        assert kept[i] in kept;
        var j :| 0 <= j < n && ws[..n][j] == kept[i];
        assert ws[j] == kept[i];
      }
    }
  }

  lemma {:induction false} InsertInOrder(all: seq<World>, sorted: seq<World>, w: World)
    requires InOrder(all, sorted) && forall x :: x in sorted ==> Before(all, x, w)
    ensures InOrder(all, Insert(sorted, w)) && |Insert(sorted, w)| == |sorted| + 1
  {
    if sorted != [] {
      var n := |sorted| - 1;
      var last := sorted[n];
      if last.finished <= w.finished {
        forall p | 0 <= p < |sorted| ensures Later(all, sorted[p], w) {
          assert sorted[p] in sorted;
          assert p < n ==> Later(all, sorted[p], sorted[n]);
        }
      } else {
        forall x | x in sorted[..n] ensures x in sorted && Before(all, x, w) {
        }
        InsertInOrder(all, sorted[..n], w);
        var before := Insert(sorted[..n], w);
        forall p | 0 <= p < |before| ensures Later(all, before[p], last) {
          assert before[p] in before;
          if before[p] != w {
            var k :| 0 <= k < n && sorted[..n][k] == before[p];
            assert Later(all, sorted[k], sorted[n]);
          }
        }
      }
    }
  }

  lemma {:induction false} SortedInOrder(ws: seq<World>)
    ensures InOrder(ws, Sorted(ws)) && |Sorted(ws)| == |ws|
  {
    if ws != [] {
      var n := |ws| - 1;
      var front, last := ws[..n], ws[n];
      SortedInOrder(front);
      assert ws == front + [last];
      forall p, q | 0 <= p < q < |Sorted(front)| ensures Later(ws, Sorted(front)[p], Sorted(front)[q]) {
        assert Later(front, Sorted(front)[p], Sorted(front)[q]);
        BeforeMore(front, last, Sorted(front)[p], Sorted(front)[q]);
      }
      forall x | x in Sorted(front) ensures Before(ws, x, last) {
        BeforeMore(front, last, x, x);
      }
      InsertInOrder(ws, Sorted(front), last);
    }
  }

  lemma NotBoth(ws: seq<World>, x: World, y: World)
    requires NoDuplicate(ws)
    ensures !(Later(ws, x, y) && Later(ws, y, x)) && !Later(ws, x, x)
  {
  }

  lemma {:induction false} CountOf(ws: seq<World>)
    requires NoDuplicate(ws)
    ensures |set w | w in ws| == |ws|
  {
    if ws == [] {
      assert (set w | w in ws) == {};
    } else {
      var n := |ws| - 1;
      CountOf(ws[..n]);
      assert ws == ws[..n] + [ws[n]];
      assert (set w | w in ws) == (set w | w in ws[..n]) + {ws[n]};
      assert ws[n] !in ws[..n];
    }
  }

  lemma EligibleMeaning(facts: Facts, c: Criteria, w: World)
    ensures Eligible(facts, c, w) <==> MayGo(facts, c, w)
  {
  }

  /** The worlds that may go, in order. */
  lemma InOrderOfFinishing(facts: Facts, c: Criteria, worlds: seq<World>) returns (sorted: seq<World>)
    requires NoDuplicate(worlds)
    ensures sorted == Sorted(AllEligible(facts, c, worlds))
    ensures InOrder(worlds, sorted) && NoDuplicate(sorted)
    ensures forall w :: w in sorted <==> w in worlds && MayGo(facts, c, w)
  {
    var f := (w: World) => Eligible(facts, c, w);
    var eligible := AllEligible(facts, c, worlds);
    sorted := Sorted(eligible);
    FilterKeepsOrder(worlds, f);
    FilterKeepsDistinct(worlds, f);
    SortedInOrder(eligible);
    forall p, q | 0 <= p < q < |sorted| ensures Later(worlds, sorted[p], sorted[q]) && sorted[p] != sorted[q] {
      assert Later(eligible, sorted[p], sorted[q]);
      NotBoth(eligible, sorted[p], sorted[q]);
    }
    forall w ensures Eligible(facts, c, w) <==> MayGo(facts, c, w) {
      EligibleMeaning(facts, c, w);
    }
  }

  lemma OrderOf(all: seq<World>, ws: seq<World>, p: nat, q: nat)
    requires InOrder(all, ws) && p < |ws| && q < |ws|
    ensures (p < q ==> Later(all, ws[p], ws[q])) && (q < p ==> Later(all, ws[q], ws[p]))
  {
  }

  lemma LaterOnesAre(facts: Facts, c: Criteria, worlds: seq<World>, sorted: seq<World>, p: nat)
    requires NoDuplicate(worlds) && InOrder(worlds, sorted) && NoDuplicate(sorted) && p < |sorted|
    requires forall w :: w in sorted <==> w in worlds && MayGo(facts, c, w)
    ensures |LaterOnes(facts, c, worlds, sorted[p])| == |sorted| - 1 - p
  {
    var rest := sorted[p + 1..];
    forall y ensures y in LaterOnes(facts, c, worlds, sorted[p]) <==> y in rest {
      NotBoth(worlds, sorted[p], y);
      if y in rest {
        var q :| 0 <= q < |rest| && rest[q] == y;
        assert sorted[p + 1 + q] == y && y in sorted;
        assert Later(worlds, sorted[p], sorted[p + 1 + q]);
      }
      if y in LaterOnes(facts, c, worlds, sorted[p]) {
        assert y in sorted;
        var q :| 0 <= q < |sorted| && sorted[q] == y;
        OrderOf(worlds, sorted, p, q);
        assert q > p;
        assert rest[q - p - 1] == y;
      }
    }
    assert LaterOnes(facts, c, worlds, sorted[p]) == set y | y in rest;
    CountOf(rest);
  }

  lemma CandidatesMeaning(facts: Facts, c: Criteria, worlds: seq<World>)
    requires DistinctIds(worlds)
    ensures forall w :: w in Candidates(facts, c, worlds) <==> Goes(facts, c, worlds, w)
  {
    var sorted := InOrderOfFinishing(facts, c, worlds);
    var candidates := AllButNewest(sorted, c.keep);
    forall w ensures w in candidates <==> Goes(facts, c, worlds, w) {
      if w in sorted {
        var p :| 0 <= p < |sorted| && sorted[p] == w;
        LaterOnesAre(facts, c, worlds, sorted, p);
        InPrefix(sorted, |candidates|, p);
      }
    }
  }

  lemma InPrefix(ws: seq<World>, n: nat, p: nat)
    requires NoDuplicate(ws) && n <= |ws| && p < |ws|
    ensures ws[p] in ws[..n] <==> p < n
  {
    if p < n { assert ws[..n][p] == ws[p]; }
  }

  // ----- the plan

  /** A live root's directory, or the payload or base of an unpruned world that does not go. */
  ghost predicate StillNeeded(facts: Facts, c: Criteria, worlds: seq<World>, d: Path) {
    || d in facts.live
    || exists v :: v in worlds && !v.pruned && !Goes(facts, c, worlds, v) && (d == v.payload || d == v.base)
  }

  /** What may be offered for a world: its overlay, and its payload and base if they are not needed. */
  ghost predicate MayBeOffered(facts: Facts, c: Criteria, worlds: seq<World>, w: World, d: Path) {
    d == facts.overlayOf(w.id) || ((d == w.payload || d == w.base) && !StillNeeded(facts, c, worlds, d))
  }

  lemma NeededIsReferenced(facts: Facts, c: Criteria, worlds: seq<World>, d: Path)
    requires DistinctIds(worlds)
    ensures d in Referenced(facts, worlds, Ids(Candidates(facts, c, worlds))) <==> StillNeeded(facts, c, worlds, d)
  {
    CandidatesMeaning(facts, c, worlds);
    var candidates := Candidates(facts, c, worlds);
    forall v | v in worlds ensures v.id in Ids(candidates) <==> Goes(facts, c, worlds, v) {
      if v.id in Ids(candidates) {
        var w :| w in candidates && w.id == v.id;
        SameWorld(worlds, v, w);
      }
    }
  }

  lemma SameWorld(worlds: seq<World>, v: World, w: World)
    requires DistinctIds(worlds) && v in worlds && w in worlds && v.id == w.id
    ensures v == w
  {
    var i :| 0 <= i < |worlds| && worlds[i] == v;
    var j :| 0 <= j < |worlds| && worlds[j] == w;
    assert i == j;
  }

  /** An entry offers something of its world that is there, and its logs if asked. */
  ghost predicate IsEntryOf(facts: Facts, c: Criteria, worlds: seq<World>, fs: set<Path>, e: Item, w: World) {
    && e.id == w.id && (e.directories != [] || e.logs)
    && (forall d :: d in e.directories ==> d in fs && MayBeOffered(facts, c, worlds, w, d))
    && (e.logs <==> c.logs && w.id in facts.logFiles)
  }

  /** A pruned world's overlay that is still there is offered again. */
  ghost predicate IsLeftoverOf(facts: Facts, fs: set<Path>, e: Item, w: World) {
    && e.id == w.id && w.pruned && Loose(facts, w)
    && e.directories == [facts.overlayOf(w.id)] && facts.overlayOf(w.id) in fs && !e.logs
  }

  ghost predicate OnlyWhatMayGo(facts: Facts, c: Criteria, worlds: seq<World>, fs: set<Path>, plan: Plan) {
    forall e :: e in plan.entries ==>
      if e.leftover then exists w :: w in worlds && IsLeftoverOf(facts, fs, e, w)
      else exists w :: Goes(facts, c, worlds, w) && IsEntryOf(facts, c, worlds, fs, e, w)
  }

  ghost predicate IsOffered(plan: Plan, d: Path) {
    exists i :: 0 <= i < |plan.entries| && d in plan.entries[i].directories
  }

  ghost predicate LogsOffered(plan: Plan, id: string) {
    exists i :: 0 <= i < |plan.entries| && plan.entries[i].id == id && plan.entries[i].logs
  }

  ghost predicate AllThatMayGo(facts: Facts, c: Criteria, worlds: seq<World>, fs: set<Path>, plan: Plan) {
    && (forall w, d :: Goes(facts, c, worlds, w) && d in fs && MayBeOffered(facts, c, worlds, w, d) ==> IsOffered(plan, d))
    && (forall w :: Goes(facts, c, worlds, w) && c.logs && w.id in facts.logFiles ==> LogsOffered(plan, w.id))
    && (forall w :: w in worlds && w.pruned && Loose(facts, w) && facts.overlayOf(w.id) in fs ==>
          IsOffered(plan, facts.overlayOf(w.id)))
  }

  ghost predicate EachOnce(plan: Plan) {
    forall i, j, d :: 0 <= i < j < |plan.entries| && d in plan.entries[i].directories ==> d !in plan.entries[j].directories
  }

  lemma {:induction false} OfferedEntries(facts: Facts, c: Criteria, worlds: seq<World>, fs: set<Path>,
                                          referenced: set<Path>, candidates: seq<World>)
    requires forall w :: w in candidates ==> Goes(facts, c, worlds, w)
    requires forall d :: d in referenced <==> StillNeeded(facts, c, worlds, d)
    ensures var plan := OfferAll(facts, c, fs, referenced, candidates);
            && (forall e :: e in plan.entries ==>
                  !e.leftover && exists w :: Goes(facts, c, worlds, w) && IsEntryOf(facts, c, worlds, fs, e, w))
            && (forall w :: w in candidates && c.logs && w.id in facts.logFiles ==> LogsOffered(plan, w.id))
  {
    if candidates != [] {
      var n := |candidates| - 1;
      var w := candidates[n];
      assert candidates == candidates[..n] + [w];
      OfferedEntries(facts, c, worlds, fs, referenced, candidates[..n]);
      var before := OfferAll(facts, c, fs, referenced, candidates[..n]);
      OneOffer(facts, c, worlds, fs, referenced, before, w);
    }
  }

  lemma OneOffer(facts: Facts, c: Criteria, worlds: seq<World>, fs: set<Path>, referenced: set<Path>, plan: Plan, w: World)
    requires Goes(facts, c, worlds, w) && forall d :: d in referenced <==> StillNeeded(facts, c, worlds, d)
    ensures var more := Offer(facts, c, fs, referenced, plan, w);
            && plan.entries <= more.entries
            && (forall e :: e in more.entries && e !in plan.entries ==> !e.leftover && IsEntryOf(facts, c, worlds, fs, e, w))
            && (c.logs && w.id in facts.logFiles ==> LogsOffered(more, w.id))
            && (forall id :: LogsOffered(plan, id) ==> LogsOffered(more, id))
  {
    var more := Offer(facts, c, fs, referenced, plan, w);
    var own := Own(facts, fs, referenced, plan.taken, w);
    var e := Item(w.id, own, c.logs && w.id in facts.logFiles, false);
    if own != [] || e.logs {
      assert more.entries == plan.entries + [e] && more.entries[|plan.entries|] == e;
      forall d | d in own ensures d in fs && MayBeOffered(facts, c, worlds, w, d) {
      }
      forall id | LogsOffered(plan, id) ensures LogsOffered(more, id) {
        var i :| 0 <= i < |plan.entries| && plan.entries[i].id == id && plan.entries[i].logs;
        assert more.entries[i] == plan.entries[i];
      }
    }
  }

  lemma {:induction false} OfferedLeftovers(facts: Facts, fs: set<Path>, plan: Plan, worlds: seq<World>)
    ensures var more := OfferLeftovers(facts, fs, plan, worlds);
            && plan.entries <= more.entries
            && forall e :: e in more.entries && e !in plan.entries ==>
                 e.leftover && exists w :: w in worlds && IsLeftoverOf(facts, fs, e, w)
  {
    if worlds != [] {
      var n := |worlds| - 1;
      var w := worlds[n];
      assert worlds == worlds[..n] + [w];
      OfferedLeftovers(facts, fs, plan, worlds[..n]);
      var before := OfferLeftovers(facts, fs, plan, worlds[..n]);
      if IsLeftover(facts, fs, before.taken, w) {
        assert IsLeftoverOf(facts, fs, Item(w.id, [facts.overlayOf(w.id)], false, true), w);
      }
    }
  }

  lemma KeepsLogs(plan: Plan, more: Plan)
    requires plan.entries <= more.entries
    ensures forall id :: LogsOffered(plan, id) ==> LogsOffered(more, id)
  {
    forall id | LogsOffered(plan, id) ensures LogsOffered(more, id) {
      var i :| 0 <= i < |plan.entries| && plan.entries[i].id == id && plan.entries[i].logs;
      assert more.entries[i] == plan.entries[i];
    }
  }

  /** The plan offers only what may go, all that may go, and each directory once. */
  lemma PlanMeaning(facts: Facts, c: Criteria, worlds: seq<World>, fs: set<Path>)
    requires DistinctIds(worlds)
    ensures var plan := PlanOf(facts, c, worlds, fs);
            && OnlyWhatMayGo(facts, c, worlds, fs, plan)
            && AllThatMayGo(facts, c, worlds, fs, plan)
            && EachOnce(plan)
  {
    var candidates := Candidates(facts, c, worlds);
    var referenced := Referenced(facts, worlds, Ids(candidates));
    CandidatesMeaning(facts, c, worlds);
    forall d ensures d in referenced <==> StillNeeded(facts, c, worlds, d) {
      NeededIsReferenced(facts, c, worlds, d);
    }
    var offered := OfferAll(facts, c, fs, referenced, candidates);
    var plan := PlanOf(facts, c, worlds, fs);
    OfferedEntries(facts, c, worlds, fs, referenced, candidates);
    OfferedLeftovers(facts, fs, offered, worlds);
    KeepsLogs(offered, plan);
    OnlyThese(facts, c, worlds, fs, offered, plan);
    AllThese(facts, c, worlds, fs);
    PlanFits(facts, c, worlds, fs);
  }

  lemma OnlyThese(facts: Facts, c: Criteria, worlds: seq<World>, fs: set<Path>, offered: Plan, plan: Plan)
    requires forall e :: e in offered.entries ==>
               !e.leftover && exists w :: Goes(facts, c, worlds, w) && IsEntryOf(facts, c, worlds, fs, e, w)
    requires forall e :: e in plan.entries && e !in offered.entries ==>
               e.leftover && exists w :: w in worlds && IsLeftoverOf(facts, fs, e, w)
    ensures OnlyWhatMayGo(facts, c, worlds, fs, plan)
  {
  }

  lemma AllThese(facts: Facts, c: Criteria, worlds: seq<World>, fs: set<Path>)
    requires DistinctIds(worlds)
    ensures var plan := PlanOf(facts, c, worlds, fs);
            && (forall w, d :: Goes(facts, c, worlds, w) && d in fs && MayBeOffered(facts, c, worlds, w, d) ==> IsOffered(plan, d))
            && (forall w :: w in worlds && w.pruned && Loose(facts, w) && facts.overlayOf(w.id) in fs ==>
                  IsOffered(plan, facts.overlayOf(w.id)))
  {
    var plan := PlanOf(facts, c, worlds, fs);
    PlanFits(facts, c, worlds, fs);
    CandidatesMeaning(facts, c, worlds);
    forall w, d | Goes(facts, c, worlds, w) && d in fs && MayBeOffered(facts, c, worlds, w, d) ensures IsOffered(plan, d) {
      NeededIsReferenced(facts, c, worlds, d);
      assert d in plan.taken;
    }
    forall w | w in worlds && w.pruned && Loose(facts, w) && facts.overlayOf(w.id) in fs
      ensures IsOffered(plan, facts.overlayOf(w.id))
    {
      assert IsHistory(facts, w);
    }
  }

  // ----- what applying an entry does

  ghost predicate AllApart(ds: seq<Path>) {
    forall i, j :: 0 <= i < j < |ds| ==> Apart(ds[i], ds[j])
  }

  /** A removal of `d` that left `p`. */
  ghost predicate Spared(outcome: Path -> Removal, d: Path, p: Path) {
    d <= p ==> outcome(d).Nothing? || (outcome(d).Part? && p !in outcome(d).gone)
  }

  ghost predicate SparedByAll(fs: set<Path>, ds: seq<Path>, outcome: Path -> Removal, p: Path) {
    forall d :: d in ds && d in fs ==> Spared(outcome, d, p)
  }

  /** Each directory that is there is tried, and told by what became of it. */
  lemma {:induction false} SweepMeaning(fs: set<Path>, ds: seq<Path>, outcome: Path -> Removal)
    requires AllApart(ds)
    ensures var s := SweepAll(fs, ds, outcome);
            && (forall p :: p in s.fs <==> p in fs && SparedByAll(fs, ds, outcome, p))
            && (forall d :: d in s.removed <==> d in ds && d in fs && outcome(d).Removed?)
            && (forall d :: d in s.partial <==> d in ds && d in fs && outcome(d).Part?)
            && (forall d :: d in s.untouched <==> d in ds && d in fs && outcome(d).Nothing?)
  {
    if ds != [] {
      var n := |ds| - 1;
      var d, front := ds[n], ds[..n];
      assert ds == front + [d];
      SweepMeaning(fs, front, outcome);
      assert SparedByAll(fs, front, outcome, d) by {
        forall x | x in front && x in fs ensures Spared(outcome, x, d) {
          assert Apart(x, d);
        }
      }
      OneMoreSwept(fs, SweepAll(fs, front, outcome), front, d, outcome);
    }
  }

  lemma OneMoreSwept(fs: set<Path>, s: Sweep, front: seq<Path>, d: Path, outcome: Path -> Removal)
    requires d in s.fs <==> d in fs
    requires forall p :: p in s.fs <==> p in fs && SparedByAll(fs, front, outcome, p)
    ensures forall p :: p in SweepOne(s, d, outcome).fs <==> p in fs && SparedByAll(fs, front + [d], outcome, p)
  {
    forall p ensures p in SweepOne(s, d, outcome).fs <==> p in fs && SparedByAll(fs, front + [d], outcome, p) {
      assert SparedByAll(fs, front + [d], outcome, p) <==>
             SparedByAll(fs, front, outcome, p) && (d in fs ==> Spared(outcome, d, p));
    }
  }

  /** A world is recorded as pruned unless its own payload is still there whole: not this entry's to
      remove, or not touched. */
  ghost predicate BecomesPruned(r: Run, e: Item, outcome: Path -> Removal, after: Run, payload: Path) {
    && !e.leftover
    && (payload in after.fs ==> payload in e.directories && payload in r.fs && !outcome(payload).Nothing?)
  }

  ghost predicate Refuses(store: Path, fs: set<Path>, e: Item) {
    exists d :: d in e.directories && d in fs && !(store < d)
  }

  /** An entry with a directory that leads out of the store does nothing. Any other removes what its
      removals remove, is a failure if one of them was, and records its world. */
  lemma EntryMeaning(store: Path, r: Run, e: Item, outcome: Path -> Removal, logsFail: set<string>, w: World)
    requires DistinctIds(r.worlds) && w in r.worlds && w.id == e.id && AllApart(e.directories)
    ensures var after := ApplyEntry(store, r, e, outcome, logsFail);
            if Refuses(store, r.fs, e) then after == r.(failed := true)
            else
              var recorded := BecomesPruned(r, e, outcome, after, w.payload);
              && (forall p :: p in after.fs <==> p in r.fs && SparedByAll(r.fs, e.directories, outcome, p))
              && after.worlds == (if recorded then MarkPruned(r.worlds, e.id) else r.worlds)
              && after.logFiles == (if recorded && e.logs && e.id !in logsFail then r.logFiles - {e.id} else r.logFiles)
              && (after.failed <==>
                    || r.failed || (exists d :: d in e.directories && d in r.fs && !outcome(d).Removed?)
                    || (recorded && e.logs && e.id in logsFail))
  {
    assert HasWorld(r.worlds, e.id);
    var found := Find(r.worlds, e.id);
    assert found == w;
    if Outside(store, r.fs, e.directories) {
      assert Refuses(store, r.fs, e);
    } else {
      assert !Refuses(store, r.fs, e);
      SweepMeaning(r.fs, e.directories, outcome);
      var s := SweepAll(r.fs, e.directories, outcome);
      NotEmpty(s.partial);
      NotEmpty(s.untouched);
    }
  }

  lemma NotEmpty(ds: seq<Path>)
    ensures ds != [] <==> exists d :: d in ds
  {
    if ds != [] { assert ds[0] in ds; }
  }
}
