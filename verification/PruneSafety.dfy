/** What a prune may and may not take, whatever fails while it runs. */
module PruneSafety {
  import opened Trees
  import opened Prune

  ghost predicate DistinctIds(ws: seq<World>) {
    forall i, j :: 0 <= i < j < |ws| ==> ws[i].id != ws[j].id
  }

  /** Every directory the store records as a payload, a base, or a live root's. */
  function Recorded(facts: Facts, worlds: seq<World>): set<Path> {
    Payloads(worlds, {}) + (set w | w in worlds && w.pruned :: w.payload) + (set w | w in worlds && w.pruned :: w.base) +
    facts.live
  }

  /** Recorded directories are equal or disjoint, and an overlay is its world's alone. */
  ghost predicate Layout(facts: Facts, worlds: seq<World>) {
    && (forall x, y :: x in Recorded(facts, worlds) && y in Recorded(facts, worlds) && x != y ==> Apart(x, y))
    && (forall w, x :: w in worlds && x in Recorded(facts, worlds) ==> Apart(facts.overlayOf(w.id), x))
    && (forall w, v :: w in worlds && v in worlds && w.id != v.id ==> Apart(facts.overlayOf(w.id), facts.overlayOf(v.id)))
  }

  // ----- what a plan offers

  ghost predicate EntryFits(facts: Facts, worlds: seq<World>, candidates: seq<World>, referenced: set<Path>, e: Item) {
    if e.leftover then
      exists w :: w in worlds && w.id == e.id && IsHistory(facts, w) && e.directories == [facts.overlayOf(w.id)]
    else
      exists w :: w in candidates && w.id == e.id && forall d :: d in e.directories ==>
        d == facts.overlayOf(w.id) || (d in {w.payload, w.base} && d !in referenced)
  }

  /** The directories of the entries are the taken ones, each in one entry. */
  ghost predicate Partitioned(plan: Plan) {
    && (forall d :: d in plan.taken <==> exists i :: 0 <= i < |plan.entries| && d in plan.entries[i].directories)
    && (forall i, j, d :: 0 <= i < j < |plan.entries| && d in plan.entries[i].directories ==> d !in plan.entries[j].directories)
  }

  lemma PartitionedMore(plan: Plan, e: Item)
    requires Partitioned(plan) && forall d :: d in e.directories ==> d !in plan.taken
    ensures Partitioned(Plan(plan.entries + [e], plan.taken + set d | d in e.directories))
  {
    var more := Plan(plan.entries + [e], plan.taken + set d | d in e.directories);
    forall d ensures d in more.taken <==> exists i :: 0 <= i < |more.entries| && d in more.entries[i].directories {
      if d in plan.taken {
        var i :| 0 <= i < |plan.entries| && d in plan.entries[i].directories;
        assert d in more.entries[i].directories;
      } else if d in e.directories {
        assert d in more.entries[|plan.entries|].directories;
      } else {
        assert forall i :: 0 <= i < |plan.entries| ==> d !in plan.entries[i].directories;
      }
    }
    forall i, j, d | 0 <= i < j < |more.entries| && d in more.entries[i].directories
      ensures d !in more.entries[j].directories
    {
      assert more.entries[i] == plan.entries[i];
      if j < |plan.entries| {
        assert more.entries[j] == plan.entries[j];
      } else {
        assert d in plan.taken;
      }
    }
  }

  lemma {:induction false} OfferAllFits(facts: Facts, c: Criteria, fs: set<Path>, referenced: set<Path>,
                                        worlds: seq<World>, all: seq<World>, candidates: seq<World>)
    requires forall w :: w in candidates ==> w in all
    ensures var plan := OfferAll(facts, c, fs, referenced, candidates);
            && Partitioned(plan)
            && (forall e :: e in plan.entries ==> !e.leftover && EntryFits(facts, worlds, all, referenced, e))
            && (forall w, d :: w in candidates && d in {w.payload, w.base} && d in fs ==> d in plan.taken || d in referenced)
            && (forall w :: w in candidates && facts.overlayOf(w.id) in fs ==> facts.overlayOf(w.id) in plan.taken)
  {
    if candidates != [] {
      var n := |candidates| - 1;
      var w := candidates[n];
      assert candidates == candidates[..n] + [w];
      OfferAllFits(facts, c, fs, referenced, worlds, all, candidates[..n]);
      var before := OfferAll(facts, c, fs, referenced, candidates[..n]);
      var own := Own(facts, fs, referenced, before.taken, w);
      var logs := c.logs && w.id in facts.logFiles;
      var e := Item(w.id, own, logs, false);
      PartitionedMore(before, e);
      assert EntryFits(facts, worlds, all, referenced, e);
    }
  }

  lemma {:induction false} LeftoversFit(facts: Facts, fs: set<Path>, plan: Plan, referenced: set<Path>,
                                        all: seq<World>, candidates: seq<World>, worlds: seq<World>)
    requires Partitioned(plan) && forall w :: w in worlds ==> w in all
    requires forall e :: e in plan.entries ==> EntryFits(facts, all, candidates, referenced, e)
    ensures var more := OfferLeftovers(facts, fs, plan, worlds);
            && Partitioned(more) && plan.taken <= more.taken && plan.entries <= more.entries
            && (forall e :: e in more.entries ==> EntryFits(facts, all, candidates, referenced, e))
            && (forall e :: e in more.entries[|plan.entries|..] ==> e.leftover)
            && (forall w :: w in worlds && IsHistory(facts, w) && facts.overlayOf(w.id) in fs ==> facts.overlayOf(w.id) in more.taken)
  {
    if worlds != [] {
      var n := |worlds| - 1;
      var w := worlds[n];
      assert worlds == worlds[..n] + [w];
      LeftoversFit(facts, fs, plan, referenced, all, candidates, worlds[..n]);
      var before := OfferLeftovers(facts, fs, plan, worlds[..n]);
      if IsLeftover(facts, fs, before.taken, w) {
        var e := Item(w.id, [facts.overlayOf(w.id)], false, true);
        PartitionedMore(before, e);
        assert (set d | d in e.directories) == {facts.overlayOf(w.id)};
        assert EntryFits(facts, all, candidates, referenced, e);
      }
    }
  }

  /** All a plan is: what it offers fits, each directory is offered once, and nothing reclaimable of a
      candidate or of a pruned world is left out. */
  lemma PlanFits(facts: Facts, c: Criteria, worlds: seq<World>, fs: set<Path>)
    ensures var plan := PlanOf(facts, c, worlds, fs);
            var candidates := Candidates(facts, c, worlds);
            var referenced := Referenced(facts, worlds, Ids(candidates));
            && Partitioned(plan)
            && (forall e :: e in plan.entries ==> EntryFits(facts, worlds, candidates, referenced, e))
            && (forall w, d :: w in candidates && d in {w.payload, w.base} && d in fs ==> d in plan.taken || d in referenced)
            && (forall w :: w in candidates && facts.overlayOf(w.id) in fs ==> facts.overlayOf(w.id) in plan.taken)
            && (forall w :: w in worlds && IsHistory(facts, w) && facts.overlayOf(w.id) in fs ==> facts.overlayOf(w.id) in plan.taken)
  {
    var candidates := Candidates(facts, c, worlds);
    var referenced := Referenced(facts, worlds, Ids(candidates));
    OfferAllFits(facts, c, fs, referenced, worlds, candidates, candidates);
    var offered := OfferAll(facts, c, fs, referenced, candidates);
    LeftoversFit(facts, fs, offered, referenced, worlds, candidates, worlds);
  }

  // ----- what applying one keeps

  lemma {:induction false} SweepKeeps(fs: set<Path>, ds: seq<Path>, outcome: Path -> Removal, p: Path)
    requires p in fs && forall d :: d in ds && d in fs ==> !(d <= p)
    ensures p in SweepAll(fs, ds, outcome).fs
  {
    if ds != [] {
      var n := |ds| - 1;
      assert ds[n] in ds && forall d :: d in ds[..n] ==> d in ds;
      SweepKeeps(fs, ds[..n], outcome, p);
      SweepShrinks(fs, ds[..n], outcome);
    }
  }

  lemma {:induction false} SweepShrinks(fs: set<Path>, ds: seq<Path>, outcome: Path -> Removal)
    ensures SweepAll(fs, ds, outcome).fs <= fs
  {
    if ds != [] { SweepShrinks(fs, ds[..|ds| - 1], outcome); }
  }

  lemma EntryKeeps(store: Path, r: Run, e: Item, outcome: Path -> Removal, logsFail: set<string>, p: Path)
    requires p in r.fs && forall d :: d in e.directories && d <= p ==> !Inside(store, d)
    ensures p in ApplyEntry(store, r, e, outcome, logsFail).fs
  {
    if !Outside(store, r.fs, e.directories) {
      forall d | d in e.directories && d in r.fs ensures !(d <= p) {
        var i :| 0 <= i < |e.directories| && e.directories[i] == d;
        assert Inside(store, e.directories[i]);
      }
      SweepKeeps(r.fs, e.directories, outcome, p);
    }
  }

  lemma {:induction false} ApplyKeeps(store: Path, r: Run, entries: seq<Item>, outcome: Path -> Removal,
                                      logsFail: set<string>, p: Path)
    requires p in r.fs && forall e, d :: e in entries && d in e.directories && d <= p ==> !Inside(store, d)
    ensures p in ApplyAll(store, r, entries, outcome, logsFail).fs
  {
    if entries != [] {
      var n := |entries| - 1;
      assert entries[n] in entries && forall e :: e in entries[..n] ==> e in entries;
      ApplyKeeps(store, r, entries[..n], outcome, logsFail, p);
      EntryKeeps(store, ApplyAll(store, r, entries[..n], outcome, logsFail), entries[n], outcome, logsFail, p);
    }
  }

  /** Nothing outside the store is touched, whatever the plan, the layout and the failures. */
  lemma OutsideIsUntouched(store: Path, r: Run, entries: seq<Item>, outcome: Path -> Removal, logsFail: set<string>, p: Path)
    requires p in r.fs && !Inside(store, p)
    ensures p in ApplyAll(store, r, entries, outcome, logsFail).fs
  {
    forall e, d | e in entries && d in e.directories && d <= p ensures !Inside(store, d) {
    }
    ApplyKeeps(store, r, entries, outcome, logsFail, p);
  }

  /** What an application of a plan ends in. */
  function Pruned(store: Path, facts: Facts, c: Criteria, worlds: seq<World>, fs: set<Path>,
                  outcome: Path -> Removal, logsFail: set<string>): Run {
    ApplyAll(store, Run(fs, worlds, facts.logFiles, false), PlanOf(facts, c, worlds, fs).entries, outcome, logsFail)
  }

  lemma InRecorded(facts: Facts, worlds: seq<World>, w: World)
    requires w in worlds
    ensures w.payload in Recorded(facts, worlds) && w.base in Recorded(facts, worlds)
  {
  }

  lemma InReferenced(facts: Facts, worlds: seq<World>, pruning: set<string>, d: Path)
    requires d in Referenced(facts, worlds, pruning)
    ensures d in Recorded(facts, worlds)
  {
  }

  /** What is referenced, and all below it, is kept: for every pattern of failing removals. */
  lemma ReferencedIsKept(store: Path, facts: Facts, c: Criteria, worlds: seq<World>, fs: set<Path>,
                         outcome: Path -> Removal, logsFail: set<string>, d: Path, p: Path)
    requires Layout(facts, worlds) && p in fs && d <= p
    requires d in Referenced(facts, worlds, Ids(Candidates(facts, c, worlds)))
    ensures p in Pruned(store, facts, c, worlds, fs, outcome, logsFail).fs
  {
    var plan := PlanOf(facts, c, worlds, fs);
    var candidates := Candidates(facts, c, worlds);
    var referenced := Referenced(facts, worlds, Ids(candidates));
    PlanFits(facts, c, worlds, fs);
    InReferenced(facts, worlds, Ids(candidates), d);
    forall e, x | e in plan.entries && x in e.directories ensures !(x <= p) {
      OfferedApart(facts, worlds, candidates, referenced, e, x, d);
      if x <= p { PrefixesCompare(x, d, p); }
    }
    ApplyKeeps(store, Run(fs, worlds, facts.logFiles, false), plan.entries, outcome, logsFail, p);
  }

  lemma PrefixesCompare(x: Path, d: Path, p: Path)
    requires d <= p && x <= p
    ensures x <= d || d <= x
  {
    if |x| <= |d| {
      assert x == p[..|x|] == d[..|x|];
    } else {
      assert d == p[..|d|] == x[..|d|];
    }
  }

  lemma OfferedApart(facts: Facts, worlds: seq<World>, candidates: seq<World>, referenced: set<Path>, e: Item, x: Path, d: Path)
    requires Layout(facts, worlds) && EntryFits(facts, worlds, candidates, referenced, e) && x in e.directories
    requires forall w :: w in candidates ==> w in worlds
    requires d in Recorded(facts, worlds)
    ensures Apart(x, d) || (x == d && d !in referenced && !e.leftover)
  {
    if e.leftover {
      var w :| w in worlds && w.id == e.id && e.directories == [facts.overlayOf(w.id)];
      assert x == facts.overlayOf(w.id);
    } else {
      var w :| w in candidates && w.id == e.id && forall d :: d in e.directories ==>
        d == facts.overlayOf(w.id) || (d in {w.payload, w.base} && d !in referenced);
      InRecorded(facts, worlds, w);
      assert w in worlds;
    }
  }

  /** An unpruned world that is no candidate keeps its payload and its base to the last file, and
      its record; so does a live root its directory. */
  lemma PruneIsSafe(store: Path, facts: Facts, c: Criteria, worlds: seq<World>, fs: set<Path>,
                    outcome: Path -> Removal, logsFail: set<string>, w: World)
    requires Layout(facts, worlds) && DistinctIds(worlds)
    requires w in worlds && !w.pruned && w !in Candidates(facts, c, worlds)
    ensures var after := Pruned(store, facts, c, worlds, fs, outcome, logsFail);
            && w in after.worlds
            && (forall p :: p in fs && (w.payload <= p || w.base <= p) ==> p in after.fs)
            && (forall p, d :: p in fs && d in facts.live && d <= p ==> p in after.fs)
  {
    var candidates := Candidates(facts, c, worlds);
    var after := Pruned(store, facts, c, worlds, fs, outcome, logsFail);
    NotAmong(worlds, candidates, w);
    forall p | p in fs && (w.payload <= p || w.base <= p) ensures p in after.fs {
      ReferencedIsKept(store, facts, c, worlds, fs, outcome, logsFail, if w.payload <= p then w.payload else w.base, p);
    }
    forall p, d | p in fs && d in facts.live && d <= p ensures p in after.fs {
      ReferencedIsKept(store, facts, c, worlds, fs, outcome, logsFail, d, p);
    }
    PlanFits(facts, c, worlds, fs);
    var i :| 0 <= i < |worlds| && worlds[i] == w;
    MarkedByEntries(store, Run(fs, worlds, facts.logFiles, false), PlanOf(facts, c, worlds, fs).entries, outcome, logsFail);
    assert after.worlds[i].id == w.id;
    forall e | e in PlanOf(facts, c, worlds, fs).entries && !e.leftover ensures e.id != w.id {
      var x :| x in candidates && x.id == e.id;
    }
  }

  lemma NotAmong(worlds: seq<World>, candidates: seq<World>, w: World)
    requires DistinctIds(worlds) && w in worlds && w !in candidates && forall x :: x in candidates ==> x in worlds
    ensures w.id !in Ids(candidates)
  {
    forall x | x in candidates ensures x.id != w.id {
      var i :| 0 <= i < |worlds| && worlds[i] == w;
      var j :| 0 <= j < |worlds| && worlds[j] == x;
    }
  }

  /** A record changes only by becoming pruned, and only for an entry of its own that is no leftover. */
  ghost predicate MarkedFor(worlds: seq<World>, after: seq<World>, entries: seq<Item>) {
    && |after| == |worlds|
    && forall i :: 0 <= i < |worlds| ==>
         || after[i] == worlds[i]
         || (after[i] == worlds[i].(pruned := true) && exists e :: e in entries && !e.leftover && e.id == worlds[i].id)
  }

  lemma {:induction false} MarkedByEntries(store: Path, r: Run, entries: seq<Item>, outcome: Path -> Removal, logsFail: set<string>)
    ensures MarkedFor(r.worlds, ApplyAll(store, r, entries, outcome, logsFail).worlds, entries)
  {
    if entries != [] {
      var n := |entries| - 1;
      assert entries[n] in entries && forall e :: e in entries[..n] ==> e in entries;
      MarkedByEntries(store, r, entries[..n], outcome, logsFail);
    }
  }

  // ----- no payload is lost without a record

  /** An entry's own directory is removed, or removed in part, only with the world recorded pruned. */
  lemma {:induction false} SweepTells(fs: set<Path>, ds: seq<Path>, outcome: Path -> Removal, d: Path, p: Path)
    requires d in fs && p in fs && d <= p
    requires forall i, j :: 0 <= i < j < |ds| ==> ds[i] != ds[j]
    requires forall x :: x in ds && x != d ==> Apart(x, d)
    ensures var s := SweepAll(fs, ds, outcome);
            && (p !in s.fs ==> d in s.removed || d in s.partial)
            && (d !in ds ==> p in s.fs && d in s.fs)
  {
    if ds != [] {
      var n := |ds| - 1;
      assert ds == ds[..n] + [ds[n]];
      SweepTells(fs, ds[..n], outcome, d, p);
      if ds[n] != d {
        assert ds[n] in ds;
        assert Apart(ds[n], d);
        if ds[n] <= p { PrefixesCompare(ds[n], d, p); }
      } else {
        assert d !in ds[..n];
      }
    }
  }

  lemma OwnIsDistinct(facts: Facts, fs: set<Path>, referenced: set<Path>, taken: set<Path>, w: World)
    ensures var own := Own(facts, fs, referenced, taken, w);
            forall i, j :: 0 <= i < j < |own| ==> own[i] != own[j]
  {
  }

  lemma {:induction false} EntriesAreDistinct(facts: Facts, c: Criteria, fs: set<Path>, referenced: set<Path>, candidates: seq<World>)
    ensures forall e :: e in OfferAll(facts, c, fs, referenced, candidates).entries ==>
              forall i, j :: 0 <= i < j < |e.directories| ==> e.directories[i] != e.directories[j]
  {
    if candidates != [] {
      var n := |candidates| - 1;
      EntriesAreDistinct(facts, c, fs, referenced, candidates[..n]);
      OwnIsDistinct(facts, fs, referenced, OfferAll(facts, c, fs, referenced, candidates[..n]).taken, candidates[n]);
    }
  }

  lemma {:induction false} LeftoversAreDistinct(facts: Facts, fs: set<Path>, plan: Plan, worlds: seq<World>)
    requires forall e :: e in plan.entries ==> forall i, j :: 0 <= i < j < |e.directories| ==> e.directories[i] != e.directories[j]
    ensures forall e :: e in OfferLeftovers(facts, fs, plan, worlds).entries ==>
              forall i, j :: 0 <= i < j < |e.directories| ==> e.directories[i] != e.directories[j]
  {
    if worlds != [] { LeftoversAreDistinct(facts, fs, plan, worlds[..|worlds| - 1]); }
  }

  /** A candidate whose payload is offered in its own entry: if it is not recorded pruned afterwards,
      its payload is whole, whatever failed. */
  lemma NoPayloadLostUnrecorded(store: Path, facts: Facts, c: Criteria, worlds: seq<World>, fs: set<Path>,
                                outcome: Path -> Removal, logsFail: set<string>, w: World, k: nat, p: Path)
    requires Layout(facts, worlds) && DistinctIds(worlds) && w in worlds && !w.pruned
    requires var entries := PlanOf(facts, c, worlds, fs).entries;
             k < |entries| && entries[k].id == w.id && !entries[k].leftover && w.payload in entries[k].directories
    requires w.payload in fs && p in fs && w.payload <= p
    requires w in Pruned(store, facts, c, worlds, fs, outcome, logsFail).worlds
    ensures p in Pruned(store, facts, c, worlds, fs, outcome, logsFail).fs
  {
    var plan := PlanOf(facts, c, worlds, fs);
    var r := Run(fs, worlds, facts.logFiles, false);
    PlanIsDistinct(facts, c, worlds, fs);
    OthersApart(facts, c, worlds, fs, w);
    OwnEntryTells(store, r, plan.entries, outcome, logsFail, w, k, p, |plan.entries|);
    assert plan.entries[..|plan.entries|] == plan.entries;
    MarkedByEntries(store, r, plan.entries, outcome, logsFail);
    SameRecord(worlds, ApplyAll(store, r, plan.entries, outcome, logsFail).worlds, plan.entries, w);
  }

  lemma PlanIsDistinct(facts: Facts, c: Criteria, worlds: seq<World>, fs: set<Path>)
    requires Layout(facts, worlds) && DistinctIds(worlds)
    ensures var entries := PlanOf(facts, c, worlds, fs).entries;
            && (forall i, j, d :: 0 <= i < j < |entries| && d in entries[i].directories ==> d !in entries[j].directories)
            && forall e :: e in entries ==> forall i, j :: 0 <= i < j < |e.directories| ==> e.directories[i] != e.directories[j]
  {
    var candidates := Candidates(facts, c, worlds);
    var referenced := Referenced(facts, worlds, Ids(candidates));
    PlanFits(facts, c, worlds, fs);
    EntriesAreDistinct(facts, c, fs, referenced, candidates);
    LeftoversAreDistinct(facts, fs, OfferAll(facts, c, fs, referenced, candidates), worlds);
  }

  lemma OthersApart(facts: Facts, c: Criteria, worlds: seq<World>, fs: set<Path>, w: World)
    requires Layout(facts, worlds) && DistinctIds(worlds) && w in worlds && !w.pruned
    ensures forall e, x :: e in PlanOf(facts, c, worlds, fs).entries && x in e.directories && x != w.payload ==> Apart(x, w.payload)
  {
    var candidates := Candidates(facts, c, worlds);
    var referenced := Referenced(facts, worlds, Ids(candidates));
    PlanFits(facts, c, worlds, fs);
    InRecorded(facts, worlds, w);
    forall e, x | e in PlanOf(facts, c, worlds, fs).entries && x in e.directories && x != w.payload
      ensures Apart(x, w.payload)
    {
      OfferedApart(facts, worlds, candidates, referenced, e, x, w.payload);
    }
  }

  lemma SameRecord(worlds: seq<World>, after: seq<World>, entries: seq<Item>, w: World)
    requires DistinctIds(worlds) && w in worlds && !w.pruned && w in after && MarkedFor(worlds, after, entries)
    ensures forall x :: x in after && x.id == w.id ==> !x.pruned
  {
    var i :| 0 <= i < |after| && after[i] == w;
    forall x | x in after && x.id == w.id ensures !x.pruned {
      var j :| 0 <= j < |after| && after[j] == x;
      assert worlds[i].id == worlds[j].id;
    }
  }

  lemma {:induction false} OwnEntryTells(store: Path, r: Run, entries: seq<Item>, outcome: Path -> Removal,
                                         logsFail: set<string>, w: World, k: nat, p: Path, n: nat)
    requires k < |entries| && n <= |entries|
    requires DistinctIds(r.worlds) && w in r.worlds && !w.pruned
    requires entries[k].id == w.id && !entries[k].leftover && w.payload in entries[k].directories
    requires w.payload in r.fs && p in r.fs && w.payload <= p
    requires forall i, j, d :: 0 <= i < j < |entries| && d in entries[i].directories ==> d !in entries[j].directories
    requires forall e, x :: e in entries && x in e.directories && x != w.payload ==> Apart(x, w.payload)
    requires forall e :: e in entries ==> forall i, j :: 0 <= i < j < |e.directories| ==> e.directories[i] != e.directories[j]
    ensures var s := ApplyAll(store, r, entries[..n], outcome, logsFail);
            && (n <= k ==> p in s.fs && w.payload in s.fs)
            && (p in s.fs || exists x :: x in s.worlds && x.id == w.id && x.pruned)
  {
    if n > 0 {
      var m := n - 1;
      OwnEntryTells(store, r, entries, outcome, logsFail, w, k, p, m);
      ApplyMore(store, r, entries, m, outcome, logsFail);
      var s := ApplyAll(store, r, entries[..m], outcome, logsFail);
      MarkedByEntries(store, r, entries[..m], outcome, logsFail);
      if m == k {
        OwnEntry(store, r, s, entries[..m], entries[k], outcome, logsFail, w, p);
      } else {
        OtherEntry(store, s, entries[m], outcome, logsFail, w, p);
      }
    }
  }

  /** Another world's entry leaves the payload, and whatever is recorded pruned. */
  lemma OtherEntry(store: Path, s: Run, e: Item, outcome: Path -> Removal, logsFail: set<string>, w: World, p: Path)
    requires w.payload <= p && forall x :: x in e.directories ==> Apart(x, w.payload)
    ensures var t := ApplyEntry(store, s, e, outcome, logsFail);
            && (p in s.fs ==> p in t.fs) && (w.payload in s.fs ==> w.payload in t.fs)
            && ((exists x :: x in s.worlds && x.id == w.id && x.pruned) ==> exists x :: x in t.worlds && x.id == w.id && x.pruned)
  {
    var t := ApplyEntry(store, s, e, outcome, logsFail);
    forall x | x in e.directories ensures !(x <= p) {
      if x <= p { PrefixesCompare(x, w.payload, p); }
    }
    if p in s.fs { EntryKeeps(store, s, e, outcome, logsFail, p); }
    if w.payload in s.fs { EntryKeeps(store, s, e, outcome, logsFail, w.payload); }
    if exists x :: x in s.worlds && x.id == w.id && x.pruned {
      var x :| x in s.worlds && x.id == w.id && x.pruned;
      var i :| 0 <= i < |s.worlds| && s.worlds[i] == x;
      assert t.worlds[i] == x;
    }
  }

  lemma OwnEntry(store: Path, r: Run, s: Run, before: seq<Item>, e: Item, outcome: Path -> Removal, logsFail: set<string>,
                 w: World, p: Path)
    requires DistinctIds(r.worlds) && w in r.worlds && MarkedFor(r.worlds, s.worlds, before)
    requires e.id == w.id && !e.leftover && w.payload in e.directories
    requires w.payload in s.fs && p in s.fs && w.payload <= p
    requires forall x :: x in e.directories && x != w.payload ==> Apart(x, w.payload)
    requires forall i, j :: 0 <= i < j < |e.directories| ==> e.directories[i] != e.directories[j]
    ensures var t := ApplyEntry(store, s, e, outcome, logsFail);
            p in t.fs || exists x :: x in t.worlds && x.id == w.id && x.pruned
  {
    var k :| 0 <= k < |r.worlds| && r.worlds[k] == w;
    assert s.worlds[k].id == w.id;
    if !Outside(store, s.fs, e.directories) {
      SweepTells(s.fs, e.directories, outcome, w.payload, p);
      var found := Find(s.worlds, e.id);
      var j :| 0 <= j < |s.worlds| && s.worlds[j] == found;
      assert r.worlds[j].id == r.worlds[k].id;
      assert found.payload == w.payload;
      var t := ApplyEntry(store, s, e, outcome, logsFail);
      if p !in t.fs {
        assert t.worlds[k].pruned && t.worlds[k] in t.worlds;
      }
    }
  }
}
