/** Prune: deleting the payloads of finished worlds nothing living refers to. */
module Prune {
  import opened Wrappers
  import opened Trees
  import opened Worlds

  /** A world as recorded; its payload and its base are real paths, the base often another's payload. */
  datatype World = World(id: string, parent: Option<string>, state: WorldState, finished: int,
                         payload: Path, base: Path, pruned: bool)

  predicate Prunable(state: WorldState) {
    state.ARCHIVED? || state.DEAD? || state.DEGRADED? || state.COLLAPSED?
  }

  /** What one removal of a directory does: all of it, none of it, or some of it and an error. */
  datatype Removal = Removed | Nothing | Part(gone: set<Path>)

  predicate Inside(store: Path, p: Path) {
    store < p
  }

  ghost predicate Apart(a: Path, b: Path) {
    !(a <= b) && !(b <= a)
  }

  // ----- the store as prune sees it

  /** What a plan depends on besides the directories that exist. */
  datatype Facts = Facts(prime: Option<World>, active: set<string>, live: set<Path>,
                         overlayOf: string -> Path, logFiles: set<string>)

  datatype Criteria = Criteria(cutoff: Option<int>, keep: Option<int>, logs: bool)

  predicate IsProtected(facts: Facts, id: string) {
    facts.prime.Some? && (facts.prime.value.id == id || facts.prime.value.parent == Some(id))
  }

  predicate Eligible(facts: Facts, c: Criteria, w: World) {
    && Prunable(w.state) && !w.pruned && !IsProtected(facts, w.id) && w.id !in facts.active
    && (c.cutoff.None? || w.finished < c.cutoff.value)
  }

  function Filter(ws: seq<World>, f: World -> bool): (kept: seq<World>)
    ensures forall w :: w in kept <==> w in ws && f(w)
  {
    if ws == [] then []
    else
      var last := ws[|ws| - 1];
      assert ws == ws[..|ws| - 1] + [last];
      Filter(ws[..|ws| - 1], f) + if f(last) then [last] else []
  }

  /** After those that finished no later: the order of a stable sort. */
  function Insert(sorted: seq<World>, w: World): (r: seq<World>)
    ensures forall x :: x in r <==> x in sorted || x == w
  {
    if sorted == [] then [w]
    else
      var last := sorted[|sorted| - 1];
      assert sorted == sorted[..|sorted| - 1] + [last];
      if last.finished <= w.finished then sorted + [w]
      else Insert(sorted[..|sorted| - 1], w) + [last]
  }

  function Sorted(ws: seq<World>): (r: seq<World>)
    ensures forall x :: x in r <==> x in ws
  {
    if ws == [] then []
    else
      assert ws == ws[..|ws| - 1] + [ws[|ws| - 1]];
      Insert(Sorted(ws[..|ws| - 1]), ws[|ws| - 1])
  }

  function AllButNewest(ws: seq<World>, keep: Option<int>): (r: seq<World>)
    ensures r <= ws
  {
    if keep.None? || keep.value <= 0 then ws
    else if |ws| <= keep.value then []
    else ws[..|ws| - keep.value]
  }

  function AllEligible(facts: Facts, c: Criteria, worlds: seq<World>): (eligible: seq<World>)
    ensures forall w :: w in eligible <==> w in worlds && Eligible(facts, c, w)
  {
    Filter(worlds, (w: World) => Eligible(facts, c, w))
  }

  function Candidates(facts: Facts, c: Criteria, worlds: seq<World>): (candidates: seq<World>)
    ensures forall w :: w in candidates ==> w in worlds && Eligible(facts, c, w)
  {
    var sorted := Sorted(AllEligible(facts, c, worlds));
    var candidates := AllButNewest(sorted, c.keep);
    assert forall w :: w in candidates ==> w in sorted;
    candidates
  }

  function Ids(ws: seq<World>): set<string> {
    set w | w in ws :: w.id
  }

  function Payloads(worlds: seq<World>, pruning: set<string>): set<Path> {
    (set w | w in worlds && w.id !in pruning && !w.pruned :: w.payload) +
    (set w | w in worlds && w.id !in pruning && !w.pruned :: w.base)
  }

  /** Own and base payloads of the unpruned worlds that stay, and the directories of live roots. */
  function Referenced(facts: Facts, worlds: seq<World>, pruning: set<string>): set<Path> {
    Payloads(worlds, pruning) + facts.live
  }

  // ----- the plan

  datatype Item = Item(id: string, directories: seq<Path>, logs: bool, leftover: bool)

  datatype Plan = Plan(entries: seq<Item>, taken: set<Path>)

  predicate Offers(fs: set<Path>, referenced: set<Path>, taken: set<Path>, d: Path) {
    d !in referenced && d !in taken && d in fs
  }

  /** The directories offered for one candidate. */
  function Own(facts: Facts, fs: set<Path>, referenced: set<Path>, taken: set<Path>, w: World): (own: seq<Path>)
    ensures forall d :: d in own ==> d in fs && d !in taken
    ensures forall d :: d in own ==> d == facts.overlayOf(w.id) || (d in {w.payload, w.base} && d !in referenced)
    ensures forall d | d in {w.payload, w.base} && d in fs :: d in own || d in taken || d in referenced
    ensures facts.overlayOf(w.id) in fs ==> facts.overlayOf(w.id) in own || facts.overlayOf(w.id) in taken
  {
    var a := if Offers(fs, referenced, taken, w.payload) then [w.payload] else [];
    var b := if Offers(fs, referenced, taken, w.base) && w.base !in a then [w.base] else [];
    var overlay := facts.overlayOf(w.id);
    var o := if overlay in fs && overlay !in taken && overlay !in a + b then [overlay] else [];
    a + b + o
  }

  function Offer(facts: Facts, c: Criteria, fs: set<Path>, referenced: set<Path>, plan: Plan, w: World): Plan {
    var own := Own(facts, fs, referenced, plan.taken, w);
    var logs := c.logs && w.id in facts.logFiles;
    if own == [] && !logs then plan
    else Plan(plan.entries + [Item(w.id, own, logs, false)], plan.taken + set d | d in own)
  }

  function OfferAll(facts: Facts, c: Criteria, fs: set<Path>, referenced: set<Path>, candidates: seq<World>): Plan {
    if candidates == [] then Plan([], {})
    else
      var n := |candidates| - 1;
      Offer(facts, c, fs, referenced, OfferAll(facts, c, fs, referenced, candidates[..n]), candidates[n])
  }

  predicate IsHistory(facts: Facts, w: World) {
    w.pruned && !IsProtected(facts, w.id) && w.id !in facts.active
  }

  /** A pruned world's overlay that is still there. */
  predicate IsLeftover(facts: Facts, fs: set<Path>, taken: set<Path>, w: World) {
    IsHistory(facts, w) && facts.overlayOf(w.id) in fs && facts.overlayOf(w.id) !in taken
  }

  function OfferLeftover(facts: Facts, fs: set<Path>, plan: Plan, w: World): Plan {
    if !IsLeftover(facts, fs, plan.taken, w) then plan
    else
      var overlay := facts.overlayOf(w.id);
      Plan(plan.entries + [Item(w.id, [overlay], false, true)], plan.taken + {overlay})
  }

  function OfferLeftovers(facts: Facts, fs: set<Path>, plan: Plan, worlds: seq<World>): Plan {
    if worlds == [] then plan
    else OfferLeftover(facts, fs, OfferLeftovers(facts, fs, plan, worlds[..|worlds| - 1]), worlds[|worlds| - 1])
  }

  function PlanOf(facts: Facts, c: Criteria, worlds: seq<World>, fs: set<Path>): Plan {
    var candidates := Candidates(facts, c, worlds);
    var referenced := Referenced(facts, worlds, Ids(candidates));
    OfferLeftovers(facts, fs, OfferAll(facts, c, fs, referenced, candidates), worlds)
  }

  // ----- removing

  function RemoveDir(fs: set<Path>, d: Path, outcome: Removal): (after: set<Path>)
    ensures after <= fs
    ensures forall p :: p in fs && p !in after ==> d <= p
  {
    match outcome
    case Removed => set p | p in fs && !(d <= p)
    case Nothing => fs
    case Part(gone) => set p | p in fs && !(d <= p && p in gone)
  }

  datatype Sweep = Sweep(fs: set<Path>, removed: seq<Path>, partial: seq<Path>, untouched: seq<Path>)

  function SweepOne(s: Sweep, d: Path, outcome: Path -> Removal): Sweep {
    if d !in s.fs then s
    else
      var fs := RemoveDir(s.fs, d, outcome(d));
      match outcome(d)
      case Removed => s.(fs := fs, removed := s.removed + [d])
      case Nothing => s.(untouched := s.untouched + [d])
      case Part(_) => s.(fs := fs, partial := s.partial + [d])
  }

  function SweepAll(fs: set<Path>, ds: seq<Path>, outcome: Path -> Removal): Sweep {
    if ds == [] then Sweep(fs, [], [], [])
    else SweepOne(SweepAll(fs, ds[..|ds| - 1], outcome), ds[|ds| - 1], outcome)
  }

  predicate Outside(store: Path, fs: set<Path>, ds: seq<Path>) {
    exists i | 0 <= i < |ds| :: ds[i] in fs && !Inside(store, ds[i])
  }

  /** The state an application of a plan works through. */
  datatype Run = Run(fs: set<Path>, worlds: seq<World>, logFiles: set<string>, failed: bool)

  function MarkPruned(worlds: seq<World>, id: string): (r: seq<World>)
    ensures |r| == |worlds|
    ensures forall i :: 0 <= i < |worlds| ==>
              r[i] == if worlds[i].id == id then worlds[i].(pruned := true) else worlds[i]
  {
    if worlds == [] then []
    else
      var n := |worlds| - 1;
      MarkPruned(worlds[..n], id) + [if worlds[n].id == id then worlds[n].(pruned := true) else worlds[n]]
  }

  function Find(worlds: seq<World>, id: string): (w: World)
    requires exists i :: 0 <= i < |worlds| && worlds[i].id == id
    ensures w in worlds && w.id == id
  {
    if worlds[|worlds| - 1].id == id then worlds[|worlds| - 1]
    else Find(worlds[..|worlds| - 1], id)
  }

  predicate HasWorld(worlds: seq<World>, id: string) {
    exists i | 0 <= i < |worlds| :: worlds[i].id == id
  }

  /** The payload is whole: it could not be touched, or it was not this world's to offer. */
  predicate PayloadStays(s: Sweep, payload: Path) {
    payload in s.fs && payload !in s.removed && payload !in s.partial
  }

  function ApplyEntry(store: Path, r: Run, e: Item, outcome: Path -> Removal, logsFail: set<string>): Run {
    if Outside(store, r.fs, e.directories) || !HasWorld(r.worlds, e.id) then r.(failed := true)
    else
      var s := SweepAll(r.fs, e.directories, outcome);
      var failed := r.failed || s.partial != [] || s.untouched != [];
      if e.leftover || PayloadStays(s, Find(r.worlds, e.id).payload) then r.(fs := s.fs, failed := failed)
      else
        var unlinked := e.logs && e.id !in logsFail;
        Run(s.fs, MarkPruned(r.worlds, e.id), if unlinked then r.logFiles - {e.id} else r.logFiles,
            failed || (e.logs && !unlinked))
  }

  function ApplyAll(store: Path, r: Run, entries: seq<Item>, outcome: Path -> Removal, logsFail: set<string>): Run {
    if entries == [] then r
    else
      var n := |entries| - 1;
      ApplyEntry(store, ApplyAll(store, r, entries[..n], outcome, logsFail), entries[n], outcome, logsFail)
  }

  /** The worlds of these ids are recorded as pruned, and nothing else is changed. */
  ghost predicate MarkedAre(before: seq<World>, after: seq<World>, ids: seq<string>) {
    && |after| == |before|
    && forall i :: 0 <= i < |before| ==>
         after[i] == if before[i].id in ids then before[i].(pruned := true) else before[i]
  }

  lemma MarkedMore(before: seq<World>, now: seq<World>, after: seq<World>, ids: seq<string>, id: string)
    requires MarkedAre(before, now, ids)
    ensures after == now ==> MarkedAre(before, after, ids)
    ensures after == MarkPruned(now, id) ==> MarkedAre(before, after, ids + [id])
  {
  }

  // ----- the component

  class Pruner {
    const store: Path
    var facts: Facts
    var worlds: seq<World>
    var fs: set<Path>

    constructor (store: Path, facts: Facts, worlds: seq<World>, fs: set<Path>)
      ensures this.store == store && this.facts == facts && this.worlds == worlds && this.fs == fs
    {
      this.store := store;
      this.facts := facts;
      this.worlds := worlds;
      this.fs := fs;
    }

    /** `plan`. A prepared transaction, or a root whose link does not route, refuses it. */
    method MakePlan(c: Criteria, openTransactions: bool, rootsRoute: bool) returns (plan: Result<Plan>)
      ensures plan.Ok? <==> !openTransactions && rootsRoute
      ensures plan.Ok? ==> plan.value == PlanOf(facts, c, worlds, fs)
    {
      if openTransactions {
        return Refused("PRUNE_BLOCKED");
      }
      var eligible := FindEligible(c);
      var candidates := AllButNewest(Sorted(eligible), c.keep);
      var payloads := FindPayloads(Ids(candidates));
      if !rootsRoute {
        return Refused("LIVE_MAPPING_BROKEN");
      }
      var offered := OfferCandidates(c, payloads + facts.live, candidates);
      var drafted := OfferLeft(offered);
      return Ok(drafted);
    }

    method FindEligible(c: Criteria) returns (eligible: seq<World>)
      ensures eligible == AllEligible(facts, c, worlds)
    {
      eligible := [];
      for n := 0 to |worlds|
        invariant eligible == AllEligible(facts, c, worlds[..n])
      {
        assert worlds[..n + 1][..n] == worlds[..n];
        if Eligible(facts, c, worlds[n]) {
          eligible := eligible + [worlds[n]];
        }
      }
      assert worlds[..|worlds|] == worlds;
    }

    method FindPayloads(pruning: set<string>) returns (payloads: set<Path>)
      ensures payloads == Payloads(worlds, pruning)
    {
      payloads := {};
      for n := 0 to |worlds|
        invariant payloads == Payloads(worlds[..n], pruning)
      {
        var w := worlds[n];
        assert worlds[..n + 1] == worlds[..n] + [w];
        if w.id in pruning || w.pruned {
          continue;
        }
        payloads := payloads + {w.payload, w.base};
      }
      assert worlds[..|worlds|] == worlds;
    }

    method OfferCandidates(c: Criteria, referenced: set<Path>, candidates: seq<World>) returns (drafted: Plan)
      ensures drafted == OfferAll(facts, c, fs, referenced, candidates)
    {
      drafted := Plan([], {});
      for n := 0 to |candidates|
        invariant drafted == OfferAll(facts, c, fs, referenced, candidates[..n])
      {
        assert candidates[..n + 1][..n] == candidates[..n];
        var own := Own(facts, fs, referenced, drafted.taken, candidates[n]);
        var logs := c.logs && candidates[n].id in facts.logFiles;
        if own == [] && !logs {
          continue;
        }
        drafted := Plan(drafted.entries + [Item(candidates[n].id, own, logs, false)], drafted.taken + set d | d in own);
      }
      assert candidates[..|candidates|] == candidates;
    }

    method OfferLeft(offered: Plan) returns (drafted: Plan)
      ensures drafted == OfferLeftovers(facts, fs, offered, worlds)
    {
      drafted := offered;
      for n := 0 to |worlds|
        invariant drafted == OfferLeftovers(facts, fs, offered, worlds[..n])
      {
        assert worlds[..n + 1][..n] == worlds[..n];
        if IsLeftover(facts, fs, drafted.taken, worlds[n]) {
          var overlay := facts.overlayOf(worlds[n].id);
          drafted := Plan(drafted.entries + [Item(worlds[n].id, [overlay], false, true)], drafted.taken + {overlay});
        }
      }
      assert worlds[..|worlds|] == worlds;
    }

    function Now(failed: bool): Run
      reads this
    {
      Run(fs, worlds, facts.logFiles, failed)
    }

    /** `apply`, with the outcome of each removal. */
    method Apply(plan: Plan, outcome: Path -> Removal, logsFail: set<string>)
        returns (pruned: seq<string>, failed: bool)
      requires forall e :: e in plan.entries ==> HasWorld(worlds, e.id)
      modifies this
      ensures Now(failed) == ApplyAll(store, old(Now(false)), plan.entries, outcome, logsFail)
      ensures facts == old(facts).(logFiles := facts.logFiles)
      ensures MarkedAre(old(worlds), worlds, pruned)
    {
      pruned, failed := [], false;
      ghost var start := Now(false);
      for n := 0 to |plan.entries|
        invariant Now(failed) == ApplyAll(store, start, plan.entries[..n], outcome, logsFail)
        invariant facts == old(facts).(logFiles := facts.logFiles)
        invariant forall e :: e in plan.entries ==> HasWorld(worlds, e.id)
        invariant MarkedAre(old(worlds), worlds, pruned)
      {
        var e := plan.entries[n];
        ApplyMore(store, start, plan.entries, n, outcome, logsFail);
        ghost var before := worlds;
        var marked, bad := ApplyOne(e, failed, outcome, logsFail);
        MarkKeepsIds(before, worlds, e.id, plan.entries);
        failed := bad;
        MarkedMore(old(worlds), before, worlds, pruned, e.id);
        if marked {
          pruned := pruned + [e.id];
        }
      }
      assert plan.entries[..|plan.entries|] == plan.entries;
    }

    method ApplyOne(e: Item, failedBefore: bool, outcome: Path -> Removal, logsFail: set<string>)
        returns (marked: bool, failed: bool)
      requires HasWorld(worlds, e.id)
      modifies this
      ensures Now(failed) == ApplyEntry(store, old(Now(failedBefore)), e, outcome, logsFail)
      ensures facts == old(facts).(logFiles := facts.logFiles)
      ensures worlds == if marked then MarkPruned(old(worlds), e.id) else old(worlds)
    {
      var world := Find(worlds, e.id);
      if Outside(store, fs, e.directories) {
        return false, true;
      }
      var removed: seq<Path>, partial: seq<Path>, untouched: seq<Path> := [], [], [];
      for n := 0 to |e.directories|
        invariant Sweep(fs, removed, partial, untouched) == SweepAll(old(fs), e.directories[..n], outcome)
        invariant facts == old(facts) && worlds == old(worlds)
      {
        assert e.directories[..n + 1][..n] == e.directories[..n];
        var d := e.directories[n];
        if d !in fs {
          continue;
        }
        fs := RemoveDir(fs, d, outcome(d));
        match outcome(d) {
          case Nothing => untouched := untouched + [d];
          case Part(_) => partial := partial + [d];
          case Removed => removed := removed + [d];
        }
      }
      assert e.directories[..|e.directories|] == e.directories;
      failed := failedBefore || partial != [] || untouched != [];
      if e.leftover {
        return false, failed;
      }
      if world.payload in fs && world.payload !in removed && world.payload !in partial {
        return false, failed;
      }
      if e.logs {
        if e.id in logsFail {
          failed := true;
        } else {
          facts := facts.(logFiles := facts.logFiles - {e.id});
        }
      }
      worlds := MarkPruned(worlds, e.id);
      return true, failed;
    }
  }

  lemma ApplyMore(store: Path, r: Run, entries: seq<Item>, n: nat, outcome: Path -> Removal, logsFail: set<string>)
    requires n < |entries|
    ensures ApplyAll(store, r, entries[..n + 1], outcome, logsFail)
            == ApplyEntry(store, ApplyAll(store, r, entries[..n], outcome, logsFail), entries[n], outcome, logsFail)
  {
    assert entries[..n + 1][..n] == entries[..n];
  }

  lemma MarkKeepsIds(before: seq<World>, after: seq<World>, id: string, entries: seq<Item>)
    requires after == before || after == MarkPruned(before, id)
    requires forall e :: e in entries ==> HasWorld(before, e.id)
    ensures forall e :: e in entries ==> HasWorld(after, e.id)
  {
    forall e | e in entries ensures HasWorld(after, e.id) {
      var i :| 0 <= i < |before| && before[i].id == e.id;
      assert after[i].id == e.id;
    }
  }
}
