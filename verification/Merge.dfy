/** The three-way merge on values: what it computes, and the laws a collapse rests on. */
module Merge {
  import opened Wrappers
  import opened Trees

  predicate Touched(base: Entries, other: Entries, p: Path) {
    !Same(Lookup(base, p), Lookup(other, p))
  }

  predicate RootTouched(base: Manifest, other: Manifest) {
    !SameRoot(base.root, other.root)
  }

  predicate ConflictAt(base: Entries, current: Entries, candidate: Entries, p: Path) {
    Touched(base, candidate, p) && Touched(base, current, p)
  }

  predicate RootConflict(base: Manifest, current: Manifest, candidate: Manifest) {
    RootTouched(base, candidate) && RootTouched(base, current)
  }

  ghost predicate ConflictFree(base: Manifest, current: Manifest, candidate: Manifest) {
    && !RootConflict(base, current, candidate)
    && forall p :: !ConflictAt(base.entries, current.entries, candidate.entries, p)
  }

  /** What the candidate changed comes from the candidate, everything else from current. */
  function MergedEntries(base: Entries, current: Entries, candidate: Entries): (r: Entries)
    ensures forall p :: Lookup(r, p) ==
                        if Touched(base, candidate, p) then Lookup(candidate, p) else Lookup(current, p)
  {
    map p | p in current.Keys + candidate.Keys
            && (if Touched(base, candidate, p) then p in candidate else p in current)
      :: if Touched(base, candidate, p) then candidate[p] else current[p]
  }

  function Merged(base: Manifest, current: Manifest, candidate: Manifest): Manifest {
    Manifest(current.rootKey,
             if RootTouched(base, candidate) then candidate.root else current.root,
             MergedEntries(base.entries, current.entries, candidate.entries))
  }

  ghost predicate SameManifest(a: Manifest, b: Manifest) {
    SameRoot(a.root, b.root) && SameEntries(a.entries, b.entries)
  }

  // ----- laws of one merge

  /** Swapping current and candidate changes neither whether there is a conflict nor, without one,
      the merged tree up to directory mtimes. */
  lemma MergeIsSymmetric(base: Manifest, current: Manifest, candidate: Manifest)
    ensures ConflictFree(base, current, candidate) <==> ConflictFree(base, candidate, current)
    ensures ConflictFree(base, current, candidate) ==>
              SameManifest(Merged(base, current, candidate), Merged(base, candidate, current))
  {
    var b, c, d := base.entries, current.entries, candidate.entries;
    assert forall p :: ConflictAt(b, c, d, p) <==> ConflictAt(b, d, c, p);
    if ConflictFree(base, current, candidate) {
      forall p
        ensures Same(Lookup(MergedEntries(b, c, d), p), Lookup(MergedEntries(b, d, c), p))
      {
        assert !ConflictAt(b, c, d, p);
      }
    }
  }

  /** Onto a base that has not moved, the merge is the candidate. */
  lemma MergeOntoUnmovedBase(base: Manifest, current: Manifest, candidate: Manifest)
    requires SameManifest(base, current)
    ensures ConflictFree(base, current, candidate)
    ensures SameManifest(Merged(base, current, candidate), candidate)
  {
    var b, c, d := base.entries, current.entries, candidate.entries;
    forall p
      ensures !ConflictAt(b, c, d, p)
      ensures Same(Lookup(MergedEntries(b, c, d), p), Lookup(d, p))
    {
      assert Same(Lookup(b, p), Lookup(c, p));
    }
  }

  // ----- hard links

  /** The members of a group change together: one member untouched means all are. */
  lemma GroupTouchedTogether(base: Entries, other: Entries, p: Path, q: Path)
    requires GroupsWellFormed(base) && GroupsWellFormed(other)
    requires p in other && other[p].File? && other[p].group.Some? && q in other[p].group.value
    ensures !Touched(base, other, q) ==> !Touched(base, other, p)
  {
    assert GroupAt(other, p);
    if !Touched(base, other, q) {
      assert Same(Lookup(base, q), Lookup(other, q));
      assert GroupAt(base, q);
    }
  }

  /** Under no conflict, the members of a merged group are all the candidate's or all current's. */
  lemma GroupFromOneSide(base: Manifest, current: Manifest, candidate: Manifest, p: Path)
    requires GroupsWellFormed(base.entries) && GroupsWellFormed(current.entries)
    requires GroupsWellFormed(candidate.entries)
    requires ConflictFree(base, current, candidate)
    requires var m := Merged(base, current, candidate).entries;
             p in m && m[p].File? && m[p].group.Some?
    ensures var m := Merged(base, current, candidate).entries;
            forall q :: q in m[p].group.value ==>
              (Touched(base.entries, candidate.entries, q) <==> Touched(base.entries, candidate.entries, p))
  {
    var b, c, d := base.entries, current.entries, candidate.entries;
    var m := MergedEntries(b, c, d);
    assert Lookup(m, p) == Some(m[p]);
    forall q | q in m[p].group.value
      ensures Touched(b, d, q) <==> Touched(b, d, p)
    {
      assert !ConflictAt(b, c, d, p) && !ConflictAt(b, c, d, q);
      if Touched(b, d, p) {
        GroupTouchedTogether(b, d, p, q);
      } else {
        GroupTouchedTogether(b, c, p, q);
        if !Touched(b, c, q) {
          // p is then the same on all three sides, and so its group is candidate's too.
          assert Same(Lookup(b, p), Lookup(c, p)) && Same(Lookup(b, p), Lookup(d, p));
          assert GroupAt(d, p);
          GroupTouchedTogether(b, d, q, p);
        }
      }
    }
  }

  /** Hard links survive a conflict-free merge: its groups are well formed again, so a group that
      the materializer links never mixes two sources. */
  lemma HardLinksSurviveMerge(base: Manifest, current: Manifest, candidate: Manifest)
    requires GroupsWellFormed(base.entries) && GroupsWellFormed(current.entries)
    requires GroupsWellFormed(candidate.entries)
    requires ConflictFree(base, current, candidate)
    ensures GroupsWellFormed(Merged(base, current, candidate).entries)
  {
    var b, c, d := base.entries, current.entries, candidate.entries;
    var m := MergedEntries(b, c, d);
    forall p | p in m && m[p].File? && m[p].group.Some?
      ensures GroupAt(m, p)
    {
      GroupFromOneSide(base, current, candidate, p);
      assert Lookup(m, p) == Some(m[p]);
      if Touched(b, d, p) {
        assert GroupAt(d, p);
        forall q | q in m[p].group.value ensures q in m && m[q] == m[p] {
          assert Lookup(m, q) == Lookup(d, q);
        }
      } else {
        assert GroupAt(c, p);
        forall q | q in m[p].group.value ensures q in m && m[q] == m[p] {
          assert Lookup(m, q) == Lookup(c, q);
        }
      }
    }
  }

  // ----- parent closure

  /** `p` is new on one side, directly inside a base directory the other side deleted or replaced. */
  ghost predicate OrphanedBy(base: Entries, adder: Entries, remover: Entries, p: Path) {
    && |p| > 1 && p !in base && p in adder
    && IsDirectory(base, Parent(p)) && !IsDirectory(remover, Parent(p))
  }

  ghost predicate Orphaned(base: Entries, current: Entries, candidate: Entries) {
    exists p :: OrphanedBy(base, current, candidate, p) || OrphanedBy(base, candidate, current, p)
  }

  /** The merge reports no conflict for an entry added under a directory the other side removed;
      this is exactly when the merged tree is not parent-closed. */
  lemma ParentClosureOfMerge(base: Manifest, current: Manifest, candidate: Manifest)
    requires ParentClosed(base.entries) && ParentClosed(current.entries) && ParentClosed(candidate.entries)
    requires ConflictFree(base, current, candidate)
    ensures ParentClosed(Merged(base, current, candidate).entries)
            <==> !Orphaned(base.entries, current.entries, candidate.entries)
  {
    var b, c, d := base.entries, current.entries, candidate.entries;
    var m := MergedEntries(b, c, d);
    if p :| p in m && |p| > 1 && !IsDirectory(m, Parent(p)) {
      UnclosedIsOrphaned(base, current, candidate, p);
    }
    if p :| OrphanedBy(b, c, d, p) || OrphanedBy(b, d, c, p) {
      OrphanedIsUnclosed(base, current, candidate, p);
    }
  }

  lemma UnclosedIsOrphaned(base: Manifest, current: Manifest, candidate: Manifest, p: Path)
    requires ParentClosed(base.entries) && ParentClosed(current.entries) && ParentClosed(candidate.entries)
    requires ConflictFree(base, current, candidate)
    requires |p| > 1 && p in Merged(base, current, candidate).entries
    requires !IsDirectory(Merged(base, current, candidate).entries, Parent(p))
    ensures OrphanedBy(base.entries, current.entries, candidate.entries, p)
            || OrphanedBy(base.entries, candidate.entries, current.entries, p)
  {
    var b, c, d := base.entries, current.entries, candidate.entries;
    var m, up := MergedEntries(b, c, d), Parent(p);
    assert !ConflictAt(b, c, d, p) && !ConflictAt(b, c, d, up);
    assert Lookup(m, p) == if Touched(b, d, p) then Lookup(d, p) else Lookup(c, p);
    assert Lookup(m, up) == if Touched(b, d, up) then Lookup(d, up) else Lookup(c, up);
    if Touched(b, d, p) {
      assert p in d && IsDirectory(d, up);
      assert !Touched(b, d, up) && !IsDirectory(c, up);
      assert p !in c;
      assert OrphanedBy(b, d, c, p);
    } else {
      assert p in c && IsDirectory(c, up);
      assert Touched(b, d, up) && !IsDirectory(d, up);
      assert p !in d;
      assert OrphanedBy(b, c, d, p);
    }
  }

  lemma OrphanedIsUnclosed(base: Manifest, current: Manifest, candidate: Manifest, p: Path)
    requires ParentClosed(base.entries) && ParentClosed(current.entries) && ParentClosed(candidate.entries)
    requires ConflictFree(base, current, candidate)
    requires OrphanedBy(base.entries, current.entries, candidate.entries, p)
             || OrphanedBy(base.entries, candidate.entries, current.entries, p)
    ensures p in Merged(base, current, candidate).entries
    ensures !IsDirectory(Merged(base, current, candidate).entries, Parent(p))
  {
    var b, c, d := base.entries, current.entries, candidate.entries;
    var m, up := MergedEntries(b, c, d), Parent(p);
    assert !ConflictAt(b, c, d, p) && !ConflictAt(b, c, d, up);
    assert Lookup(m, p) == if Touched(b, d, p) then Lookup(d, p) else Lookup(c, p);
    assert Lookup(m, up) == if Touched(b, d, up) then Lookup(d, up) else Lookup(c, up);
  }

  /** So a conflict-free merge of captured trees is again a well-formed tree, exactly without orphans. */
  lemma MergeOfWellFormed(base: Manifest, current: Manifest, candidate: Manifest)
    requires WellFormed(base.entries) && WellFormed(current.entries) && WellFormed(candidate.entries)
    requires ConflictFree(base, current, candidate)
    ensures WellFormed(Merged(base, current, candidate).entries)
            <==> !Orphaned(base.entries, current.entries, candidate.entries)
  {
    HardLinksSurviveMerge(base, current, candidate);
    ParentClosureOfMerge(base, current, candidate);
    var m := Merged(base, current, candidate).entries;
    forall p | p in m ensures ValidPath(p) {
      assert Lookup(m, p) == Lookup(candidate.entries, p) || Lookup(m, p) == Lookup(current.entries, p);
    }
  }

  // ----- runs of merges

  ghost predicate DisjointPair(base: Manifest, first: Manifest, second: Manifest) {
    && !(RootTouched(base, first) && RootTouched(base, second))
    && forall p :: !(Touched(base.entries, first.entries, p) && Touched(base.entries, second.entries, p))
  }

  ghost predicate PairwiseDisjoint(base: Manifest, candidates: set<Manifest>) {
    forall c, d :: c in candidates && d in candidates && c != d ==> DisjointPair(base, c, d)
  }

  /** `order` lists each candidate once. */
  ghost predicate IsOrder(order: seq<Manifest>, candidates: set<Manifest>) {
    && (forall c :: c in order <==> c in candidates)
    && forall i, j :: 0 <= i < j < |order| ==> order[i] != order[j]
  }

  /** The candidates merged one after another onto `current`, each against the common base. */
  function MergeRun(base: Manifest, current: Manifest, order: seq<Manifest>): Manifest
    decreases |order|
  {
    if order == [] then current
    else MergeRun(base, Merged(base, current, order[0]), order[1..])
  }

  ghost predicate RunConflictFree(base: Manifest, current: Manifest, order: seq<Manifest>)
    decreases |order|
  {
    order == []
    || (&& ConflictFree(base, current, order[0])
        && RunConflictFree(base, Merged(base, current, order[0]), order[1..]))
  }

  /** No candidate still to come touches what `current` has changed. */
  ghost predicate Untouched(base: Manifest, current: Manifest, candidates: set<Manifest>) {
    forall c :: c in candidates ==> DisjointPair(base, current, c)
  }

  /** One step keeps the rest of the run clear of what has been merged. */
  lemma StepKeepsRestUntouched(base: Manifest, current: Manifest, order: seq<Manifest>, candidates: set<Manifest>)
    requires order != [] && IsOrder(order, candidates)
    requires PairwiseDisjoint(base, candidates) && Untouched(base, current, candidates)
    ensures ConflictFree(base, current, order[0])
    ensures IsOrder(order[1..], candidates - {order[0]})
    ensures PairwiseDisjoint(base, candidates - {order[0]})
    ensures Untouched(base, Merged(base, current, order[0]), candidates - {order[0]})
  {
    var c := order[0];
    assert c in candidates && DisjointPair(base, current, c);
    forall p ensures !ConflictAt(base.entries, current.entries, c.entries, p) {
    }
    forall d | d in candidates - {c}
      ensures DisjointPair(base, Merged(base, current, c), d)
    {
      assert DisjointPair(base, c, d) && DisjointPair(base, current, d);
      var m := MergedEntries(base.entries, current.entries, c.entries);
      forall p ensures !(Touched(base.entries, m, p) && Touched(base.entries, d.entries, p)) {
        assert Lookup(m, p) == Lookup(c.entries, p) || Lookup(m, p) == Lookup(current.entries, p);
      }
    }
  }

  /** What the run leaves at each path: the entry of the one candidate that touched it, else what
      `current` had. The root metadata likewise. */
  lemma {:induction false} RunResult(base: Manifest, current: Manifest, order: seq<Manifest>, candidates: set<Manifest>)
    requires IsOrder(order, candidates)
    requires PairwiseDisjoint(base, candidates) && Untouched(base, current, candidates)
    ensures RunConflictFree(base, current, order)
    ensures var r := MergeRun(base, current, order);
            && (forall c, p :: c in candidates && Touched(base.entries, c.entries, p) ==>
                  Lookup(r.entries, p) == Lookup(c.entries, p))
            && (forall p :: (forall c :: c in candidates ==> !Touched(base.entries, c.entries, p)) ==>
                  Lookup(r.entries, p) == Lookup(current.entries, p))
            && (forall c :: c in candidates && RootTouched(base, c) ==> r.root == c.root)
            && ((forall c :: c in candidates ==> !RootTouched(base, c)) ==> r.root == current.root)
    decreases |order|
  {
    if order == [] {
      assert forall c :: c in candidates ==> c in order;
    } else {
      var c := order[0];
      var next := Merged(base, current, c);
      var rest := candidates - {c};
      StepKeepsRestUntouched(base, current, order, candidates);
      RunResult(base, next, order[1..], rest);
      var r := MergeRun(base, next, order[1..]);
      assert c in candidates;
      assert forall d :: d in candidates ==> d == c || d in rest;
      forall p | Touched(base.entries, c.entries, p)
        ensures Lookup(r.entries, p) == Lookup(c.entries, p)
      {
        forall d | d in rest ensures !Touched(base.entries, d.entries, p) {
          assert DisjointPair(base, c, d);
        }
        assert Lookup(next.entries, p) == Lookup(c.entries, p);
      }
      forall p | forall d :: d in candidates ==> !Touched(base.entries, d.entries, p)
        ensures Lookup(r.entries, p) == Lookup(current.entries, p)
      {
        assert Lookup(next.entries, p) == Lookup(current.entries, p);
      }
      if RootTouched(base, c) {
        forall d | d in rest ensures !RootTouched(base, d) {
          assert DisjointPair(base, c, d);
        }
      }
    }
  }

  /** Candidates forked from one base that touch disjoint paths merge one after another without a
      conflict, in every order, and every order gives the same tree. */
  lemma EveryOrderMergesTheSame(base: Manifest, candidates: set<Manifest>, first: seq<Manifest>, second: seq<Manifest>)
    requires PairwiseDisjoint(base, candidates)
    requires IsOrder(first, candidates) && IsOrder(second, candidates)
    ensures RunConflictFree(base, base, first) && RunConflictFree(base, base, second)
    ensures var r, s := MergeRun(base, base, first), MergeRun(base, base, second);
            r.root == s.root && r.entries == s.entries
  {
    RunResult(base, base, first, candidates);
    RunResult(base, base, second, candidates);
    var r, s := MergeRun(base, base, first), MergeRun(base, base, second);
    forall p ensures Lookup(r.entries, p) == Lookup(s.entries, p) {
      if c :| c in candidates && Touched(base.entries, c.entries, p) {
      }
    }
    if c :| c in candidates && RootTouched(base, c) {
    }
    EqualLookups(r.entries, s.entries);
  }

  lemma EqualLookups(a: Entries, b: Entries)
    requires forall p :: Lookup(a, p) == Lookup(b, p)
    ensures a == b
  {
    forall p ensures p in a <==> p in b {
      assert Lookup(a, p) == Lookup(b, p);
    }
    forall p | p in a ensures a[p] == b[p] {
      assert Lookup(a, p) == Lookup(b, p);
    }
  }
}
