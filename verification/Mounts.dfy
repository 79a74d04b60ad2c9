/** Which mount holds a path, from the kernel's mount table. */
module Mounts {
  import opened Wrappers
  import opened Trees

  datatype Mount = Mount(id: int, parent: int, point: Path)

  // ----- tables the kernel builds

  function Latest(entries: seq<Mount>, path: Path): (found: Option<nat>)
    ensures found.Some? ==> found.value < |entries| && entries[found.value].point <= path
    ensures found.Some? ==> forall j :: found.value < j < |entries| ==> !(entries[j].point <= path)
    ensures found.None? ==> forall j :: 0 <= j < |entries| ==> !(entries[j].point <= path)
  {
    if entries == [] then None
    else
      var n := |entries| - 1;
      if entries[n].point <= path then Some(n) else Latest(entries[..n], path)
  }

  predicate Listed(entries: seq<Mount>, id: int) {
    exists i | 0 <= i < |entries| :: entries[i].id == id
  }

  /** The table of a machine that mounted in this order, and unmounted only what held no other mount:
      the root's parent is not in it, and every other's is the mount that held its point then. */
  ghost predicate Built(entries: seq<Mount>) {
    && entries != [] && entries[0].point == [] && !Listed(entries, entries[0].parent)
    && (forall i, j :: 0 <= i < j < |entries| ==> entries[i].id != entries[j].id)
    && forall i :: 0 < i < |entries| ==> HeldBy(entries, i)
  }

  ghost predicate HeldBy(entries: seq<Mount>, i: nat)
    requires 0 < i < |entries|
  {
    var holder := Latest(entries[..i], entries[i].point);
    holder.Some? && entries[i].parent == entries[holder.value].id
  }

  /** A new mount goes on top of whatever holds its point. */
  lemma MountKeepsBuilt(entries: seq<Mount>, m: Mount)
    requires Built(entries) && !Listed(entries, m.id) && m.id != entries[0].parent
    requires Latest(entries, m.point).Some? && m.parent == entries[Latest(entries, m.point).value].id
    ensures Built(entries + [m])
  {
    var more := entries + [m];
    assert more[..|entries|] == entries;
    forall i | 0 < i < |more| ensures HeldBy(more, i) {
      if i < |entries| {
        assert HeldBy(entries, i);
        assert more[..i] == entries[..i];
      }
    }
    forall i | 0 <= i < |entries| ensures more[i].id != m.id {
    }
    assert !Listed(more, more[0].parent) by {
      forall i | 0 <= i < |more| ensures more[i].id != more[0].parent {
        if i < |entries| { assert entries[i] == more[i]; }
      }
    }
  }

  function Without(entries: seq<Mount>, k: nat): (less: seq<Mount>)
    requires k < |entries|
    ensures |less| == |entries| - 1
    ensures forall i :: 0 <= i < |less| ==> less[i] == entries[if i < k then i else i + 1]
  {
    entries[..k] + entries[k + 1..]
  }

  lemma StillHeld(entries: seq<Mount>, k: nat, i: nat)
    requires 0 < k <= i < |entries| - 1 && HeldBy(entries, i + 1)
    requires entries[i + 1].parent != entries[k].id
    ensures HeldBy(Without(entries, k), i)
  {
    var less, point := Without(entries, k), entries[i + 1].point;
    var holder := Latest(entries[..i + 1], point).value;
    assert holder != k;
    var same := if holder < k then holder else holder - 1;
    forall j | same < j < i ensures !(less[..i][j].point <= point) {
      var was := if j < k then j else j + 1;
      assert entries[..i + 1][was] == less[..i][j];
    }
    assert less[..i][same] == entries[..i + 1][holder];
    LatestIs(less[..i], point, same);
  }

  /** And a mount that holds no other can be taken away. */
  lemma UnmountKeepsBuilt(entries: seq<Mount>, k: nat)
    requires Built(entries) && 0 < k < |entries| && forall i :: 0 <= i < |entries| ==> entries[i].parent != entries[k].id
    ensures Built(Without(entries, k))
  {
    var less := Without(entries, k);
    forall i | 0 < i < |less| ensures HeldBy(less, i) {
      if i < k {
        assert HeldBy(entries, i);
        assert less[..i] == entries[..i];
      } else {
        assert HeldBy(entries, i + 1);
        StillHeld(entries, k, i);
      }
    }
  }

  lemma LatestIs(entries: seq<Mount>, path: Path, i: nat)
    requires i < |entries| && entries[i].point <= path
    requires forall j :: i < j < |entries| ==> !(entries[j].point <= path)
    ensures Latest(entries, path) == Some(i)
  {
    var found := Latest(entries, path).value;
    assert !(found < i) && !(i < found);
  }

  // ----- the walk

  predicate Covers(e: Mount, id: int, point: Path, seen: set<int>) {
    e.parent == id && e.point == point && e.id !in seen
  }

  /** The last entry that covers a mount at a point. */
  method LastCovering(entries: seq<Mount>, id: int, point: Path, seen: set<int>) returns (found: Option<nat>)
    ensures found.Some? ==> found.value < |entries| && Covers(entries[found.value], id, point, seen)
    ensures found.None? ==> forall j :: 0 <= j < |entries| ==> !Covers(entries[j], id, point, seen)
  {
    found := None;
    for n := 0 to |entries|
      invariant found.Some? ==> found.value < n && Covers(entries[found.value], id, point, seen)
      invariant found.None? ==> forall j :: 0 <= j < n ==> !Covers(entries[j], id, point, seen)
    {
      if Covers(entries[n], id, point, seen) { found := Some(n); }
    }
  }

  function AllIds(entries: seq<Mount>): set<int> {
    set i | 0 <= i < |entries| :: entries[i].id
  }

  /** In a built table, what covers a mount at a point came later, and at that point. */
  lemma CoverIsLater(entries: seq<Mount>, current: nat, j: nat, point: Path)
    requires Built(entries) && current < |entries| && j < |entries|
    requires entries[j].parent == entries[current].id && entries[j].point == point
    ensures current < j && Latest(entries[..j], point) == Some(current)
  {
    assert j > 0;
    assert HeldBy(entries, j);
    var holder := Latest(entries[..j], point).value;
    assert entries[holder].id == entries[current].id;
  }

  /** A mount later than `current` whose point holds the path, none of the shorter prefixes being
      mounted later: then something covers `current` at that point. */
  lemma SomethingCovers(entries: seq<Mount>, current: nat, latest: nat, point: Path)
    requires Built(entries) && current < latest < |entries| && entries[current].point <= point
    requires entries[latest].point == point
    requires forall j :: current < j < |entries| && entries[j].point <= point ==> entries[j].point == point
    ensures exists j :: current < j <= latest && entries[j].parent == entries[current].id && entries[j].point == point
    decreases latest
  {
    assert HeldBy(entries, latest);
    assert entries[..latest][current] == entries[current];
    var holder := Latest(entries[..latest], point).value;
    if holder > current {
      assert entries[..latest][holder] == entries[holder];
      SomethingCovers(entries, current, holder, point);
    } else {
      assert holder == current;
    }
  }

  /** A built table, with `start` the holder of the path above. */
  ghost predicate BuiltUpTo(entries: seq<Mount>, start: nat, point: Path) {
    Built(entries) && if point == [] then start == 0 else Latest(entries, Parent(point)) == Some(start)
  }

  /** `on_top`: from the holder of the path above, the holder of `point` itself. */
  method OnTop(entries: seq<Mount>, start: nat, point: Path) returns (current: nat)
    requires start < |entries|
    ensures current < |entries|
    ensures BuiltUpTo(entries, start, point) ==> Latest(entries, point) == Some(current)
  {
    current := start;
    var seen := {entries[current].id};
    ghost var built := BuiltUpTo(entries, start, point);
    while true
      invariant current < |entries| && entries[current].id in seen && seen <= AllIds(entries)
      invariant built ==> Climbing(entries, start, current, point, seen)
      decreases |AllIds(entries) - seen|
    {
      var cover := LastCovering(entries, entries[current].id, point, seen);
      if cover.None? {
        if built { Uncovered(entries, start, current, point, seen); }
        return;
      }
      if built { Climb(entries, start, current, cover.value, point, seen); }
      Smaller(AllIds(entries), seen, entries[cover.value].id);
      current := cover.value;
      seen := seen + {entries[current].id};
    }
  }

  lemma Smaller(all: set<int>, seen: set<int>, id: int)
    requires id in all && id !in seen
    ensures |all - (seen + {id})| < |all - seen|
  {
    assert all - (seen + {id}) == (all - seen) - {id};
  }

  /** From `start` on, only mounts at `point` itself hold the path; and `current`, reached among them,
      is later than all seen. */
  ghost predicate Climbing(entries: seq<Mount>, start: nat, current: nat, point: Path, seen: set<int>) {
    && Built(entries) && start <= current < |entries| && entries[current].point <= point
    && (forall j :: start < j < |entries| && entries[j].point <= point ==> entries[j].point == point)
    && (forall j :: current < j < |entries| ==> entries[j].id !in seen)
  }

  lemma Climb(entries: seq<Mount>, start: nat, current: nat, next: nat, point: Path, seen: set<int>)
    requires Climbing(entries, start, current, point, seen) && next < |entries|
    requires Covers(entries[next], entries[current].id, point, seen)
    ensures Climbing(entries, start, next, point, seen + {entries[next].id})
  {
    CoverIsLater(entries, current, next, point);
  }

  lemma Uncovered(entries: seq<Mount>, start: nat, current: nat, point: Path, seen: set<int>)
    requires Climbing(entries, start, current, point, seen)
    requires forall j :: 0 <= j < |entries| ==> !Covers(entries[j], entries[current].id, point, seen)
    ensures Latest(entries, point) == Some(current)
  {
    var latest := Latest(entries, point).value;
    if latest > current {
      SomethingCovers(entries, current, latest, point);
    }
    LatestIs(entries, point, current);
  }

  /** `_holding_mount`: in a built table, the walk from the root finds the mount made last among those
      whose point holds the path. */
  method HoldingMount(entries: seq<Mount>, path: Path) returns (held: Result<nat>)
    ensures held.Ok? ==> held.value < |entries|
    ensures Built(entries) ==> held.Ok? && Latest(entries, path) == Some(held.value)
  {
    var root := FindRoot(entries);
    if root.None? {
      return Refused("RELOCATION_REFUSED");
    }
    var current: nat := OnTop(entries, root.value, []);
    for k := 0 to |path|
      invariant current < |entries|
      invariant Built(entries) ==> Latest(entries, path[..k]) == Some(current)
    {
      assert Parent(path[..k + 1]) == path[..k];
      current := OnTop(entries, current, path[..k + 1]);
    }
    assert path[..|path|] == path;
    return Ok(current);
  }

  predicate IsRoot(entries: seq<Mount>, e: Mount) {
    e.point == [] && (!Listed(entries, e.parent) || e.parent == e.id)
  }

  method FindRoot(entries: seq<Mount>) returns (root: Option<nat>)
    ensures root.Some? ==> root.value < |entries|
    ensures Built(entries) ==> root == Some(0)
  {
    root := None;
    for n := 0 to |entries|
      invariant root.Some? ==> root.value < n
      invariant Built(entries) ==> root == if n == 0 then None else Some(0)
    {
      if Built(entries) { OnlyRoot(entries, n); }
      if IsRoot(entries, entries[n]) { root := Some(n); }
    }
  }

  lemma OnlyRoot(entries: seq<Mount>, n: nat)
    requires Built(entries) && n < |entries|
    ensures IsRoot(entries, entries[n]) <==> n == 0
  {
    if n > 0 {
      assert HeldBy(entries, n);
      var holder := Latest(entries[..n], entries[n].point).value;
      assert entries[holder].id == entries[n].parent;
    }
  }
}
