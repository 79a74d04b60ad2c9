/** The states of a world, and the moves between them. */
module Worlds {

  datatype WorldState = MUTABLE | FINALIZING | VALID | DEGRADED | DEAD | ARCHIVED | COLLAPSED

  /** The kernel's table of allowed moves. */
  predicate Allowed(from: WorldState, to: WorldState) {
    match from
    case MUTABLE => to == FINALIZING || to == DEAD
    case FINALIZING => to == VALID || to == DEGRADED || to == DEAD
    case VALID => to == COLLAPSED || to == ARCHIVED
    case DEGRADED => to == DEAD || to == ARCHIVED
    case DEAD => to == ARCHIVED
    case COLLAPSED => to == ARCHIVED
    case ARCHIVED => false
  }

  /** Where a world can have come from: it is sealed before it is judged, collapses only when valid, dies
      only unpublished or damaged, and is archived only out of an end state or as a valid or damaged one. */
  lemma MovesInto(from: WorldState, to: WorldState)
    ensures to == MUTABLE ==> !Allowed(from, to)
    ensures to == FINALIZING ==> (Allowed(from, to) <==> from == MUTABLE)
    ensures to == VALID || to == DEGRADED ==> (Allowed(from, to) <==> from == FINALIZING)
    ensures to == COLLAPSED ==> (Allowed(from, to) <==> from == VALID)
    ensures to == DEAD ==> (Allowed(from, to) <==> from in {MUTABLE, FINALIZING, DEGRADED})
    ensures to == ARCHIVED ==> (Allowed(from, to) <==> from in {VALID, DEGRADED, DEAD, COLLAPSED})
  {
  }

  ghost predicate IsHistoryOf(states: seq<WorldState>) {
    forall i :: 0 < i < |states| ==> Allowed(states[i - 1], states[i])
  }

  function Rank(s: WorldState): nat {
    match s
    case MUTABLE => 0
    case FINALIZING => 1
    case VALID => 2
    case DEGRADED => 2
    case COLLAPSED => 3
    case DEAD => 3
    case ARCHIVED => 4
  }

  /** Every move goes forward, so no history has more than five states, and one that has been archived
      stays so. */
  lemma {:induction false} HistoriesEnd(states: seq<WorldState>)
    requires states != [] && IsHistoryOf(states)
    ensures |states| <= 1 + Rank(states[|states| - 1]) <= 5
    ensures forall i :: 0 <= i < |states| && states[i] == ARCHIVED ==> i == |states| - 1
  {
    var n := |states| - 1;
    if n > 0 {
      assert Allowed(states[n - 1], states[n]);
      var before := states[..n];
      forall i | 0 < i < n ensures Allowed(before[i - 1], before[i]) {
        assert Allowed(states[i - 1], states[i]);
      }
      HistoriesEnd(before);
      forall i | 0 <= i < n ensures states[i] != ARCHIVED {
        assert before[i] == states[i];
      }
    }
  }
}
