/** Registering roots: the operator's own directories are renamed into the store, and any later step
    may fail while an outside party works at the operator's paths. */
module Roots {
  import opened Wrappers
  import opened RootRows
  import opened Schedules
  import opened Publications

  datatype Place = Live(i: nat) | Payload(i: nat) | Elsewhere

  /** What is found at a path: nothing, the i-th operator's directory itself, a link, or something else. */
  datatype Found = Absent | Original(i: nat) | LinkTo(place: Place) | EmptyDirectory | Foreign

  datatype Outcome = Done | RefusedMoving | RefusedRecording | RefusedPublishing

  /** An outside party may put anything at an operator's path, unless the directory itself is there. */
  function Disturbed(op: seq<Found>, changes: map<nat, Found>): (r: seq<Found>)
    ensures |r| == |op|
    ensures forall i :: 0 <= i < |op| && op[i].Original? ==> r[i] == op[i]
    ensures forall i :: 0 <= i < |op| && r[i].Original? ==> r[i] == op[i]
    ensures changes == map[] ==> r == op
  {
    if op == [] then []
    else
      var n := |op| - 1;
      Disturbed(op[..n], changes) +
      [if n in changes && !op[n].Original? && !changes[n].Original? then changes[n] else op[n]]
  }

  /** The operators' directories where they were. */
  function Originals(n: nat): (r: seq<Found>)
    ensures |r| == n && forall i :: 0 <= i < n ==> r[i] == Original(i)
  {
    if n == 0 then [] else Originals(n - 1) + [Original(n - 1)]
  }

  function Nothing(n: nat): (r: seq<Found>)
    ensures |r| == n && forall i :: 0 <= i < n ==> r[i] == Absent
  {
    if n == 0 then [] else Nothing(n - 1) + [Absent]
  }

  class RootManager {
    const generation: string
    const fails: set<nat>              // the schedule of failing steps
    const outsider: map<nat, map<nat, Found>>
    const captured: map<string, string>
    const archives: bool                  // whether there is an old PRIME to archive
    var tick: nat
    var moment: nat
    var op: seq<Found>          // the operators' paths
    var live: seq<Found>        // the live mapping's entries
    var payload: seq<Found>     // the new generation's entries
    var kept: bool              // whether that generation exists
    var rows: map<string, Row>
    var prime: Option<string>
    var progress: Progress

    constructor (n: nat, generation: string, live: seq<Found>, rows: map<string, Row>, prime: Option<string>, archives: bool,
                 fails: set<nat>, outsider: map<nat, map<nat, Found>>, captured: map<string, string>)
      requires |live| == n && forall i :: 0 <= i < n ==> !live[i].Original? && live[i] != LinkTo(Payload(i))
      ensures this.generation == generation && this.fails == fails && this.outsider == outsider && this.captured == captured
      ensures this.live == live && this.rows == rows && this.prime == prime && this.archives == archives && kept
      ensures op == Originals(n) && payload == Nothing(n) && progress == Unpublished && tick == 0
    {
      this.generation := generation;
      this.fails := fails;
      this.outsider := outsider;
      this.captured := captured;
      this.archives := archives;
      this.live := live;
      this.rows := rows;
      this.prime := prime;
      tick, moment := 0, 0;
      kept := true;
      op := Originals(n);
      payload := Nothing(n);
      progress := Unpublished;
    }

    ghost predicate Quiet() {
      outsider == map[]
    }

    /** Each original is at exactly one place: its own path, or the generation that is kept. */
    ghost predicate Safe()
      reads this
    {
      && |op| == |live| == |payload|
      && forall i :: 0 <= i < |op| ==>
           && (op[i].Original? ==> op[i] == Original(i))
           && (payload[i] == Absent || payload[i] == Original(i))
           && !live[i].Original?
           && (op[i] == Original(i) <==> payload[i] != Original(i))
           && (payload[i] == Original(i) ==> kept)
    }

    ghost predicate Untouched(before: seq<Found>)
      reads this`op
    {
      && |op| == |before|
      && (forall i :: 0 <= i < |op| && before[i].Original? ==> op[i] == before[i])
      && (forall i :: 0 <= i < |op| && op[i].Original? ==> op[i] == before[i])
      && (Quiet() ==> op == before)
    }

    /** The outside party acts. */
    method Interfere()
      modifies this`op, this`moment
      ensures Untouched(old(op))
    {
      op := Disturbed(op, if moment in outsider then outsider[moment] else map[]);
      moment := moment + 1;
    }

    /** A step of ours fails, or does not. */
    method Fails() returns (failed: bool)
      modifies this`tick
      ensures Counted(old(tick), failed)
    {
      failed := tick in fails;
      OneStep(fails, tick);
      tick := tick + 1;
    }

    /** One more step of the schedule has been taken. */
    ghost predicate Counted(t: nat, failed: bool)
      reads this`tick
    {
      && tick == t + 1 && failed == (t in fails)
      && if failed then FirstFault(fails, t, tick) else NoFault(fails, t, tick)
    }

    method Step() returns (failed: bool)
      modifies this`op, this`moment, this`tick
      ensures Untouched(old(op)) && Counted(old(tick), failed)
    {
      Interfere();
      failed := Fails();
    }

    // ----- moving in

    /** What the first `m` roots look like while they are being moved, the last perhaps not finished. */
    ghost predicate Moved(live0: seq<Found>, m: nat, finished: bool)
      reads this
    {
      && Safe() && kept && |live0| == |live| && m <= |op|
      && (forall i :: 0 <= i < |live0| ==> live0[i] != LinkTo(Payload(i)))
      && (forall i :: 0 <= i < m ==> payload[i] == Original(i))
      && (forall i :: m <= i < |op| ==> op[i] == Original(i) && live[i] == live0[i])
      && (forall i :: 0 <= i < m ==> live[i] == live0[i] || (live0[i] == Absent && live[i] == LinkTo(Payload(i))))
      && (finished ==> forall i :: 0 <= i < m ==> live[i] == LinkTo(Payload(i)))
      && (Quiet() ==> forall i :: 0 <= i < m ==> op[i] == LinkTo(Live(i)) || (op[i] == Absent && !finished))
    }

    /** The live mapping has no entries yet for these roots, and nobody interferes: only a failing step
        can then stop what is being done. */
    ghost predicate Unhindered(live0: seq<Found>) {
      Quiet() && forall i :: 0 <= i < |live0| ==> live0[i] == Absent
    }

    /** One root moved behind its live mapping; `renamed` tells whether it was recorded as moved. */
    method MoveIn(i: nat, ghost live0: seq<Found>) returns (renamed: bool, ok: bool)
      requires i < |op| && Moved(live0, i, true)
      modifies this`op, this`live, this`payload, this`moment, this`tick
      ensures renamed ==> Moved(live0, i + 1, ok)
      ensures !renamed ==> !ok && Moved(live0, i, true)
      ensures Took(fails, old(tick), tick, 5, ok, Unhindered(live0))
    {
      var failed := Step();
      if failed {
        return false, false;
      }
      op, payload := op[i := Absent], payload[i := Original(i)];
      ghost var t := tick;
      ok := Link(i, live0);
      TookBoth(fails, old(tick), t, tick, 1, 4, ok, Unhindered(live0));
      return true, ok;
    }

    /** The `i`-th root is in the generation, and the ones before are linked. */
    ghost predicate LastIn(i: nat, live0: seq<Found>)
      reads this
    {
      && i < |op| && Moved(live0, i + 1, false)
      && (forall j :: 0 <= j < i ==> live[j] == LinkTo(Payload(j)))
      && (Quiet() ==> op[i] == Absent && forall j :: 0 <= j < i ==> op[j] == LinkTo(Live(j)))
    }

    method Link(i: nat, ghost live0: seq<Found>) returns (ok: bool)
      requires LastIn(i, live0) && live[i] == live0[i]
      modifies this`op, this`live, this`moment, this`tick
      ensures Moved(live0, i + 1, ok)
      ensures Took(fails, old(tick), tick, 4, ok, Unhindered(live0))
    {
      var failed := Step();
      if failed || live[i] != Absent {
        return false;
      }
      live := live[i := LinkTo(Payload(i))];
      ghost var t := tick;
      ok := LinkPath(i, live0);
      TookBoth(fails, old(tick), t, tick, 1, 3, ok, Unhindered(live0));
    }

    method LinkPath(i: nat, ghost live0: seq<Found>) returns (ok: bool)
      requires LastIn(i, live0) && live[i] == LinkTo(Payload(i))
      modifies this`op, this`moment, this`tick
      ensures Moved(live0, i + 1, ok)
      ensures Took(fails, old(tick), tick, 3, ok, Quiet())
    {
      var failed := Step();
      if failed || op[i] != Absent {
        return false;
      }
      op := op[i := LinkTo(Live(i))];
      ghost var t := tick;
      ok := Flush();
      TookBoth(fails, old(tick), t, tick, 1, 2, ok, Quiet());
    }

    /** The operator's directory, and that of the live mapping. */
    method Flush() returns (ok: bool)
      modifies this`op, this`moment, this`tick
      ensures Untouched(old(op)) && Took(fails, old(tick), tick, 2, ok, true)
    {
      var failed := Step();
      if failed {
        return false;
      }
      ghost var t := tick;
      failed := Step();
      NoFaultThen(fails, old(tick), t, tick);
      return !failed;
    }

    /** All roots moved in, or as many as went before what stopped it: unhindered, a failing step. */
    method MoveAll(ghost live0: seq<Found>) returns (moved: nat, ok: bool)
      requires Moved(live0, 0, true)
      modifies this`op, this`live, this`payload, this`moment, this`tick
      ensures Moved(live0, moved, ok) && |op| == |live0|
      ensures ok ==> moved == |op|
      ensures Took(fails, old(tick), tick, 5 * |live0|, ok, Unhindered(live0))
    {
      moved := 0;
      while moved < |op|
        invariant Moved(live0, moved, true)
        invariant Took(fails, old(tick), tick, 5 * moved, true, Unhindered(live0))
      {
        ghost var t := tick;
        var renamed, done := MoveIn(moved, live0);
        if !done {
          TookBoth(fails, old(tick), t, tick, 5 * moved, 5, false, Unhindered(live0));
          return if renamed then moved + 1 else moved, false;
        }
        TookBoth(fails, old(tick), t, tick, 5 * moved, 5, true, Unhindered(live0));
        moved := moved + 1;
      }
      return moved, true;
    }

    // ----- and back

    /** The roots from `m` on are as they were, except where something else is at the operator's path. */
    ghost predicate Back(live0: seq<Found>, m: nat)
      reads this
    {
      && Safe() && kept && |live0| == |live| && m <= |op|
      && (forall i :: 0 <= i < |live0| ==> live0[i] != LinkTo(Payload(i)))
      && (forall i :: 0 <= i < m ==> payload[i] == Original(i))
      && (forall i :: 0 <= i < m ==> live[i] == live0[i] || (live0[i] == Absent && live[i] == LinkTo(Payload(i))))
      && (forall i :: m <= i < |op| ==> live[i] == live0[i])
      && (Quiet() ==> forall i :: 0 <= i < m ==> op[i] == LinkTo(Live(i)) || op[i] == Absent)
      && (Quiet() ==> forall i :: m <= i < |op| ==> op[i] == Original(i))
    }

    /** The first `m` roots are linked through and through, as a finished move leaves them. */
    ghost predicate Linked(m: nat)
      reads this`op, this`live
    {
      m <= |op| && m <= |live|
      && forall i :: 0 <= i < m ==> op[i] == LinkTo(Live(i)) && live[i] == LinkTo(Payload(i))
    }

    /** Undoing is stopped only by a failing step when nobody interferes; it takes three steps for each of
        `m` roots, and no fewer where all were linked. */
    ghost predicate Undid(t0: nat, m: nat, linked: bool, ok: bool)
      reads this`tick
    {
      && t0 <= tick <= t0 + 3 * m
      && (ok ==> NoFault(fails, t0, tick))
      && (Quiet() && !ok ==> FirstFault(fails, t0, tick))
      && (Quiet() && linked && ok ==> tick == t0 + 3 * m)
    }

    method MoveBack(i: nat, ghost live0: seq<Found>) returns (ok: bool)
      requires i < |op| && Back(live0, i + 1)
      modifies this`op, this`live, this`payload, this`moment, this`tick
      ensures Safe() && kept && |op| == |old(op)|
      ensures ok ==> Back(live0, i)
      ensures Quiet() && old(Linked(i + 1)) && ok ==> Linked(i)
      ensures Undid(old(tick), 1, old(Linked(i + 1)), ok)
    {
      ok := Unlink(i, live0);
      if ok {
        ghost var t := tick;
        ok := Return(i, live0);
        NoFaultThen(fails, old(tick), t, tick);
      }
    }

    /** Only the links registration made are removed. */
    method Unlink(i: nat, ghost live0: seq<Found>) returns (ok: bool)
      requires i < |op| && Back(live0, i + 1)
      modifies this`op, this`live, this`moment, this`tick
      ensures Safe() && kept && |op| == |old(op)|
      ensures ok ==> Back(live0, i + 1) && live[i] == live0[i] && (Quiet() ==> op[i] == Absent)
      ensures Quiet() && old(Linked(i + 1)) && ok ==> Linked(i) && tick == old(tick) + 2
      ensures old(tick) <= tick <= old(tick) + 2
      ensures if ok then NoFault(fails, old(tick), tick) else FirstFault(fails, old(tick), tick)
    {
      ok := UnlinkPath(i, live0);
      if ok {
        ghost var t := tick;
        ok := UnlinkLive(i, live0);
        NoFaultThen(fails, old(tick), t, tick);
      }
    }

    method UnlinkPath(i: nat, ghost live0: seq<Found>) returns (ok: bool)
      requires i < |op| && Back(live0, i + 1)
      modifies this`op, this`moment, this`tick
      ensures Back(live0, i + 1) && |op| == |old(op)|
      ensures Quiet() && ok ==> op[i] == Absent && forall j :: 0 <= j < i ==> op[j] == old(op)[j]
      ensures old(tick) <= tick <= old(tick) + 1
      ensures if ok then NoFault(fails, old(tick), tick) else FirstFault(fails, old(tick), tick)
      ensures Quiet() && old(op)[i] == LinkTo(Live(i)) ==> tick == old(tick) + 1
    {
      Interfere();
      if op[i] == LinkTo(Live(i)) {
        var failed := Fails();
        if failed {
          return false;
        }
        op := op[i := Absent];
      }
      return true;
    }

    method UnlinkLive(i: nat, ghost live0: seq<Found>) returns (ok: bool)
      requires i < |op| && Back(live0, i + 1) && (Quiet() ==> op[i] == Absent)
      modifies this`op, this`live, this`moment, this`tick
      ensures Back(live0, i + 1) && |op| == |old(op)|
      ensures Quiet() ==> op == old(op)
      ensures forall j :: 0 <= j < i ==> live[j] == old(live)[j]
      ensures ok ==> live[i] == live0[i]
      ensures old(tick) <= tick <= old(tick) + 1
      ensures if ok then NoFault(fails, old(tick), tick) else FirstFault(fails, old(tick), tick)
      ensures old(live)[i] == LinkTo(Payload(i)) ==> tick == old(tick) + 1
    {
      Interfere();
      if live[i] == LinkTo(Payload(i)) {
        var failed := Fails();
        if failed {
          return false;
        }
        live := live[i := Absent];
      }
      return true;
    }

    method Return(i: nat, ghost live0: seq<Found>) returns (ok: bool)
      requires i < |op| && Back(live0, i + 1) && live[i] == live0[i]
      requires Quiet() ==> op[i] == Absent
      modifies this`op, this`payload, this`moment, this`tick
      ensures Safe() && kept && |op| == |old(op)|
      ensures ok ==> Back(live0, i)
      ensures Quiet() ==> forall j :: 0 <= j < i ==> op[j] == old(op)[j]
      ensures old(tick) <= tick <= old(tick) + 1 && (ok ==> NoFault(fails, old(tick), tick))
      ensures Quiet() ==> tick == old(tick) + 1 && (!ok ==> FirstFault(fails, old(tick), tick))
    {
      Interfere();
      if payload[i] != Absent && op[i] == Absent {
        var failed := Step();
        if failed || (op[i] != Absent && op[i] != EmptyDirectory) {
          return false;
        }
        op, payload := op[i := Original(i)], payload[i := Absent];
      }
      return true;
    }

    /** `_rollback_registration`. */
    method Rollback(moved: nat, ghost live0: seq<Found>) returns (ok: bool)
      requires Moved(live0, moved, false)
      modifies this`op, this`live, this`payload, this`moment, this`tick
      ensures Safe() && kept && |op| == |old(op)|
      ensures ok ==> Back(live0, 0)
      ensures Undid(old(tick), moved, old(Linked(moved)), ok)
    {
      var m := moved;
      ghost var linked := Linked(moved);
      while m > 0
        invariant 0 <= m <= moved && Back(live0, m) && |op| == |old(op)|
        invariant Quiet() && linked ==> Linked(m)
        invariant Undid(old(tick), moved - m, linked, true)
      {
        ghost var t := tick;
        ok := MoveBack(m - 1, live0);
        NoFaultThen(fails, old(tick), t, tick);
        if !ok {
          return;
        }
        m := m - 1;
      }
      return true;
    }

    /** `_discard_registration_generation`: only once nothing of the operators' is in it. */
    method Discard()
      requires Safe() && kept
      modifies this`kept
      ensures Safe()
      ensures kept <==> exists i :: 0 <= i < |payload| && payload[i] == Original(i)
    {
      for i := 0 to |payload|
        invariant kept && forall j :: 0 <= j < i ==> payload[j] == Absent
      {
        if payload[i] != Absent {
          return;
        }
      }
      kept := false;
    }

    /** The live mapping is as it was, and the generation is kept for what could not be moved back;
        without interference that is nothing, and every operator's directory is where it was. */
    ghost predicate Reverted(live0: seq<Found>)
      reads this
    {
      && live == live0 && |op| == |live|
      && (kept <==> exists i :: 0 <= i < |payload| && payload[i] == Original(i))
      && (Quiet() ==> !kept && op == Originals(|op|) && payload == Nothing(|op|))
    }

    /** Both. What is undone is as it was; what is not stays in the kept generation. */
    method Undo(moved: nat, ghost live0: seq<Found>) returns (undone: bool)
      requires Moved(live0, moved, false)
      modifies this`op, this`live, this`payload, this`moment, this`tick, this`kept
      ensures Safe() && |op| == |old(op)|
      ensures if undone then Reverted(live0) else kept
      ensures Undid(old(tick), moved, old(Linked(moved)), undone)
    {
      undone := Rollback(moved, live0);
      if undone {
        assert live == live0;
        if Quiet() {
          assert op == Originals(|op|);
          assert forall i :: 0 <= i < |op| ==> op[i] == Original(i) && payload[i] != Original(i);
          assert payload == Nothing(|op|);
        }
        Discard();
      }
    }

    // ----- the rows

    /** The insertion of the rows, in one transaction. */
    method Record(candidates: seq<Candidate>) returns (ok: bool)
      modifies this`rows, this`op, this`moment, this`tick
      ensures Untouched(old(op))
      ensures rows == if ok then Recorded(old(rows), candidates, generation) else old(rows)
      ensures Counted(old(tick), !ok)
    {
      var failed := Step();
      if failed {
        return false;
      }
      rows := Inserted(candidates);
      return true;
    }

    method Inserted(candidates: seq<Candidate>) returns (next: map<string, Row>)
      ensures next == Recorded(rows, candidates, generation)
    {
      ghost var start := if HasPrimary(candidates) then ClearPrimary(rows) else rows;
      next := if HasPrimary(candidates) then ClearPrimary(rows) else rows;
      for n := 0 to |candidates|
        invariant next == AddRows(start, candidates, n, generation)
      {
        var c := candidates[n];
        next := next[c.key := Row(c.primary, generation, c.manifest)];
      }
    }

    /** The capture of every root into the generation. */
    method CaptureAll() returns (ok: bool)
      modifies this`rows, this`op, this`moment, this`tick
      ensures Untouched(old(op)) && RowsAsBefore(old(rows), rows, captured)
      ensures ok ==> RowsCaptured(old(rows), rows, captured)
      ensures Took(fails, old(tick), tick, |old(rows)|, ok, true)
    {
      var rest := rows.Keys;
      ghost var all := rest;
      while rest != {}
        invariant Untouched(old(op)) && RowsAsBefore(old(rows), rows, captured)
        invariant forall k :: k in old(rows) ==>
                    rows[k] == if k in rest then old(rows)[k] else Recaptured(old(rows)[k], k, captured)
        invariant rest <= all == rows.Keys && |rest| <= |all|
        invariant Took(fails, old(tick), tick, |all| - |rest|, true, true)
        decreases |rest|
      {
        ghost var t := tick;
        var failed := Step();
        var k :| k in rest;
        if failed {
          TookBoth(fails, old(tick), t, tick, |all| - |rest|, 1, false, true);
          return false;
        }
        TookBoth(fails, old(tick), t, tick, |all| - |rest|, 1, true, true);
        rows := rows[k := Recaptured(rows[k], k, captured)];
        rest := rest - {k};
      }
      return true;
    }

    function Publication(): nat { PublicationSteps(archives) }

    /** `publish_checkpoint`, as far as a registration is concerned. */
    method Publish() returns (ok: bool)
      requires progress == Unpublished
      modifies this`op, this`moment, this`tick, this`prime, this`progress
      ensures Untouched(old(op))
      ensures prime == if progress == PrimeMoved then Some(generation) else old(prime)
      ensures Took(fails, old(tick), tick, Publication(), ok, true)
      ensures progress == After(Through(old(tick), tick, ok), archives)
    {
      ghost var t := tick;
      var failed := Step();
      if failed { return false; }
      progress := WorldRecorded;
      if archives {
        failed := Step();
        NoFaultThen(fails, t, t + 1, tick);
        if failed { return false; }
        progress := OldArchived;
      }
      ghost var t1 := tick;
      ok := MovePrime();
      TookBoth(fails, t, t1, tick, t1 - t, 2, ok, true);
    }

    method MovePrime() returns (ok: bool)
      modifies this`op, this`moment, this`tick, this`prime, this`progress
      ensures Untouched(old(op)) && Took(fails, old(tick), tick, 2, ok, true)
      ensures if tick == old(tick) + 1 then progress == old(progress) && prime == old(prime)
              else progress == PrimeMoved && prime == Some(generation)
    {
      ghost var t := tick;
      var failed := Step();
      if failed { return false; }
      prime, progress := Some(generation), PrimeMoved;
      failed := Step();                 // the active world's name
      NoFaultThen(fails, t, t + 1, tick);
      return !failed;
    }

    /** The rows taken out again, and the previous primary root put back, in one transaction. */
    method Unrecord(candidates: seq<Candidate>, previous: Option<string>) returns (ok: bool)
      modifies this`rows, this`op, this`moment, this`tick
      ensures Untouched(old(op))
      ensures rows == if ok then Restored(old(rows), candidates, previous) else old(rows)
      ensures Counted(old(tick), !ok)
    {
      var failed := Step();
      if failed {
        return false;
      }
      var next := rows - Keys(candidates);
      if previous.Some? && previous.value in next {
        next := next[previous.value := next[previous.value].(primary := true)];
      }
      rows := next;
      return true;
    }

    method PreviousPrimary() returns (previous: Option<string>)
      ensures IsPreviousPrimary(rows, previous)
    {
      if k :| k in rows && rows[k].primary {
        return Some(k);
      }
      return None;
    }

    // ----- the whole

    /** When only a failing step stops it, the schedule alone decides about a registration of `n` roots that
        makes `m` rows: five steps for each root, one for the rows, one for each capture, and the
        publication. The first failing step, before `decided`, tells what is refused and how far the
        publication got. */
    ghost predicate Decided(from: nat, decided: nat, moving: nat, m: nat, outcome: Outcome)
      reads this`progress
    {
      var through := Through(from, decided, outcome == Done);
      && Took(fails, from, decided, moving + 1 + m + Publication(), outcome == Done, true)
      && progress == After(through - moving - 1 - m, archives)
      && (outcome == RefusedMoving <==> outcome != Done && through < moving)
      && (outcome == RefusedRecording <==> outcome != Done && through == moving)
    }

    /** A refusal, decided at a step: it is undone unless a step of the undoing fails or somebody
        interferes. */
    ghost predicate Refused(live0: seq<Found>, rows0: map<string, Row>, decided: nat, outcome: Outcome, undone: bool)
      reads this
    {
      && UndoneAs(live0, rows0, outcome, undone)
      && decided <= tick
      && (undone ==> NoFault(fails, decided, tick))
      && (Quiet() && !undone ==> FirstFault(fails, decided, tick))
      && (Quiet() && outcome == RefusedPublishing ==> Took(fails, decided, tick, 1 + 3 * |op|, undone, true))
    }

    /** What a refusal leaves: undone, all is as it was but for what was published; and else all the
        originals moved in are in the kept generation. */
    ghost predicate UndoneAs(live0: seq<Found>, rows0: map<string, Row>, outcome: Outcome, undone: bool)
      reads this
    {
      if undone then
        Reverted(live0) && RowsAsBefore(rows0, rows, captured) && (outcome != RefusedPublishing ==> rows == rows0)
      else kept
    }

    /** `register`, once confirmed. Whatever fails and whatever happens at the operators' paths, each
        original ends at exactly one of its own path and the kept generation. Unhindered, it is refused
        exactly if a step fails. */
    method Register(candidates: seq<Candidate>) returns (outcome: Outcome, undone: bool, ghost decided: nat)
      requires OnePrimary(rows) && Unregistered(rows, candidates) && progress == Unpublished
      requires kept && op == Originals(|candidates|) && payload == Nothing(|candidates|) && |live| == |candidates|
      requires forall i :: 0 <= i < |live| ==> !live[i].Original? && live[i] != LinkTo(Payload(i))
      modifies this
      ensures Safe() && |op| == |candidates|
      ensures outcome == Done ==> AllIn() && RowsCaptured(Recorded(old(rows), candidates, generation), rows, captured)
      ensures outcome == Done && DistinctKeys(candidates) ==>
                Registered(old(rows), candidates, generation, captured, rows)
      ensures outcome != Done ==> Refused(old(live), old(rows), decided, outcome, undone)
      ensures prime == if progress == PrimeMoved then Some(generation) else old(prime)
      ensures Unhindered(old(live)) ==>
                Decided(old(tick), decided, 5 * |candidates|, |Recorded(old(rows), candidates, generation)|, outcome)
    {
      ghost var live0 := live;
      assert Moved(live0, 0, true);
      outcome, undone, decided := MoveAndRecord(candidates, live0);
      if outcome == Done && DistinctKeys(candidates) {
        RecordedIsRegistered(old(rows), candidates, generation, captured, rows);
      }
    }

    method MoveAndRecord(candidates: seq<Candidate>, ghost live0: seq<Found>)
        returns (outcome: Outcome, undone: bool, ghost decided: nat)
      requires OnePrimary(rows) && Unregistered(rows, candidates) && progress == Unpublished
      requires Moved(live0, 0, true)
      modifies this
      ensures Safe() && |op| == |old(op)|
      ensures outcome == Done ==> AllIn() && RowsCaptured(Recorded(old(rows), candidates, generation), rows, captured)
      ensures outcome != Done ==> Refused(live0, old(rows), decided, outcome, undone)
      ensures prime == if progress == PrimeMoved then Some(generation) else old(prime)
      ensures Unhindered(live0) ==>
                Decided(old(tick), decided, 5 * |live0|, |Recorded(old(rows), candidates, generation)|, outcome)
    {
      ghost var m, moving := |Recorded(rows, candidates, generation)|, 5 * |live0|;
      var moved, ok := MoveAll(live0);
      ghost var t := tick;
      decided := t;
      if ok {
        outcome, undone, decided := RecordAndPublish(candidates, live0);
        DecidedLater(old(tick), t, decided, m, outcome);
      } else {
        outcome := RefusedMoving;
        undone := Refuse(moved, live0, outcome);
        if Unhindered(live0) { DecidedEarly(old(tick), t, moving, m, outcome); }
      }
    }

    method RecordAndPublish(candidates: seq<Candidate>, ghost live0: seq<Found>)
        returns (outcome: Outcome, undone: bool, ghost decided: nat)
      requires OnePrimary(rows) && Unregistered(rows, candidates) && progress == Unpublished
      requires Moved(live0, |op|, true)
      modifies this
      ensures Safe() && |op| == |old(op)|
      ensures outcome == Done ==> AllIn() && RowsCaptured(Recorded(old(rows), candidates, generation), rows, captured)
      ensures outcome != Done ==> Refused(live0, old(rows), decided, outcome, undone)
      ensures prime == if progress == PrimeMoved then Some(generation) else old(prime)
      ensures Decided(old(tick), decided, 0, |Recorded(old(rows), candidates, generation)|, outcome)
    {
      var previous := PreviousPrimary();
      ghost var t, rows0 := tick, rows;
      var ok := Record(candidates);
      if ok {
        outcome, undone, decided := PublishRecorded(candidates, previous, live0, rows0, t);
      } else {
        outcome := RefusedRecording;
        undone, decided := RefuseToRecord(live0, t, |Recorded(rows0, candidates, generation)|);
      }
    }

    method RefuseToRecord(ghost live0: seq<Found>, ghost from: nat, ghost m: nat) returns (undone: bool, ghost decided: nat)
      requires Moved(live0, |op|, true) && FirstFault(fails, from, tick) && tick == from + 1 && progress == Unpublished
      modifies this`op, this`live, this`payload, this`moment, this`tick, this`kept
      ensures Safe() && |op| == |old(op)|
      ensures Refused(live0, rows, decided, RefusedRecording, undone)
      ensures Decided(from, decided, 0, m, RefusedRecording)
    {
      decided := tick;
      undone := Refuse(|op|, live0, RefusedRecording);
      DecidedEarly(from, decided, 0, m, RefusedRecording);
    }

    method PublishRecorded(candidates: seq<Candidate>, previous: Option<string>, ghost live0: seq<Found>,
                           ghost rows0: map<string, Row>, ghost from: nat)
        returns (outcome: Outcome, undone: bool, ghost decided: nat)
      requires Moved(live0, |op|, true) && OnePrimary(rows0) && Unregistered(rows0, candidates)
      requires rows == Recorded(rows0, candidates, generation) && IsPreviousPrimary(rows0, previous) && progress == Unpublished
      requires NoFault(fails, from, tick) && tick == from + 1
      modifies this
      ensures Safe() && |op| == |old(op)|
      ensures outcome == Done ==> AllIn() && RowsCaptured(Recorded(rows0, candidates, generation), rows, captured)
      ensures outcome != Done ==> Refused(live0, rows0, decided, outcome, undone)
      ensures prime == if progress == PrimeMoved then Some(generation) else old(prime)
      ensures Decided(from, decided, 0, |old(rows)|, outcome)
    {
      outcome, undone, decided := PublishOrUndo(candidates, previous, live0, rows0);
      DecidedNext(from, decided, |old(rows)|, outcome);
    }

    /** What is refused before anything is published. */
    method Refuse(moved: nat, ghost live0: seq<Found>, ghost outcome: Outcome) returns (undone: bool)
      requires Moved(live0, moved, false) && (outcome == RefusedMoving || outcome == RefusedRecording)
      modifies this`op, this`live, this`payload, this`moment, this`tick, this`kept
      ensures Safe() && |op| == |old(op)|
      ensures Refused(live0, rows, old(tick), outcome, undone)
    {
      undone := Undo(moved, live0);
    }

    /** From when the rows are in. */
    ghost predicate Concluded(from: nat, decided: nat, m: nat, outcome: Outcome)
      reads this`progress
    {
      && Took(fails, from, decided, m + Publication(), outcome == Done, true)
      && progress == After(Through(from, decided, outcome == Done) - m, archives)
      && (outcome == Done || outcome == RefusedPublishing)
    }

    lemma DecidedEarly(from: nat, decided: nat, moving: nat, m: nat, outcome: Outcome)
      requires FirstFault(fails, from, decided) && decided <= from + moving + 1 && progress == Unpublished
      requires outcome == if decided <= from + moving then RefusedMoving else RefusedRecording
      ensures Decided(from, decided, moving, m, outcome)
    {
    }

    lemma DecidedNext(t: nat, decided: nat, m: nat, outcome: Outcome)
      requires NoFault(fails, t, t + 1) && Concluded(t + 1, decided, m, outcome)
      ensures Decided(t, decided, 0, m, outcome)
    {
      TookBoth(fails, t, t + 1, decided, 1, m + Publication(), outcome == Done, true);
    }

    lemma DecidedLater(from: nat, t: nat, decided: nat, m: nat, outcome: Outcome)
      requires from <= t && NoFault(fails, from, t) && Decided(t, decided, 0, m, outcome)
      ensures Decided(from, decided, t - from, m, outcome)
    {
      TookBoth(fails, from, t, decided, t - from, 1 + m + Publication(), outcome == Done, true);
    }

    method PublishOrUndo(candidates: seq<Candidate>, previous: Option<string>, ghost live0: seq<Found>,
                         ghost rows0: map<string, Row>) returns (outcome: Outcome, undone: bool, ghost decided: nat)
      requires Moved(live0, |op|, true) && OnePrimary(rows0) && Unregistered(rows0, candidates)
      requires rows == Recorded(rows0, candidates, generation) && IsPreviousPrimary(rows0, previous) && progress == Unpublished
      modifies this
      ensures Safe() && |op| == |old(op)|
      ensures outcome == Done ==> AllIn() && RowsCaptured(Recorded(rows0, candidates, generation), rows, captured)
      ensures outcome != Done ==> Refused(live0, rows0, decided, RefusedPublishing, undone)
      ensures prime == if progress == PrimeMoved then Some(generation) else old(prime)
      ensures Concluded(old(tick), decided, |old(rows)|, outcome)
    {
      outcome := CaptureAndPublish();
      undone, decided := false, tick;
      if outcome != Done {
        undone := TakeBack(candidates, previous, live0, rows0);
      }
    }

    method CaptureAndPublish() returns (outcome: Outcome)
      requires progress == Unpublished
      modifies this`rows, this`op, this`moment, this`tick, this`prime, this`progress
      ensures Untouched(old(op)) && RowsAsBefore(old(rows), rows, captured)
      ensures outcome == Done ==> RowsCaptured(old(rows), rows, captured)
      ensures prime == if progress == PrimeMoved then Some(generation) else old(prime)
      ensures Concluded(old(tick), tick, |old(rows)|, outcome)
    {
      ghost var m := |rows|;
      var ok := CaptureAll();
      if ok {
        ghost var t := tick;
        ok := Publish();
        TookBoth(fails, old(tick), t, tick, m, Publication(), ok, true);
      }
      return if ok then Done else RefusedPublishing;
    }

    /** The refusal of a publication: the rows first, then the roots. */
    method TakeBack(candidates: seq<Candidate>, previous: Option<string>, ghost live0: seq<Found>,
                    ghost rows0: map<string, Row>) returns (undone: bool)
      requires Moved(live0, |op|, true) && OnePrimary(rows0) && Unregistered(rows0, candidates)
      requires RowsAsBefore(Recorded(rows0, candidates, generation), rows, captured) && IsPreviousPrimary(rows0, previous)
      modifies this`op, this`live, this`payload, this`moment, this`tick, this`kept, this`rows
      ensures Safe() && |op| == |old(op)|
      ensures Refused(live0, rows0, old(tick), RefusedPublishing, undone)
    {
      ghost var t := tick;
      RowsRestored(rows0, rows, candidates, generation, previous, captured);
      undone := Unrecord(candidates, previous);
      if undone {
        undone := UndoUnrecorded(t, live0, rows0);
      }
    }

    method UndoUnrecorded(ghost decided: nat, ghost live0: seq<Found>, ghost rows0: map<string, Row>) returns (undone: bool)
      requires Moved(live0, |op|, true) && RowsAsBefore(rows0, rows, captured)
      requires tick == decided + 1 && NoFault(fails, decided, tick)
      modifies this`op, this`live, this`payload, this`moment, this`tick, this`kept
      ensures Safe() && |op| == |old(op)|
      ensures Refused(live0, rows0, decided, RefusedPublishing, undone)
    {
      undone := Undo(|op|, live0);
      NoFaultThen(fails, decided, decided + 1, tick);
    }

    /** Every root is behind its live mapping. */
    ghost predicate AllIn()
      reads this
    {
      && kept && Safe()
      && (forall i :: 0 <= i < |op| ==> payload[i] == Original(i) && live[i] == LinkTo(Payload(i)))
      && (Quiet() ==> forall i :: 0 <= i < |op| ==> op[i] == LinkTo(Live(i)))
    }
  }

  // ----- PRIME and its generation

  /** By the schedule alone: the step after the one that moves PRIME is the first to fail, and no step of
      the undoing fails. */
  ghost predicate LosesPrime(m: RootManager, from: nat, n: nat, rows: nat) {
    var end := from + 5 * n + 1 + rows + m.Publication();
    FirstFault(m.fails, from, end) && NoFault(m.fails, end, end + 1 + 3 * n)
  }

  /** `register` again, for what becomes of PRIME: unhindered, and PRIME not naming the new generation
      before, it names a generation that is gone exactly if the schedule is such. */
  method RegisterAndLookAtPrime(m: RootManager, candidates: seq<Candidate>) returns (outcome: Outcome)
    requires OnePrimary(m.rows) && Unregistered(m.rows, candidates) && m.progress == Unpublished
    requires m.kept && m.op == Originals(|candidates|) && m.payload == Nothing(|candidates|)
    requires |m.live| == |candidates| && m.Unhindered(m.live) && m.prime != Some(m.generation)
    modifies m
    ensures m.prime == Some(m.generation) || m.prime == old(m.prime)
    ensures m.prime == Some(m.generation) && !m.kept
            <==> LosesPrime(m, old(m.tick), |candidates|, |Recorded(old(m.rows), candidates, m.generation)|)
    ensures !m.kept ==> m.Reverted(old(m.live)) && RowsAsBefore(old(m.rows), m.rows, m.captured)
  {
    ghost var t0, n, rows := m.tick, |candidates|, |Recorded(m.rows, candidates, m.generation)|;
    var undone;
    ghost var decided;
    outcome, undone, decided := m.Register(candidates);
    ghost var steps := 5 * n + 1 + rows + m.Publication();
    LastFault(m.fails, t0, decided, steps, outcome == Done, m.tick, 1 + 3 * n, undone);
  }

  /** The last step of a call fails first, and none of the steps after it. */
  lemma LastFault(fails: set<nat>, from: nat, decided: nat, steps: nat, ok: bool, to: nat, more: nat, undone: bool)
    requires Took(fails, from, decided, steps, ok, true) && steps > 0 && more > 0
    requires !ok && decided == from + steps ==> Took(fails, decided, to, more, undone, true)
    ensures !ok && decided == from + steps && undone
            <==> FirstFault(fails, from, from + steps) && NoFault(fails, from + steps, from + steps + more)
  {
    TookMeans(fails, from, decided, steps, ok, from + steps);
    if !ok && decided == from + steps {
      TookMeans(fails, decided, to, more, undone, decided + 1);
    }
  }

  /** And there is such a run, for any roots and rows: one step fails. */
  method RegistrationCanLosePrime(candidates: seq<Candidate>, generation: string, rows: map<string, Row>,
                                  prime: Option<string>, archives: bool, captured: map<string, string>)
    returns (m: RootManager)
    requires OnePrimary(rows) && Unregistered(rows, candidates) && prime != Some(generation)
    ensures m.prime == Some(generation) && !m.kept
    ensures m.Reverted(Nothing(|candidates|)) && RowsAsBefore(rows, m.rows, captured)
  {
    var n := |candidates|;
    var step := 5 * n + |Recorded(rows, candidates, generation)| + if archives then 4 else 3;
    m := new RootManager(n, generation, Nothing(n), rows, prime, archives, {step}, map[], captured);
    SingleFault(step, step + 2 + 3 * n);
    var outcome := RegisterAndLookAtPrime(m, candidates);
  }
}
