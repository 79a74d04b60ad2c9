/** Removing a root: a copy is put at the operator's path in one exchange, and taken away again when a
    later step fails, while the operator may already be writing into it. */
module Removal {
  import opened Wrappers
  import opened RootRows
  import opened Schedules
  import opened Publications

  /** What stands at a path; a tree is told by its content. */
  datatype Found = Absent | Route | Tree(content: string)

  /** What the store says PRIME is. */
  datatype Prime = Prime(instance: Option<string>, content: Option<string>, generation: Option<string>, dirty: bool)

  datatype Outcome = Removed | RemovedUnflushed | Declined | NotExchanged | RolledBack

  /** PRIME when so many of the four writes that clear it went through. */
  function Cleared(prime: Prime, steps: int): Prime {
    if steps <= 0 then prime
    else if steps == 1 then prime.(instance := None)
    else if steps == 2 then prime.(instance := None, content := None)
    else if steps == 3 then prime.(instance := None, content := None, generation := None)
    else Prime(None, None, None, false)
  }

  /** PRIME when so many steps went through of publishing the remaining roots or, where none remain, of
      clearing it. */
  function PrimeAfter(before: Prime, published: Prime, remaining: nat, steps: int, archives: bool): Prime {
    if remaining == 0 then Cleared(before, steps)
    else if After(steps, archives) == PrimeMoved then published
    else before
  }

  /** The steps before the exchange: a capture of the root, one of each remaining root and a look at what
      clients could reach in it, the copy, and a second capture of the root. */
  function PrepareSteps(remaining: nat): nat { if remaining == 0 then 3 else remaining + 4 }

  /** The steps on the rows. */
  function RowSteps(remaining: nat, primary: bool): nat { if primary && remaining > 0 then 2 else 1 }

  function PrimeSteps(remaining: nat, archives: bool): nat {
    if remaining == 0 then 4 else PublicationSteps(archives)
  }

  class RootRemoval {
    const key: string
    const fails: set<nat>                 // the steps that fail
    const writes: map<nat, string>        // what the operator writes into a tree at the path
    const captured: map<string, string>
    const archives: bool                  // whether there is an old PRIME to archive
    const published: Prime                // what PRIME is once the remaining roots are published
    var tick: nat
    var path: Found
    var stage: Found
    var kept: Option<string>              // what a rollback put beside the path
    var mapped: bool                      // the live mapping's entry
    var rows: map<string, Row>
    var progress: Progress
    var prime: Prime
    var generation: bool                  // the generation prepared for the remaining roots exists
    ghost var latest: Option<string>      // the content last at the operator's path

    constructor (key: string, rows: map<string, Row>, prime: Prime, published: Prime, archives: bool,
                 fails: set<nat>, writes: map<nat, string>, captured: map<string, string>)
      ensures this.key == key && this.rows == rows && this.prime == prime && this.published == published
      ensures this.archives == archives && this.fails == fails && this.writes == writes && this.captured == captured
      ensures Ready() && tick == 0
    {
      this.key := key;
      this.rows := rows;
      this.prime := prime;
      this.published := published;
      this.archives := archives;
      this.fails := fails;
      this.writes := writes;
      this.captured := captured;
      tick := 0;
      path, stage, kept := Route, Absent, None;
      mapped, progress, generation := true, Unpublished, false;
      latest := None;
    }

    /** Nothing of the removal has been done. */
    ghost predicate Ready()
      reads this
    {
      && path == Route && stage == Absent && kept == None && mapped
      && progress == Unpublished && !generation && latest == None
    }

    ghost predicate Quiet() {
      writes == map[]
    }

    /** The operator may write into a tree at the path, and nothing else happens there. */
    ghost predicate Watched(path0: Found, latest0: Option<string>)
      reads this`path, this`latest
    {
      && (path.Tree? <==> path0.Tree?)
      && (!path.Tree? ==> path == path0 && latest == latest0)
      && (path.Tree? && latest0 == Some(path0.content) ==> latest == Some(path.content))
      && (Quiet() ==> path == path0 && latest == latest0)
    }

    /** One more step of the schedule has been taken. */
    ghost predicate Counted(t: nat, failed: bool)
      reads this`tick
    {
      && tick == t + 1 && failed == (t in fails)
      && if failed then FirstFault(fails, t, tick) else NoFault(fails, t, tick)
    }

    /** The operator writes, if a tree stands at the path; then a step fails or does not. */
    method Step() returns (failed: bool)
      modifies this`tick, this`path, this`latest
      ensures Watched(old(path), old(latest)) && Counted(old(tick), failed)
    {
      if path.Tree? && tick in writes {
        path := Tree(writes[tick]);
        latest := Some(writes[tick]);
      }
      failed := tick in fails;
      OneStep(fails, tick);
      tick := tick + 1;
    }

    /** What the operator last had at the path is somewhere still: there, in the stage, or kept; or it is
        the copy as it was made, of what the store holds. */
    ghost predicate NothingLost(copied: string)
      reads this
    {
      latest.Some? ==>
        path == Tree(latest.value) || stage == Tree(latest.value) || kept == latest || latest.value == copied
    }

    /** The copy is at the path, and the operator's link in the stage. */
    ghost predicate Swapped(copied: string)
      reads this
    {
      && path.Tree? && latest == Some(path.content) && stage == Route && kept == None && mapped
      && (Quiet() ==> path == Tree(copied))
    }

    // ----- forward

    /** The capture of the remaining roots records their manifests. */
    method CaptureRemaining() returns (ok: bool)
      requires path == Route && key in rows
      modifies this`tick, this`path, this`latest, this`rows
      ensures path == Route && latest == old(latest)
      ensures Captured(old(rows), rows) && (ok ==> OthersCaptured(old(rows), rows))
      ensures Took(fails, old(tick), tick, |old(rows)| - 1, ok, true)
    {
      var rest := rows.Keys - {key};
      ghost var all := rows.Keys - {key};
      assert |all| == |rows| - 1;
      while rest != {}
        invariant path == Route && latest == old(latest) && Captured(old(rows), rows)
        invariant rest <= all && key !in rest && |rest| <= |all| == |old(rows)| - 1
        invariant rest <= rows.Keys
        invariant forall k :: k in old(rows) ==>
                    rows[k] == if k in rest || k == key then old(rows)[k] else Recaptured(old(rows)[k], k, captured)
        invariant Took(fails, old(tick), tick, |all| - |rest|, true, true)
        decreases |rest|
      {
        ghost var t := tick;
        var failed := Step();
        var k :| k in rest;
        TookBoth(fails, old(tick), t, tick, |all| - |rest|, 1, !failed, true);
        if failed {
          return false;
        }
        rows := rows[k := Recaptured(rows[k], k, captured)];
        rest := rest - {k};
      }
      return true;
    }

    /** The manifests of the other roots may have been captured anew. */
    ghost predicate Captured(before: map<string, Row>, after: map<string, Row>) {
      key in before && RowsAsBefore(before, after, captured) && after[key] == before[key]
    }

    /** They all have been, and nothing else changed. */
    ghost predicate OthersCaptured(before: map<string, Row>, after: map<string, Row>) {
      && key in before && after.Keys == before.Keys && after[key] == before[key]
      && forall k :: k in before && k != key ==> after[k] == Recaptured(before[k], k, captured)
    }

    /** The captures, the copy, and the second look at the source; nothing is changed for the operator. */
    method Prepare(copied: string, source: string) returns (ok: bool, ghost decided: nat)
      requires path == Route && stage == Absent && !generation && key in rows
      modifies this`tick, this`path, this`latest, this`stage, this`generation, this`rows
      ensures path == Route && latest == old(latest) && Captured(old(rows), rows)
      ensures ok ==> stage == Tree(copied) && source == copied && generation == (|rows| > 1) && decided == tick
      ensures ok ==> OthersCaptured(old(rows), rows)
      ensures !ok ==> decided <= tick && (NoFault(fails, decided, tick) ==> stage == Absent && !generation)
      ensures Took(fails, old(tick), decided, PrepareSteps(|old(rows)| - 1), ok, source == copied)
    {
      var failed := Step();
      if failed { return false, tick; }
      ghost var t := tick;
      ok := CaptureOthers();
      TookBoth(fails, old(tick), t, tick, 1, PrepareSteps(|old(rows)| - 1) - 3, ok, true);
      if ok {
        t := tick;
        ok := CopyAndLookAgain(copied, source);
        TookBoth(fails, old(tick), t, tick, PrepareSteps(|old(rows)| - 1) - 2, 2, ok, source == copied);
      }
      decided := tick;
      if !ok {
        Clean();
      }
    }

    /** The other roots into a fresh generation, if there are any. */
    method CaptureOthers() returns (ok: bool)
      requires path == Route && key in rows && !generation
      modifies this`tick, this`path, this`latest, this`generation, this`rows
      ensures path == Route && latest == old(latest) && Captured(old(rows), rows)
      ensures ok ==> OthersCaptured(old(rows), rows)
      ensures generation == (|rows| > 1)
      ensures Took(fails, old(tick), tick, if |old(rows)| == 1 then 0 else |old(rows)|, ok, true)
    {
      if |rows| == 1 {
        OnlyKey(rows);
        return true;
      }
      generation := true;
      ok := CaptureRemaining();
      if ok {
        ghost var t := tick;
        var failed := Step();            // what clients could reach in it
        TookBoth(fails, old(tick), t, tick, |old(rows)| - 1, 1, !failed, true);
        ok := !failed;
      }
    }

    lemma OnlyKey(before: map<string, Row>)
      requires key in before && |before| == 1
      ensures OthersCaptured(before, before)
    {
      assert |before.Keys - {key}| == 0;
      forall k | k in before ensures k == key {
        assert k in before.Keys - {key} || k == key;
      }
    }

    method CopyAndLookAgain(copied: string, source: string) returns (ok: bool)
      requires path == Route && stage == Absent
      modifies this`tick, this`path, this`latest, this`stage
      ensures path == Route && latest == old(latest)
      ensures stage == Absent || stage == Tree(copied)
      ensures ok ==> stage == Tree(copied) && source == copied
      ensures Took(fails, old(tick), tick, 2, ok, source == copied)
    {
      var failed := Step();
      if failed { return false; }
      stage := Tree(copied);
      ghost var t := tick;
      failed := Step();
      TookBoth(fails, old(tick), t, tick, 1, 1, !failed, true);
      return !failed && source == copied;      // else what is at the source now is not what was copied
    }

    /** The stage and the generation removed again; a failure in that is ignored. */
    method Clean()
      requires path == Route
      modifies this`tick, this`path, this`latest, this`stage, this`generation
      ensures path == Route && latest == old(latest) && old(tick) <= tick
      ensures NoFault(fails, old(tick), tick) ==> stage == Absent && !generation
    {
      if stage != Absent {
        var failed := Step();
        stage := if failed then stage else Absent;
      }
      ghost var t := tick;
      if generation {
        var failed := Step();
        generation := failed;
      }
      NoFaultAdds(fails, old(tick), t, tick);
    }

    /** The row removed, another root made primary, the rest published or PRIME cleared. */
    method Record(wasPrimary: bool, next: Option<string>, ghost copied: string) returns (ok: bool)
      requires Swapped(copied) && key in rows && progress == Unpublished
      requires next.Some? ==> next.value in rows && next.value != key
      requires next.Some? <==> |rows| > 1
      modifies this`tick, this`path, this`latest, this`rows, this`progress, this`prime
      ensures Swapped(copied)
      ensures ok ==> rows == WithoutKey(old(rows), wasPrimary, next)
      ensures !ok ==> HalfRemoved(old(rows), wasPrimary, next)
      ensures PrimeIs(old(prime), |old(rows)| - 1, Through(old(tick), tick, ok) - RowSteps(|old(rows)| - 1, wasPrimary))
      ensures Took(fails, old(tick), tick, RowSteps(|old(rows)| - 1, wasPrimary) + PrimeSteps(|old(rows)| - 1, archives), ok, true)
    {
      ok := RecordRows(wasPrimary, next, copied);
      if ok {
        ghost var t := tick;
        if next.Some? { ok := Publish(copied); } else { ok := ClearPrime(copied); }
        TookBoth(fails, old(tick), t, tick, RowSteps(|old(rows)| - 1, wasPrimary), PrimeSteps(|old(rows)| - 1, archives), ok, true);
      }
    }

    /** What became of PRIME, by the number of steps on it that went through. */
    ghost predicate PrimeIs(prime0: Prime, remaining: nat, steps: int)
      reads this`progress, this`prime
    {
      && progress == (if remaining == 0 then Unpublished else After(steps, archives))
      && prime == PrimeAfter(prime0, published, remaining, steps, archives)
    }

    function WithoutKey(before: map<string, Row>, wasPrimary: bool, next: Option<string>): map<string, Row> {
      if wasPrimary && next.Some? then MakePrimary(before - {key}, next.value) else before - {key}
    }

    ghost predicate HalfRemoved(before: map<string, Row>, wasPrimary: bool, next: Option<string>)
      reads this`rows
    {
      rows == before || rows == before - {key} || rows == WithoutKey(before, wasPrimary, next)
    }

    method RecordRows(wasPrimary: bool, next: Option<string>, ghost copied: string) returns (ok: bool)
      requires Swapped(copied) && key in rows && (next.Some? <==> |rows| > 1)
      modifies this`tick, this`path, this`latest, this`rows
      ensures Swapped(copied)
      ensures if ok then rows == WithoutKey(old(rows), wasPrimary, next) else HalfRemoved(old(rows), wasPrimary, next)
      ensures Took(fails, old(tick), tick, RowSteps(|old(rows)| - 1, wasPrimary), ok, true)
    {
      var failed := Step();
      if failed { return false; }
      rows := rows - {key};
      if next.Some? && wasPrimary {
        ghost var t := tick;
        failed := Step();
        TookBoth(fails, old(tick), t, tick, 1, 1, !failed, true);
        if failed { return false; }
        rows := MakePrimary(rows, next.value);
      }
      return true;
    }

    /** `publish_checkpoint`, as far as a removal is concerned. */
    method Publish(ghost copied: string) returns (ok: bool)
      requires Swapped(copied) && progress == Unpublished
      modifies this`tick, this`path, this`latest, this`progress, this`prime
      ensures Swapped(copied)
      ensures progress == After(Through(old(tick), tick, ok), archives)
      ensures prime == if progress == PrimeMoved then published else old(prime)
      ensures Took(fails, old(tick), tick, PublicationSteps(archives), ok, true)
    {
      ghost var t := tick;
      var failed := Step();
      if failed { return false; }
      progress := WorldRecorded;
      if archives {
        failed := Step();
        NoFaultThen(fails, t, t + 1, tick);
        if failed { return false; }
        progress := OldArchived;
      }
      ghost var t1 := tick;
      ok := MovePrime(copied);
      TookBoth(fails, t, t1, tick, t1 - t, 2, ok, true);
    }

    method MovePrime(ghost copied: string) returns (ok: bool)
      requires Swapped(copied)
      modifies this`tick, this`path, this`latest, this`progress, this`prime
      ensures Swapped(copied)
      ensures Took(fails, old(tick), tick, 2, ok, true)
      ensures if tick == old(tick) + 1 then progress == old(progress) && prime == old(prime)
              else progress == PrimeMoved && prime == published
    {
      ghost var t := tick;
      var failed := Step();
      if failed { return false; }
      prime, progress := published, PrimeMoved;
      failed := Step();                 // the active world's name
      NoFaultThen(fails, t, t + 1, tick);
      return !failed;
    }

    /** PRIME's four entries, one after another, when no root remains. */
    method ClearPrime(ghost copied: string) returns (ok: bool)
      requires Swapped(copied)
      modifies this`tick, this`path, this`latest, this`prime
      ensures Swapped(copied)
      ensures prime == Cleared(old(prime), Through(old(tick), tick, ok))
      ensures Took(fails, old(tick), tick, 4, ok, true)
    {
      ghost var t := tick;
      var failed := Step();
      if failed { return false; }
      prime := prime.(instance := None);
      failed := Step();
      NoFaultThen(fails, t, t + 1, tick);
      if failed { return false; }
      prime := prime.(content := None);
      failed := Step();
      NoFaultThen(fails, t, t + 2, tick);
      if failed { return false; }
      prime := prime.(generation := None);
      failed := Step();
      NoFaultThen(fails, t, t + 3, tick);
      if failed { return false; }
      prime := prime.(dirty := false);
      return true;
    }

    /** The operator's link and the mapping's entry removed, and both directories flushed. */
    method Finish() returns (ok: bool)
      requires path.Tree? && latest == Some(path.content) && stage != Absent && mapped
      modifies this`tick, this`path, this`latest, this`stage, this`mapped
      ensures path.Tree? && latest == Some(path.content) && (Quiet() ==> path == old(path))
      ensures stage == (if Through(old(tick), tick, ok) >= 1 then Absent else old(stage))
      ensures mapped == (Through(old(tick), tick, ok) < 2)
      ensures Took(fails, old(tick), tick, 4, ok, true)
    {
      ghost var t := tick;
      var failed := Step();
      if failed { return false; }
      stage := Absent;
      failed := Step();
      NoFaultThen(fails, t, t + 1, tick);
      if failed { return false; }
      mapped := false;
      failed := Step();
      NoFaultThen(fails, t, t + 2, tick);
      if failed { return false; }
      failed := Step();
      NoFaultThen(fails, t, t + 3, tick);
      return !failed;
    }

    // ----- back

    /** The row added again as it was, and then made primary if it was. */
    method Reinstate(row: Row) returns (ok: bool)
      modifies this`tick, this`path, this`latest, this`rows
      ensures Watched(old(path), old(latest))
      ensures ok ==> rows == Reinstated(old(rows), row)
      ensures old(tick) <= tick && (ok <==> NoFault(fails, old(tick), tick))
    {
      ghost var t := tick;
      assert NoFault(fails, t, t);
      if key !in rows {
        var failed := Step();
        if failed { return false; }
        rows := rows[key := row.(primary := false)];
      }
      if row.primary {
        ghost var t1 := tick;
        var failed := Step();
        NoFaultAdds(fails, t, t1, tick);
        if failed { return false; }
        rows := MakePrimary(rows, key);
      }
      return true;
    }

    function Reinstated(before: map<string, Row>, row: Row): map<string, Row> {
      var added := if key in before then before else before[key := row.(primary := false)];
      if row.primary then MakePrimary(added, key) else added
    }

    /** The operator's path swapped back, whatever the store did; the copy removed only if it is still
        what was made, and otherwise kept beside the path. */
    method SwapBack(copied: string) returns (ok: bool)
      requires Swapped(copied)
      modifies this`tick, this`path, this`latest, this`stage, this`kept
      ensures NothingLost(copied) && old(tick) <= tick
      ensures ok ==> path == Route && (kept == None ==> latest == Some(copied))
      ensures !ok ==> (path.Tree? && stage == Route) || (path == Route && stage.Tree?)
      ensures !ok ==> !NoFault(fails, old(tick), tick)
      ensures NoFault(fails, old(tick), tick) ==> stage == Absent && kept == if latest == Some(copied) then None else latest
    {
      ghost var t := tick;
      var failed := Step();
      if failed { return false; }
      path, stage := stage, path;
      ok := Keep(copied);
      NoFaultAdds(fails, t, t + 1, tick);
    }

    method Keep(copied: string) returns (ok: bool)
      requires path == Route && stage.Tree? && latest == Some(stage.content) && kept == None
      modifies this`tick, this`path, this`latest, this`stage, this`kept
      ensures NothingLost(copied) && path == Route && latest == old(latest) && old(tick) <= tick
      ensures kept == None && ok ==> latest == Some(copied)
      ensures !ok ==> stage.Tree? && !NoFault(fails, old(tick), tick)
      ensures NoFault(fails, old(tick), tick) ==> stage == Absent && kept == if latest == Some(copied) then None else latest
    {
      ghost var t := tick;
      var failed := Step();                  // the capture of the copy
      var same := !failed && stage == Tree(copied);
      failed := Step();
      NoFaultAdds(fails, t, t + 1, tick);
      if same {                         // a failure to remove it is ignored
        stage := if failed then stage else Absent;
        return true;
      }
      if failed { return false; }
      kept, stage := Some(stage.content), Absent;
      return true;
    }

    /** `_discard_unpublished`: only a generation nothing was recorded over. */
    method DiscardUnpublished()
      requires path == Route
      modifies this`tick, this`path, this`latest, this`generation
      ensures path == Route && latest == old(latest) && old(tick) <= tick
      ensures progress != Unpublished ==> generation == old(generation)
      ensures generation ==> old(generation)
      ensures NoFault(fails, old(tick), tick) ==> (generation <==> old(generation) && progress != Unpublished)
    {
      if generation {
        var failed := Step();
        if !failed && progress == Unpublished {
          generation := false;
        }
      }
    }

    // ----- the whole

    /** When the root is as it was copied, the schedule of failing steps alone decides; `remaining` roots
        are left, and the root was the primary one or not. The first failing step, before `decided`, tells
        where the removal ended and what became of PRIME. From `from` on, `before` steps precede the
        exchange; it is -1 after the exchange. */
    ghost predicate Decided(from: nat, decided: nat, before: int, remaining: nat, wasPrimary: bool, prime0: Prime, outcome: Outcome)
      requires before >= -1
      reads this`progress, this`prime
    {
      var r := RowSteps(remaining, wasPrimary);
      var end := before + 1 + r + PrimeSteps(remaining, archives);
      var through := Through(from, decided, outcome == Removed);
      && Took(fails, from, decided, end + 4, outcome == Removed, true)
      && (outcome == Declined <==> through < before)
      && (outcome == NotExchanged <==> through == before)
      && (outcome == RolledBack <==> before < through < end)
      && PrimeIs(prime0, remaining, through - before - 1 - r)
      && PrimeTold(remaining, prime0, outcome)
    }

    /** What PRIME is then. A removal that ends moves it to the remaining roots, or clears it when none
        remain; one rolled back can have moved it already, or have cleared some of it: first the instance,
        then the content, then the generation. */
    ghost predicate PrimeTold(remaining: nat, prime0: Prime, outcome: Outcome)
      reads this`progress, this`prime
    {
      && (outcome == Declined || outcome == NotExchanged ==> prime == prime0 && progress == Unpublished)
      && (outcome == Removed || outcome == RemovedUnflushed ==>
            if remaining > 0 then prime == published && progress == PrimeMoved
            else prime.instance == None && prime.content == None && prime.generation == None && !prime.dirty)
      && (outcome == RolledBack && remaining > 0 ==>
            (prime == prime0 && progress != PrimeMoved) || (prime == published && progress == PrimeMoved))
      && (outcome == RolledBack && remaining == 0 ==>
            && progress == Unpublished && prime.dirty == prime0.dirty
            && (prime.instance == None || prime == prime0)
            && (prime.content == None || (prime.content == prime0.content && prime.generation == prime0.generation))
            && (prime.generation == None || prime.generation == prime0.generation))
    }

    /** Nothing has changed for the operator. */
    ghost predicate AsItWas(rows0: map<string, Row>)
      reads this
    {
      path == Route && mapped && kept == None && latest == None && Captured(rows0, rows)
    }

    /** The operator's own tree is at the path, and the row is gone; if it was the primary one's, another
        root is primary. */
    ghost predicate Gone(before: map<string, Row>, copied: string)
      reads this
    {
      path.Tree? && latest == Some(path.content) && (Quiet() ==> path == Tree(copied)) && RowGone(before, rows)
    }

    /** The other rows, in their generations and captured anew, each primary as it was; but if the root gone
        was the primary one, exactly one of them is. */
    ghost predicate RowGone(before: map<string, Row>, after: map<string, Row>) {
      && key in before && after.Keys == before.Keys - {key}
      && (forall k :: k in after ==>
            && after[k].generation == before[k].generation
            && after[k].manifest == ManifestNow(captured, k, before[k].manifest))
      && if before[key].primary then OnePrimary(after) && (after != map[] ==> exists k :: k in after && after[k].primary)
         else forall k :: k in after ==> after[k].primary == before[k].primary
    }

    /** What a rollback leaves. What could be undone is as it was, the copy gone only if nothing was written
        into it; without a failing step in the undoing that is everything but what was published, the copy
        kept exactly if it was written into. */
    ghost predicate Undone(rows0: map<string, Row>, copied: string, decided: nat, undone: bool)
      reads this
    {
      && mapped && decided <= tick && (progress != Unpublished ==> generation)
      && (undone ==> path == Route && Captured(rows0, rows) && (kept == None ==> latest == Some(copied)))
      && (NoFault(fails, decided, tick) ==>
            && undone && stage == Absent
            && kept == (if latest == Some(copied) then None else latest)
            && (generation <==> progress != Unpublished))
    }

    /** `remove`, once confirmed. `copied` is what the first capture found, `source` what the second does. */
    method Remove(copied: string, source: string) returns (outcome: Outcome, undone: bool, ghost decided: nat)
      requires key in rows && OnePrimary(rows) && Ready()
      modifies this
      ensures NothingLost(copied)
      ensures source == copied ==>
                Decided(old(tick), decided, PrepareSteps(|old(rows)| - 1), |old(rows)| - 1, old(rows)[key].primary, old(prime), outcome)
      ensures source != copied ==> outcome == Declined && prime == old(prime) && progress == Unpublished
      ensures outcome == Declined ==>
                AsItWas(old(rows)) && (NoFault(fails, decided, tick) ==> stage == Absent && !generation)
      ensures outcome == NotExchanged ==> AsItWas(old(rows)) && stage == Tree(copied)
      ensures outcome == RolledBack ==> Undone(old(rows), copied, decided, undone)
      ensures outcome == Removed || outcome == RemovedUnflushed ==> Gone(old(rows), copied)
      ensures outcome == Removed ==> !mapped && stage == Absent
    {
      ghost var rows0, prime0 := rows, prime;
      ghost var n, primary := |rows| - 1, rows[key].primary;
      var ok;
      ok, decided := Prepare(copied, source);
      ghost var t := tick;
      undone := false;
      if ok {
        SameShape(rows0, rows);
        outcome, undone, decided := ExchangeAndCommit(copied, rows0);
        DecidedLater(old(tick), t, decided, 0, n, primary, prime0, outcome);
      } else {
        outcome := Declined;
        if source == copied { DecidedEarly(old(tick), decided, PrepareSteps(n), n, primary, prime0, outcome); }
      }
    }

    lemma SameShape(before: map<string, Row>, after: map<string, Row>)
      requires Captured(before, after) && OnePrimary(before)
      ensures |after| == |before| && OnePrimary(after)
    {
      assert |after.Keys| == |before.Keys|;
    }

    lemma DecidedLater(from: nat, t: nat, decided: nat, before: int, remaining: nat, wasPrimary: bool, prime0: Prime,
                       outcome: Outcome)
      requires from <= t && NoFault(fails, from, t) && -1 <= before
      requires Decided(t, decided, before, remaining, wasPrimary, prime0, outcome)
      ensures Decided(from, decided, before + t - from, remaining, wasPrimary, prime0, outcome)
    {
      var limit := before + 1 + RowSteps(remaining, wasPrimary) + PrimeSteps(remaining, archives) + 4;
      TookBoth(fails, from, t, decided, t - from, limit, outcome == Removed, true);
    }

    lemma DecidedEarly(from: nat, decided: nat, before: nat, remaining: nat, wasPrimary: bool, prime0: Prime, outcome: Outcome)
      requires FirstFault(fails, from, decided) && decided <= from + before + 1
      requires prime == prime0 && progress == Unpublished
      requires outcome == if decided <= from + before then Declined else NotExchanged
      ensures Decided(from, decided, before, remaining, wasPrimary, prime0, outcome)
    {
    }

    lemma DecidedOnRecord(from: nat, decided: nat, remaining: nat, wasPrimary: bool, prime0: Prime)
      requires Took(fails, from, decided, RowSteps(remaining, wasPrimary) + PrimeSteps(remaining, archives), false, true)
      requires PrimeIs(prime0, remaining, Through(from, decided, false) - RowSteps(remaining, wasPrimary))
      ensures Decided(from, decided, -1, remaining, wasPrimary, prime0, RolledBack)
    {
    }

    lemma DecidedAtEnd(from: nat, t: nat, decided: nat, remaining: nat, wasPrimary: bool, prime0: Prime, outcome: Outcome)
      requires Took(fails, from, t, RowSteps(remaining, wasPrimary) + PrimeSteps(remaining, archives), true, true)
      requires PrimeIs(prime0, remaining, t - from - RowSteps(remaining, wasPrimary))
      requires outcome == Removed || outcome == RemovedUnflushed
      requires Took(fails, t, decided, 4, outcome == Removed, true)
      ensures Decided(from, decided, -1, remaining, wasPrimary, prime0, outcome)
    {
      TookBoth(fails, from, t, decided, t - from, 4, outcome == Removed, true);
    }

    /** All that can refuse has been done. */
    ghost predicate Prepared(copied: string, rows0: map<string, Row>)
      reads this
    {
      && path == Route && stage == Tree(copied) && kept == None && mapped && latest == None && progress == Unpublished
      && OthersCaptured(rows0, rows) && |rows| == |rows0| && OnePrimary(rows) && generation == (|rows| > 1)
    }

    method ExchangeAndCommit(copied: string, ghost rows0: map<string, Row>)
        returns (outcome: Outcome, undone: bool, ghost decided: nat)
      requires Prepared(copied, rows0)
      modifies this
      ensures NothingLost(copied) && outcome != Declined
      ensures Decided(old(tick), decided, 0, |rows0| - 1, rows0[key].primary, old(prime), outcome)
      ensures outcome == NotExchanged ==> AsItWas(rows0) && stage == Tree(copied)
      ensures outcome == RolledBack ==> Undone(rows0, copied, decided, undone)
      ensures outcome == Removed || outcome == RemovedUnflushed ==> Gone(rows0, copied)
      ensures outcome == Removed ==> !mapped && stage == Absent
    {
      ghost var n, primary, prime0 := |rows0| - 1, rows0[key].primary, prime;
      var exchanged := Exchange(copied);
      ghost var t := tick;
      decided, undone := t, false;
      if exchanged {
        outcome, undone, decided := Commit(copied, rows0);
        DecidedLater(old(tick), t, decided, -1, n, primary, prime0, outcome);
      } else {
        outcome := NotExchanged;
        DecidedEarly(old(tick), decided, 0, n, primary, prime0, outcome);
      }
    }

    method Exchange(copied: string) returns (ok: bool)
      requires path == Route && stage == Tree(copied) && kept == None && mapped && latest == None
      modifies this`tick, this`path, this`latest, this`stage
      ensures if ok then Swapped(copied) else path == Route && stage == Tree(copied) && latest == None
      ensures Counted(old(tick), !ok)
    {
      var failed := Step();
      if failed { return false; }
      path, stage := stage, path;
      latest := Some(copied);
      return true;
    }

    method Commit(copied: string, ghost rows0: map<string, Row>)
        returns (outcome: Outcome, undone: bool, ghost decided: nat)
      requires Swapped(copied) && OthersCaptured(rows0, rows) && |rows| == |rows0| && OnePrimary(rows)
      requires progress == Unpublished && generation == (|rows| > 1)
      modifies this
      ensures NothingLost(copied) && outcome != Declined && outcome != NotExchanged
      ensures Decided(old(tick), decided, -1, |rows0| - 1, rows0[key].primary, old(prime), outcome)
      ensures outcome == RolledBack ==> Undone(rows0, copied, decided, undone)
      ensures outcome == Removed || outcome == RemovedUnflushed ==> Gone(rows0, copied)
      ensures outcome == Removed ==> !mapped && stage == Absent
    {
      ghost var rows1, n, prime0 := rows, |rows0| - 1, prime;
      var row := rows[key];
      var next := Another();
      var ok := Record(row.primary, next, copied);
      decided, undone := tick, false;
      if ok {
        GoneFrom(rows0, rows1, rows, next);
        outcome := FinishRemoval(rows0, copied);
        DecidedAtEnd(old(tick), decided, tick, n, row.primary, prime0, outcome);
        decided := tick;
      } else {
        outcome, undone := TakeBack(row, copied, rows0, rows1, next, old(tick), n, prime0);
      }
    }

    method TakeBack(row: Row, copied: string, ghost rows0: map<string, Row>, ghost rows1: map<string, Row>,
                    ghost next: Option<string>, ghost from: nat, ghost remaining: nat, ghost prime0: Prime)
        returns (outcome: Outcome, undone: bool)
      requires Swapped(copied) && Captured(rows0, rows1) && row == rows1[key] && OnePrimary(rows1)
      requires HalfRemoved(rows1, row.primary, next) && (progress != Unpublished ==> generation)
      requires Took(fails, from, tick, RowSteps(remaining, row.primary) + PrimeSteps(remaining, archives), false, true)
      requires PrimeIs(prime0, remaining, Through(from, tick, false) - RowSteps(remaining, row.primary))
      modifies this`tick, this`path, this`latest, this`stage, this`kept, this`rows, this`generation
      ensures outcome == RolledBack && NothingLost(copied)
      ensures Decided(from, old(tick), -1, remaining, row.primary, prime0, RolledBack)
      ensures Undone(rows0, copied, old(tick), undone)
    {
      DecidedOnRecord(from, tick, remaining, row.primary, prime0);
      outcome := RolledBack;
      undone := RollBack(row, copied, rows0, rows1, next);
    }

    method FinishRemoval(ghost rows0: map<string, Row>, ghost copied: string) returns (outcome: Outcome)
      requires Swapped(copied) && RowGone(rows0, rows)
      modifies this`tick, this`path, this`latest, this`stage, this`mapped
      ensures Gone(rows0, copied)
      ensures outcome == Removed || outcome == RemovedUnflushed
      ensures outcome == Removed ==> !mapped && stage == Absent
      ensures Took(fails, old(tick), tick, 4, outcome == Removed, true)
    {
      var ok := Finish();
      return if ok then Removed else RemovedUnflushed;
    }

    method Another() returns (next: Option<string>)
      requires key in rows
      ensures next.Some? ==> next.value in rows && next.value != key
      ensures next.Some? <==> |rows| > 1
    {
      var remaining := rows.Keys - {key};
      assert |remaining| == |rows| - 1;
      if k :| k in remaining {
        return Some(k);
      }
      return None;
    }

    lemma GoneFrom(rows0: map<string, Row>, rows1: map<string, Row>, after: map<string, Row>, next: Option<string>)
      requires OthersCaptured(rows0, rows1) && OnePrimary(rows1)
      requires if next.Some? then next.value in rows1 && next.value != key else |rows1| == 1
      requires after == WithoutKey(rows1, rows1[key].primary, next)
      ensures RowGone(rows0, after)
    {
      if rows1[key].primary && next.Some? {
        assert next.value in after && after[next.value].primary;
      } else if next.None? {
        assert |rows1.Keys - {key}| == 0;
        assert after.Keys == {};
      }
    }

    method RollBack(row: Row, copied: string, ghost rows0: map<string, Row>, ghost rows1: map<string, Row>, ghost next: Option<string>)
        returns (undone: bool)
      requires Swapped(copied) && Captured(rows0, rows1) && row == rows1[key] && OnePrimary(rows1)
      requires HalfRemoved(rows1, row.primary, next) && (progress != Unpublished ==> generation)
      modifies this`tick, this`path, this`latest, this`stage, this`kept, this`rows, this`generation
      ensures NothingLost(copied)
      ensures Undone(rows0, copied, old(tick), undone)
    {
      ghost var t, before := tick, rows;
      var reinstated := Reinstate(row);
      if reinstated { RowsReinstated(rows1, before, row, next); }
      ghost var t1 := tick;
      undone := TakeAway(copied);
      NoFaultAdds(fails, t, t1, tick);
      undone := undone && reinstated;
    }

    method TakeAway(copied: string) returns (swapped: bool)
      requires Swapped(copied)
      modifies this`tick, this`path, this`latest, this`stage, this`kept, this`generation
      ensures NothingLost(copied) && old(tick) <= tick
      ensures progress != Unpublished && old(generation) ==> generation
      ensures swapped ==> path == Route && (kept == None ==> latest == Some(copied))
      ensures NoFault(fails, old(tick), tick) ==>
                && swapped && stage == Absent
                && kept == (if latest == Some(copied) then None else latest)
                && (generation <==> old(generation) && progress != Unpublished)
    {
      ghost var t := tick;
      swapped := SwapBack(copied);
      ghost var t1 := tick;
      if swapped {
        DiscardUnpublished();
      }
      NoFaultAdds(fails, t, t1, tick);
    }

    lemma RowsReinstated(rows0: map<string, Row>, before: map<string, Row>, row: Row, next: Option<string>)
      requires key in rows0 && row == rows0[key] && OnePrimary(rows0)
      requires before == rows0 || before == rows0 - {key} || before == WithoutKey(rows0, row.primary, next)
      ensures Reinstated(before, row) == rows0
    {
      var after := Reinstated(before, row);
      forall k | k in rows0 ensures k in after && after[k] == rows0[k] {
        if k != key && row.primary { assert !rows0[k].primary; }
      }
      assert after.Keys == rows0.Keys;
    }
  }

  /** A failure between the writes that clear PRIME is not undone: for the last root, there is a run after
      which path and rows are as before and PRIME's instance is gone, its content and generation not. */
  method RemovalCanClearPrime(key: string, rows: map<string, Row>, prime: Prime, copied: string, captured: map<string, string>)
    returns (m: RootRemoval)
    requires key in rows && |rows| == 1 && OnePrimary(rows)
    ensures m.path == Route && m.stage == Absent && m.mapped && m.Captured(rows, m.rows)
    ensures m.prime == prime.(instance := None)
  {
    m := new RootRemoval(key, rows, prime, prime, false, {6}, map[], captured);
    var outcome, undone;
    ghost var decided;
    outcome, undone, decided := m.Remove(copied, copied);
    OnlySixthFails(m.fails, decided, outcome == Removed, m.tick);
  }

  lemma OnlySixthFails(fails: set<nat>, decided: nat, ok: bool, later: nat)
    requires fails == {6} && Took(fails, 0, decided, 13, ok, true)
    ensures !ok && decided == 7 && NoFault(fails, 7, later)
  {
    SingleFault(6, later);
    TookMeans(fails, 0, decided, 13, ok, 7);
    FirstFaultIsFault(fails, 0, 7, 13);
  }
}
