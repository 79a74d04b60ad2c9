/** Resource admission: the reservation ledger, and the decision whether a workload may start. */
module Admission {
  import opened Wrappers

  const MAX_MEMORY_BYTES: int := 0x1000_0000_0000

  /** What a record names as its unit. A tampered file can hold something that is no string. */
  datatype Unit = NoUnit | Named(name: string) | NotText

  datatype Reservation = Reservation(id: string, workload: string, unit: Unit, memory: int, tasks: int,
                                     createdAtMs: int, ownerPid: int)

  /** The ledger's file: absent, beyond reading, or a list of records. */
  datatype File = Missing | Unreadable | Document(records: seq<Reservation>)

  predicate Credible(r: Reservation) {
    0 <= r.memory <= MAX_MEMORY_BYTES && r.tasks >= 0 && r.unit != NotText
  }

  predicate HasId(records: seq<Reservation>, id: string) {
    exists i | 0 <= i < |records| :: records[i].id == id
  }

  ghost predicate UniqueIds(records: seq<Reservation>) {
    forall i, j :: 0 <= i < j < |records| ==> records[i].id != records[j].id
  }

  /** What `_load` accepts. */
  ghost predicate Sound(records: seq<Reservation>) {
    UniqueIds(records) && forall i :: 0 <= i < |records| ==> Credible(records[i])
  }

  ghost predicate Loadable(file: File) {
    file.Missing? || (file.Document? && Sound(file.records))
  }

  function Stored(file: File): seq<Reservation> {
    if file.Document? then file.records else []
  }

  // ----- what an operation makes of the records

  datatype Verdict = Alive | Gone | Unknown | Raised

  function Keep(records: seq<Reservation>, keep: Reservation -> bool): (kept: seq<Reservation>)
    ensures forall r :: r in kept <==> r in records && keep(r)
  {
    if records == [] then []
    else
      var rest := Keep(records[..|records| - 1], keep);
      var last := records[|records| - 1];
      assert records == records[..|records| - 1] + [last];
      if keep(last) then rest + [last] else rest
  }

  /** One locked operation that changed the ledger. */
  datatype Step =
    | Admitted(r: Reservation)
    | Released(id: string)
    | Attached(id: string, unit: string)
    | Reconciled(isLive: Reservation -> Verdict)

  function Renamed(records: seq<Reservation>, id: string, unit: string): (renamed: seq<Reservation>)
    ensures |renamed| == |records|
    ensures forall i :: 0 <= i < |records| ==>
              renamed[i] == if records[i].id == id then records[i].(unit := Named(unit)) else records[i]
  {
    if records == [] then []
    else
      var n := |records| - 1;
      Renamed(records[..n], id, unit) +
      [if records[n].id == id then records[n].(unit := Named(unit)) else records[n]]
  }

  /** What is kept stays in its order. */
  lemma {:induction false} KeepConcat(a: seq<Reservation>, b: seq<Reservation>, keep: Reservation -> bool)
    ensures Keep(a + b, keep) == Keep(a, keep) + Keep(b, keep)
    decreases |b|
  {
    if b == [] {
      assert a + b == a;
    } else {
      var n := |b| - 1;
      assert (a + b)[..|a| + n] == a + b[..n] && (a + b)[|a| + n] == b[n];
      KeepConcat(a, b[..n], keep);
    }
  }

  function Without(records: seq<Reservation>, id: string): seq<Reservation> {
    Keep(records, (r: Reservation) => r.id != id)
  }

  function NotGone(records: seq<Reservation>, isLive: Reservation -> Verdict): seq<Reservation> {
    Keep(records, (r: Reservation) => isLive(r) != Gone)
  }

  function Apply(records: seq<Reservation>, step: Step): seq<Reservation> {
    match step
    case Admitted(r) => records + [r]
    case Released(id) => Without(records, id)
    case Attached(id, unit) => Renamed(records, id, unit)
    case Reconciled(isLive) => NotGone(records, isLive)
  }

  predicate ValidStep(records: seq<Reservation>, step: Step) {
    step.Admitted? ==> Credible(step.r) && !HasId(records, step.r.id)
  }

  /** The only ways out of the ledger: a record's own release, or a definite answer that it is gone. */
  predicate Leaves(records: seq<Reservation>, step: Step, id: string) {
    match step
    case Released(released) => released == id
    case Reconciled(isLive) => exists i | 0 <= i < |records| :: records[i].id == id && isLive(records[i]) == Gone
    case _ => false
  }

  /** One reservation, whatever unit it names by now. */
  predicate SameReservation(a: Reservation, b: Reservation) {
    a.(unit := NoUnit) == b.(unit := NoUnit)
  }

  ghost predicate Holds(records: seq<Reservation>, r: Reservation) {
    exists i | 0 <= i < |records| :: SameReservation(records[i], r)
  }

  lemma {:induction false} KeepIsSound(records: seq<Reservation>, keep: Reservation -> bool)
    requires Sound(records)
    ensures Sound(Keep(records, keep))
  {
    if records != [] {
      var n := |records| - 1;
      assert records[n] in records;
      KeepIsSound(records[..n], keep);
      forall r | r in Keep(records[..n], keep) ensures r.id != records[n].id {
        var i :| 0 <= i < n && records[i] == r;
      }
    }
  }

  /** What the code writes, it can read. */
  lemma StepKeepsSound(records: seq<Reservation>, step: Step)
    requires Sound(records) && ValidStep(records, step)
    ensures Sound(Apply(records, step))
  {
    match step {
      case Released(id) => KeepIsSound(records, (r: Reservation) => r.id != id);
      case Reconciled(isLive) => KeepIsSound(records, (r: Reservation) => isLive(r) != Gone);
      case _ =>
    }
  }

  /** A step keeps exactly the records that do not leave, with their id and amounts unchanged. */
  lemma StepKeepsRecords(records: seq<Reservation>, step: Step, i: nat)
    requires Sound(records) && ValidStep(records, step) && i < |records|
    ensures HasId(Apply(records, step), records[i].id) <==> !Leaves(records, step, records[i].id)
    ensures !Leaves(records, step, records[i].id) ==> Holds(Apply(records, step), records[i])
  {
    var after, r := Apply(records, step), records[i];
    assert r in records;
    if !Leaves(records, step, r.id) {
      match step {
        case Admitted(_) => assert after[i] == r;
        case Attached(id, unit) => assert SameReservation(after[i], r);
        case _ =>
          assert r in after;
          var j :| 0 <= j < |after| && after[j] == r;
      }
    } else {
      forall j | 0 <= j < |after| ensures after[j].id != r.id {
        assert after[j] in after && after[j] in records;
      }
    }
  }

  /** Nothing enters but an admitted reservation. */
  lemma StepAddsOnlyAdmitted(records: seq<Reservation>, step: Step, i: nat)
    requires i < |Apply(records, step)|
    ensures Holds(records, Apply(records, step)[i]) || (step.Admitted? && Apply(records, step)[i] == step.r)
  {
    var after := Apply(records, step);
    match step {
      case Admitted(r) => if i < |records| { assert records[i] == after[i]; }
      case Attached(id, unit) => assert SameReservation(records[i], after[i]);
      case _ =>
        assert after[i] in after;
        assert after[i] in records;
        var j :| 0 <= j < |records| && records[j] == after[i];
    }
  }

  // ----- runs: any interleaving of locked steps by any number of processes

  ghost predicate IsRun(states: seq<seq<Reservation>>, steps: seq<Step>) {
    && |states| == |steps| + 1
    && forall i :: 0 <= i < |steps| ==> ValidStep(states[i], steps[i]) && states[i + 1] == Apply(states[i], steps[i])
  }

  lemma RunTail(states: seq<seq<Reservation>>, steps: seq<Step>)
    requires IsRun(states, steps) && steps != []
    ensures IsRun(states[1..], steps[1..])
    ensures states[1] == Apply(states[0], steps[0]) && ValidStep(states[0], steps[0])
  {
    forall i | 0 <= i < |steps| - 1
      ensures ValidStep(states[1..][i], steps[1..][i]) && states[1..][i + 1] == Apply(states[1..][i], steps[1..][i])
    {
      assert ValidStep(states[i + 1], steps[i + 1]) && states[i + 2] == Apply(states[i + 1], steps[i + 1]);
    }
  }

  /** `_load` never refuses what the code wrote. */
  lemma {:induction false} RunStaysSound(states: seq<seq<Reservation>>, steps: seq<Step>)
    requires IsRun(states, steps) && Sound(states[0])
    ensures forall i :: 0 <= i < |states| ==> Sound(states[i])
    decreases |steps|
  {
    if steps != [] {
      RunTail(states, steps);
      StepKeepsSound(states[0], steps[0]);
      RunStaysSound(states[1..], steps[1..]);
      forall i | 0 <= i < |states| ensures Sound(states[i]) {
        if i > 0 { assert states[i] == states[1..][i - 1]; }
      }
    }
  }

  /** A reservation nobody released and no manager called gone is there at the end, its amounts as
      they were: an unknown answer, or a callback that raises, never removes one. */
  lemma {:induction false} ReservationSurvives(states: seq<seq<Reservation>>, steps: seq<Step>, r: Reservation)
    requires IsRun(states, steps) && Sound(states[0]) && Holds(states[0], r)
    requires forall i :: 0 <= i < |steps| ==> !Leaves(states[i], steps[i], r.id)
    ensures Holds(states[|states| - 1], r)
    decreases |steps|
  {
    if steps != [] {
      RunTail(states, steps);
      StepKeepsSound(states[0], steps[0]);
      var i :| 0 <= i < |states[0]| && SameReservation(states[0][i], r);
      StepKeepsRecords(states[0], steps[0], i);
      HoldsSame(states[1], states[0][i], r);
      forall i | 0 <= i < |steps| - 1 ensures !Leaves(states[1..][i], steps[1..][i], r.id) {
        assert !Leaves(states[i + 1], steps[i + 1], r.id);
      }
      ReservationSurvives(states[1..], steps[1..], r);
    }
  }

  lemma HoldsSame(records: seq<Reservation>, a: Reservation, b: Reservation)
    requires SameReservation(a, b) && Holds(records, a)
    ensures Holds(records, b)
  {
    var i :| 0 <= i < |records| && SameReservation(records[i], a);
    assert SameReservation(records[i], b);
  }

  ghost predicate AdmittedIn(steps: seq<Step>, r: Reservation) {
    exists i | 0 <= i < |steps| :: steps[i].Admitted? && SameReservation(steps[i].r, r)
  }

  /** Every reservation was there before or was admitted in the run, with the amounts it has now. */
  lemma {:induction false} ReservationsAreAdmitted(states: seq<seq<Reservation>>, steps: seq<Step>, r: Reservation)
    requires IsRun(states, steps) && Holds(states[|states| - 1], r)
    ensures Holds(states[0], r) || AdmittedIn(steps, r)
    decreases |steps|
  {
    if steps != [] {
      RunTail(states, steps);
      ReservationsAreAdmitted(states[1..], steps[1..], r);
      if AdmittedIn(steps[1..], r) {
        var i :| 0 <= i < |steps| - 1 && steps[1..][i].Admitted? && SameReservation(steps[1..][i].r, r);
        assert steps[i + 1].Admitted? && SameReservation(steps[i + 1].r, r);
      } else {
        var i :| 0 <= i < |states[1]| && SameReservation(states[1][i], r);
        StepAddsOnlyAdmitted(states[0], steps[0], i);
        if Holds(states[0], states[1][i]) {
          HoldsSame(states[0], states[1][i], r);
        } else {
          assert steps[0].Admitted? && SameReservation(steps[0].r, r);
        }
      }
    }
  }

  /** `add` checks nothing: the ledger stays readable exactly when the record is credible and new. */
  lemma AddKeepsSound(records: seq<Reservation>, r: Reservation)
    requires Sound(records)
    ensures Sound(records + [r]) <==> Credible(r) && !HasId(records, r.id)
  {
    var more := records + [r];
    assert more[|records|] == r;
    if HasId(records, r.id) {
      var i :| 0 <= i < |records| && records[i].id == r.id;
      assert more[i].id == more[|records|].id;
    }
  }

  // ----- the ledger

  class Ledger {
    var file: File

    constructor ()
      ensures file == Missing
    {
      file := Missing;
    }

    /** `_load`. */
    method Load() returns (r: Result<seq<Reservation>>)
      ensures r.Ok? <==> Loadable(file)
      ensures r.Ok? ==> r.value == Stored(file) && Sound(r.value)
      ensures r.Refused? ==> r.code == "RESOURCE_STATE_UNKNOWN"
    {
      if file.Missing? {
        return Ok([]);
      }
      if file.Unreadable? {
        return Refused("RESOURCE_STATE_UNKNOWN");
      }
      var seen: set<string> := {};
      var out: seq<Reservation> := [];
      for n := 0 to |file.records|
        invariant out == file.records[..n]
        invariant forall i :: 0 <= i < n ==> Credible(file.records[i])
        invariant seen == set i | 0 <= i < n :: file.records[i].id
      {
        var r := file.records[n];
        if !Credible(r) {
          return Refused("RESOURCE_STATE_UNKNOWN");
        }
        out := out + [r];
        seen := seen + {r.id};
      }
      assert out == file.records;
      IdsAreUnique(out);
      if |seen| != |out| {
        return Refused("RESOURCE_STATE_UNKNOWN");
      }
      return Ok(out);
    }

    /** `add`. */
    method Add(r: Reservation) returns (done: Result<()>)
      modifies this
      ensures done.Ok? <==> Loadable(old(file))
      ensures file == if done.Ok? then Document(Stored(old(file)) + [r]) else old(file)
    {
      var current := Load();
      if current.Refused? {
        return Refused(current.code);
      }
      file := Document(current.value + [r]);
      return Ok(());
    }

    /** `release`. */
    method Release(id: string) returns (done: Result<bool>)
      modifies this
      ensures done.Ok? <==> Loadable(old(file))
      ensures done.Ok? ==> done.value == HasId(Stored(old(file)), id)
      ensures done.Ok? ==> Stored(file) == Apply(Stored(old(file)), Released(id)) && Loadable(file)
      ensures done.Refused? || !done.value ==> file == old(file)
    {
      var current := Load();
      if current.Refused? {
        return Refused(current.code);
      }
      var remaining := Without(current.value, id);
      ReleaseCounts(current.value, id);
      StepKeepsSound(current.value, Released(id));
      if |remaining| == |current.value| {
        return Ok(false);
      }
      file := Document(remaining);
      return Ok(true);
    }

    /** `attach_unit`. */
    method AttachUnit(id: string, unit: string) returns (done: Result<()>)
      modifies this
      ensures done.Ok? <==> unit != "" && '\n' !in unit && '/' !in unit && Loadable(old(file))
      ensures done.Ok? ==> Stored(file) == Apply(Stored(old(file)), Attached(id, unit)) && Loadable(file)
      ensures done.Ok? ==> |Stored(file)| == |Stored(old(file))| && forall i :: 0 <= i < |Stored(file)| ==>
                Stored(file)[i] ==
                  if Stored(old(file))[i].id == id then Stored(old(file))[i].(unit := Named(unit)) else Stored(old(file))[i]
      ensures done.Refused? ==> file == old(file)
    {
      if unit == "" || '\n' in unit || '/' in unit {
        return Refused("RESOURCE_POLICY_INVALID");
      }
      var current := Load();
      if current.Refused? {
        return Refused(current.code);
      }
      StepKeepsSound(current.value, Attached(id, unit));
      file := Document(Renamed(current.value, id, unit));
      return Ok(());
    }

    /** `reconcile`: drops the definitely gone, and writes nothing when there are none. */
    method Reconcile(isLive: Reservation -> Verdict) returns (dropped: Result<seq<Reservation>>)
      modifies this
      ensures dropped.Ok? <==> Loadable(old(file))
      ensures dropped.Ok? ==>
                && dropped.value == Keep(Stored(old(file)), (r: Reservation) => isLive(r) == Gone)
                && Stored(file) == Apply(Stored(old(file)), Reconciled(isLive)) && Loadable(file)
                && Reserved(Stored(file)) + Reserved(dropped.value) == Reserved(Stored(old(file)))
      ensures dropped.Refused? || dropped.value == [] ==> file == old(file)
    {
      var current := Load();
      if current.Refused? {
        return Refused(current.code);
      }
      var gone := Keep(current.value, (r: Reservation) => isLive(r) == Gone);
      var live := Keep(current.value, (r: Reservation) => r !in gone);
      KeepCongruent(current.value, (r: Reservation) => r !in gone, (r: Reservation) => isLive(r) != Gone);
      StepKeepsSound(current.value, Reconciled(isLive));
      Partition(current.value, isLive);
      if gone != [] {
        file := Document(live);
      } else {
        NoneGone(current.value, isLive);
      }
      return Ok(gone);
    }

    /** `outstanding`. */
    method Outstanding() returns (r: Result<seq<Reservation>>)
      ensures r.Ok? <==> Loadable(file)
      ensures r.Ok? ==> r.value == Stored(file)
    {
      r := Load();
    }
  }

  lemma {:induction false} IdsAreUnique(records: seq<Reservation>)
    ensures var ids := set i | 0 <= i < |records| :: records[i].id;
            |ids| <= |records| && (|ids| == |records| <==> UniqueIds(records))
  {
    var ids := set i | 0 <= i < |records| :: records[i].id;
    if records != [] {
      var n := |records| - 1;
      IdsAreUnique(records[..n]);
      var before := set i | 0 <= i < n :: records[..n][i].id;
      assert ids == before + {records[n].id};
      if records[n].id in before {
        assert ids == before;
        var i :| 0 <= i < n && records[..n][i].id == records[n].id;
        assert records[i].id == records[n].id;
      } else {
        assert |ids| == |before| + 1;
        forall i | 0 <= i < n ensures records[i].id != records[n].id {
          assert records[..n][i].id in before;
        }
        UniqueMore(records, n);
      }
    }
  }

  lemma UniqueMore(records: seq<Reservation>, n: nat)
    requires |records| == n + 1 && forall i :: 0 <= i < n ==> records[i].id != records[n].id
    ensures UniqueIds(records) <==> UniqueIds(records[..n])
  {
    if UniqueIds(records[..n]) {
      forall i, j | 0 <= i < j < |records| ensures records[i].id != records[j].id {
        if j < n { assert records[..n][i].id != records[..n][j].id; }
      }
    }
  }

  lemma {:induction false} ReleaseCounts(records: seq<Reservation>, id: string)
    ensures |Without(records, id)| <= |records|
    ensures |Without(records, id)| == |records| <==> !HasId(records, id)
    ensures !HasId(records, id) ==> Without(records, id) == records
  {
    if records != [] {
      var n := |records| - 1;
      ReleaseCounts(records[..n], id);
      assert records == records[..n] + [records[n]];
      if HasId(records[..n], id) {
        var i :| 0 <= i < n && records[..n][i].id == id;
        assert records[i].id == id;
      }
    }
  }

  lemma {:induction false} KeepCongruent(records: seq<Reservation>, f: Reservation -> bool, g: Reservation -> bool)
    requires forall r :: r in records ==> f(r) == g(r)
    ensures Keep(records, f) == Keep(records, g)
  {
    if records != [] {
      var n := |records| - 1;
      assert records[n] in records;
      KeepCongruent(records[..n], f, g);
    }
  }

  function Reserved(records: seq<Reservation>): int {
    if records == [] then 0 else Reserved(records[..|records| - 1]) + records[|records| - 1].memory
  }

  lemma {:induction false} Partition(records: seq<Reservation>, isLive: Reservation -> Verdict)
    ensures var gone := Keep(records, (r: Reservation) => isLive(r) == Gone);
            Reserved(NotGone(records, isLive)) + Reserved(gone) == Reserved(records)
  {
    if records != [] {
      Partition(records[..|records| - 1], isLive);
    }
  }

  lemma {:induction false} NoneGone(records: seq<Reservation>, isLive: Reservation -> Verdict)
    requires Keep(records, (r: Reservation) => isLive(r) == Gone) == []
    ensures NotGone(records, isLive) == records
  {
    if records != [] {
      NoneGone(records[..|records| - 1], isLive);
      assert records == records[..|records| - 1] + [records[|records| - 1]];
    }
  }

  // ----- the decision

  datatype Policy = Policy(memoryMax: Option<int>, memoryHigh: Option<int>, tasksMax: Option<int>,
                           maxConcurrent: Option<int>)

  /** What `ResourcePolicy.from_mapping` lets through of these. */
  predicate PolicyValid(policy: Policy) {
    && (policy.memoryMax.Some? ==> 0 < policy.memoryMax.value <= MAX_MEMORY_BYTES)
    && (policy.memoryHigh.Some? ==> 0 < policy.memoryHigh.value <= MAX_MEMORY_BYTES)
    && (policy.tasksMax.Some? ==> 0 < policy.tasksMax.value)
    && (policy.maxConcurrent.Some? ==> 0 < policy.maxConcurrent.value)
  }

  datatype Floors = Floors(memory: nat, disk: nat, inodes: nat, pressure: nat)

  datatype Volume = Volume(freeBytes: int, freeInodes: int)

  datatype Observation = NotObserved | Observed(available: int, pressure: Option<int>, disks: seq<Volume>)

  /** The source's decisions; or the exception of a liveness callback, which leaves `admit`. */
  datatype Outcome = ADMITTED | RESOURCES_UNAVAILABLE | RESOURCE_STATE_UNKNOWN | RESOURCE_POLICY_INVALID | CallbackRaised

  datatype Decision = Decision(outcome: Outcome, reservation: Option<Reservation>, headroom: Option<int>)

  /** The part of a reservation that is not in use yet; all of it when usage is not known. */
  function Unused(r: Reservation, usage: Reservation -> Option<int>): int {
    match usage(r)
    case None => r.memory
    case Some(used) => if r.memory > used then r.memory - used else 0
  }

  function Withheld(records: seq<Reservation>, usage: Reservation -> Option<int>): int {
    if records == [] then 0 else Withheld(records[..|records| - 1], usage) + Unused(records[|records| - 1], usage)
  }

  function Declared(policy: Policy): Option<int> {
    if policy.memoryMax.Some? then policy.memoryMax else policy.memoryHigh
  }

  /** The bytes asked for, or nothing for work whose appetite is undeclared. */
  function Requested(policy: Policy, memory: Option<int>): Option<int> {
    if memory.Some? then memory else Declared(policy)
  }

  /** What is asked for: the amount named, or else the policy's ceiling, or else its watermark, or nothing. */
  ghost predicate IsRequested(policy: Policy, memory: Option<int>, bytes: int) {
    && (memory.Some? ==> bytes == memory.value)
    && (memory.None? && policy.memoryMax.Some? ==> bytes == policy.memoryMax.value)
    && (memory.None? && policy.memoryMax.None? && policy.memoryHigh.Some? ==> bytes == policy.memoryHigh.value)
    && (memory.None? && policy.memoryMax.None? && policy.memoryHigh.None? ==> bytes == 0)
  }

  function RequestBytes(policy: Policy, memory: Option<int>): int {
    match Requested(policy, memory)
    case None => 0
    case Some(bytes) => bytes
  }

  predicate DisksFit(disks: seq<Volume>, floors: Floors) {
    forall i | 0 <= i < |disks| :: disks[i].freeBytes >= floors.disk && disks[i].freeInodes >= floors.inodes
  }

  /** The gates that look at neither the request nor the memory. */
  predicate GatesOpen(seen: Observation, floors: Floors, policy: Policy, count: nat)
    requires seen.Observed?
  {
    && (policy.maxConcurrent.None? || count < policy.maxConcurrent.value)
    && (seen.pressure.None? || seen.pressure.value <= floors.pressure)
    && DisksFit(seen.disks, floors)
  }

  predicate RequestValid(workload: string, policy: Policy, memory: Option<int>) {
    && workload != ""
    && (Requested(policy, memory).None? || 0 < Requested(policy, memory).value <= MAX_MEMORY_BYTES)
  }

  lemma ValidRequests(workload: string, policy: Policy, memory: Option<int>)
    requires PolicyValid(policy)
    ensures !RequestValid(workload, policy, memory) <==>
              workload == "" || (memory.Some? && !(0 < memory.value <= MAX_MEMORY_BYTES))
  {
  }

  predicate AnyRaises(records: seq<Reservation>, isLive: Reservation -> Verdict) {
    exists i | 0 <= i < |records| :: isLive(records[i]) == Raised
  }

  /** The gates are open and the request fits what is left above the floor. */
  ghost predicate Admits(file: File, floors: Floors, policy: Policy, memory: Option<int>, seen: Observation,
                         usage: Reservation -> Option<int>, isLive: Reservation -> Verdict) {
    && seen.Observed? && Loadable(file) && !AnyRaises(Stored(file), isLive)
    && var live := NotGone(Stored(file), isLive);
    && GatesOpen(seen, floors, policy, |live|)
    && RequestBytes(policy, memory) + Withheld(live, usage) + floors.memory <= seen.available
  }

  class AdmissionAuthority {
    const ledger: Ledger
    const floors: Floors

    constructor (ledger: Ledger, floors: Floors)
      ensures this.ledger == ledger && this.floors == floors
    {
      this.ledger := ledger;
      this.floors := floors;
    }

    /** `outstanding_withheld`. */
    method OutstandingWithheld(records: seq<Reservation>, usage: Reservation -> Option<int>) returns (total: int)
      ensures total == Withheld(records, usage)
    {
      total := 0;
      for n := 0 to |records|
        invariant total == Withheld(records[..n], usage)
      {
        var used := usage(records[n]);
        var withheld := records[n].memory;
        if used.Some? {
          withheld := if records[n].memory - used.value > 0 then records[n].memory - used.value else 0;
        }
        assert records[..n + 1][..n] == records[..n];
        total := total + withheld;
      }
      assert records[..|records|] == records;
    }

    /** Each record's callback is called before anything is added up. */
    method Asked(records: seq<Reservation>, isLive: Reservation -> Verdict) returns (raised: bool)
      ensures raised == AnyRaises(records, isLive)
      ensures raised <==> exists i | 0 <= i < |records| :: isLive(records[i]) == Raised
    {
      for n := 0 to |records|
        invariant forall i :: 0 <= i < n ==> isLive(records[i]) != Raised
      {
        if isLive(records[n]) == Raised {
          return true;
        }
      }
      return false;
    }

    method DisksAboveFloor(disks: seq<Volume>) returns (fit: bool)
      ensures fit == DisksFit(disks, floors)
      ensures !fit <==> exists i | 0 <= i < |disks| ::
                disks[i].freeBytes < floors.disk || disks[i].freeInodes < floors.inodes
    {
      for n := 0 to |disks|
        invariant forall i :: 0 <= i < n ==> disks[i].freeBytes >= floors.disk && disks[i].freeInodes >= floors.inodes
      {
        if disks[n].freeBytes < floors.disk || disks[n].freeInodes < floors.inodes {
          return false;
        }
      }
      return true;
    }

    /** `admit`, given what was observed before the lock was taken, and an id nobody has used. It
        admits exactly when every gate is open and the request fits what is left above the floor; the
        records of others are never touched. */
    method Admit(workload: string, policy: Policy, memory: Option<int>, seen: Observation,
                 usage: Reservation -> Option<int>, isLive: Reservation -> Verdict,
                 id: string, now: int, pid: int) returns (decision: Decision)
      requires PolicyValid(policy) && !HasId(Stored(ledger.file), id)
      modifies ledger
      ensures decision.outcome == RESOURCE_POLICY_INVALID <==> !RequestValid(workload, policy, memory)
      ensures decision.outcome == RESOURCE_POLICY_INVALID <==>
                workload == "" || (memory.Some? && !(0 < memory.value <= MAX_MEMORY_BYTES))
      ensures decision.outcome == RESOURCE_STATE_UNKNOWN <==>
                RequestValid(workload, policy, memory) && (seen.NotObserved? || !Loadable(old(ledger.file)))
      ensures decision.outcome == CallbackRaised <==>
                && RequestValid(workload, policy, memory) && seen.Observed? && Loadable(old(ledger.file))
                && AnyRaises(Stored(old(ledger.file)), isLive)
      ensures decision.outcome == ADMITTED <==>
                RequestValid(workload, policy, memory) && Admits(old(ledger.file), floors, policy, memory, seen, usage, isLive)
      ensures decision.outcome == ADMITTED ==>
                && decision.reservation.Some?
                && var r := decision.reservation.value;
                && r == Reservation(id, workload, NoUnit, RequestBytes(policy, memory),
                                    if policy.tasksMax.Some? then policy.tasksMax.value else 0, now, pid)
                && IsRequested(policy, memory, r.memory)
                && ValidStep(Stored(old(ledger.file)), Admitted(r))
                && Stored(ledger.file) == Apply(Stored(old(ledger.file)), Admitted(r)) && Loadable(ledger.file)
      ensures decision.outcome != ADMITTED ==> ledger.file == old(ledger.file) && decision.reservation.None?
    {
      ValidRequests(workload, policy, memory);
      if workload == "" {
        return Decision(RESOURCE_POLICY_INVALID, None, None);
      }
      var requested := Requested(policy, memory);
      if requested.Some? && (requested.value <= 0 || requested.value > MAX_MEMORY_BYTES) {
        return Decision(RESOURCE_POLICY_INVALID, None, None);
      }
      if seen.NotObserved? {
        return Decision(RESOURCE_STATE_UNKNOWN, None, None);
      }
      var loaded := ledger.Load();
      if loaded.Refused? {
        return Decision(RESOURCE_STATE_UNKNOWN, None, None);
      }
      var raised := Asked(loaded.value, isLive);
      if raised {
        return Decision(CallbackRaised, None, None);
      }
      var fits, headroom := Decide(NotGone(loaded.value, isLive), policy, memory, seen, usage);
      if !fits {
        return Decision(RESOURCES_UNAVAILABLE, None, Some(headroom));
      }
      var r := Reservation(id, workload, NoUnit, RequestBytes(policy, memory),
                           if policy.tasksMax.Some? then policy.tasksMax.value else 0, now, pid);
      StepKeepsSound(loaded.value, Admitted(r));
      ledger.file := Document(loaded.value + [r]);
      return Decision(ADMITTED, Some(r), Some(headroom));
    }

    /** The gates, over the records that are counted. */
    method Decide(current: seq<Reservation>, policy: Policy, memory: Option<int>, seen: Observation,
                  usage: Reservation -> Option<int>) returns (fits: bool, headroom: int)
      requires seen.Observed?
      ensures headroom == seen.available - Withheld(current, usage) - floors.memory
      ensures fits <==> GatesOpen(seen, floors, policy, |current|) && RequestBytes(policy, memory) <= headroom
      ensures !fits <==>
                || (policy.maxConcurrent.Some? && |current| >= policy.maxConcurrent.value)
                || (seen.pressure.Some? && seen.pressure.value > floors.pressure)
                || (exists i | 0 <= i < |seen.disks| ::
                      seen.disks[i].freeBytes < floors.disk || seen.disks[i].freeInodes < floors.inodes)
                || exists bytes :: IsRequested(policy, memory, bytes) && bytes > headroom
    {
      assert IsRequested(policy, memory, RequestBytes(policy, memory));
      var withheld := OutstandingWithheld(current, usage);
      headroom := seen.available - withheld - floors.memory;
      if policy.maxConcurrent.Some? && |current| >= policy.maxConcurrent.value {
        return false, headroom;
      }
      if seen.pressure.Some? && seen.pressure.value > floors.pressure {
        return false, headroom;
      }
      fits := DisksAboveFloor(seen.disks);
      if fits && RequestBytes(policy, memory) > headroom {
        fits := false;
      }
    }

    /** `report`'s "would admit now": the whole ledger's reservations against the headroom, and none of
        the other gates. */
    method WouldAdmit(policy: Policy, seen: Observation, usage: Reservation -> Option<int>)
        returns (answer: Option<bool>)
      requires PolicyValid(policy)
      ensures answer == ReportAnswer(ledger.file, floors, policy, seen, usage)
      ensures answer.Some? ==> seen.Observed? && forall bytes :: IsRequested(policy, None, bytes) ==>
                (answer.value <==> bytes + Withheld(Stored(ledger.file), usage) + floors.memory <= seen.available)
    {
      var current := ledger.Outstanding();
      if current.Refused? || seen.NotObserved? {
        return None;
      }
      var withheld := OutstandingWithheld(current.value, usage);
      var declared := Declared(policy);
      var asked := if declared.Some? then declared.value else 0;
      return Some(asked <= seen.available - withheld - floors.memory);
    }
  }

  ghost function ReportAnswer(file: File, floors: Floors, policy: Policy, seen: Observation,
                              usage: Reservation -> Option<int>): Option<bool> {
    if !Loadable(file) || seen.NotObserved? then None
    else Some(RequestBytes(policy, None) + Withheld(Stored(file), usage) + floors.memory <= seen.available)
  }

  lemma {:induction false} WithheldIsMonotone(records: seq<Reservation>, usage: Reservation -> Option<int>, isLive: Reservation -> Verdict)
    requires forall r :: r in records ==> r.memory >= 0
    ensures Withheld(NotGone(records, isLive), usage) <= Withheld(records, usage)
    ensures Withheld(NotGone(records, isLive), usage) + Withheld(Keep(records, (r: Reservation) => isLive(r) == Gone), usage)
              == Withheld(records, usage)
  {
    if records != [] {
      var n := |records| - 1;
      assert records[n] in records;
      assert records == records[..n] + [records[n]];
      WithheldIsMonotone(records[..n], usage, isLive);
    }
  }

  /** The report and the decision over the same readings: after "yes" only the other gates, or a callback that raises,
      can refuse; after "no", only memory withheld for the gone can let it through. So they agree exactly when
      neither happens. */
  lemma ReportAgreesWithAdmit(file: File, floors: Floors, policy: Policy, seen: Observation,
                              usage: Reservation -> Option<int>, isLive: Reservation -> Verdict)
    requires Loadable(file) && seen.Observed?
    ensures var live := NotGone(Stored(file), isLive);
            var gone := Keep(Stored(file), (r: Reservation) => isLive(r) == Gone);
            var short := RequestBytes(policy, None) + Withheld(Stored(file), usage) + floors.memory - seen.available;
            var open := !AnyRaises(Stored(file), isLive) && GatesOpen(seen, floors, policy, |live|);
            && ReportAnswer(file, floors, policy, seen, usage) == Some(short <= 0)
            && (Admits(file, floors, policy, None, seen, usage, isLive) == (short <= 0) <==>
                  if short <= 0 then open else !open || Withheld(gone, usage) < short)
  {
    WithheldIsMonotone(Stored(file), usage, isLive);
  }
}
