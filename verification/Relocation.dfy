/** The relocation of a copy: planned first, then written in atomic steps that can stop anywhere. */
module Relocation {
  import opened Wrappers
  import opened Text
  import opened Locations
  import opened Records

  /** What a copy records of its own place: the location rows of its database, which of them are the
      payloads of retained worlds (an instance id and a row), its transaction records, and the links
      of its mappings. */
  datatype Copy = Copy(rows: seq<string>, retained: seq<(string, nat)>,
                       records: map<string, RecordFile>, links: map<string, string>)

  ghost predicate CopyValid(copy: Copy) {
    forall k :: 0 <= k < |copy.retained| ==> copy.retained[k].1 < |copy.rows|
  }

  /** Payload directories the copy holds, and the instances whose absence the first run may excuse. */
  datatype Evidence = Evidence(present: set<string>, absentInOld: set<string>)

  // ----- what is planned

  function NewLocation(stores: Stores, value: string): string {
    if Map(stores, value).Ok? then Map(stores, value).value else value
  }

  function NewRecord(stores: Stores, f: RecordFile): RecordFile {
    if PlanRecord(stores, f).Ok? then PlanRecord(stores, f).value else f
  }

  predicate IsRerun(stores: Stores, copy: Copy) {
    exists k | 0 <= k < |copy.retained| ::
      copy.retained[k].1 < |copy.rows| && stores.newData + "/" <= copy.rows[copy.retained[k].1]
  }

  /** `_payloads_absent`: a retained payload missing from the copy, with nothing to excuse it. A rerun
      excuses none. */
  predicate LostAt(stores: Stores, copy: Copy, evidence: Evidence, k: nat)
    requires k < |copy.retained| && copy.retained[k].1 < |copy.rows|
  {
    && NewLocation(stores, copy.rows[copy.retained[k].1]) !in evidence.present
    && (IsRerun(stores, copy) || copy.retained[k].0 !in evidence.absentInOld)
  }

  ghost predicate RowsMap(stores: Stores, copy: Copy) {
    forall i :: 0 <= i < |copy.rows| ==> Map(stores, copy.rows[i]).Ok?
  }

  ghost predicate RecordsPlan(stores: Stores, copy: Copy) {
    forall name :: name in copy.records ==> PlanRecord(stores, copy.records[name]).Ok?
  }

  ghost predicate LinksMap(stores: Stores, copy: Copy) {
    forall link :: link in copy.links ==> Map(stores, copy.links[link]).Ok?
  }

  ghost predicate NothingLost(stores: Stores, copy: Copy, evidence: Evidence)
    requires CopyValid(copy)
  {
    forall k :: 0 <= k < |copy.retained| ==> !LostAt(stores, copy, evidence, k)
  }

  ghost predicate Planned(stores: Stores, copy: Copy, evidence: Evidence)
    requires CopyValid(copy)
  {
    RowsMap(stores, copy) && RecordsPlan(stores, copy) && LinksMap(stores, copy) && NothingLost(stores, copy, evidence)
  }

  // ----- what is written

  function NewRows(stores: Stores, rows: seq<string>): (r: seq<string>)
    ensures |r| == |rows| && forall i :: 0 <= i < |rows| ==> r[i] == NewLocation(stores, rows[i])
  {
    if rows == [] then []
    else NewRows(stores, rows[..|rows| - 1]) + [NewLocation(stores, rows[|rows| - 1])]
  }

  /** The copy with every location rewritten. */
  function Relocated(stores: Stores, copy: Copy): Copy {
    Copy(NewRows(stores, copy.rows), copy.retained,
         map name | name in copy.records :: NewRecord(stores, copy.records[name]),
         map link | link in copy.links :: NewLocation(stores, copy.links[link]))
  }

  /** A run stopped between two of its atomic writes: the database whole or not at all, and each
      record and each link as it was or as it will be. */
  ghost predicate PartlyWritten(stores: Stores, copy: Copy, now: Copy) {
    && now.retained == copy.retained
    && (now.rows == copy.rows || now.rows == NewRows(stores, copy.rows))
    && now.records.Keys == copy.records.Keys && now.links.Keys == copy.links.Keys
    && (forall name :: name in copy.records ==>
          now.records[name] == copy.records[name] || now.records[name] == NewRecord(stores, copy.records[name]))
    && (forall link :: link in copy.links ==>
          now.links[link] == copy.links[link] || now.links[link] == NewLocation(stores, copy.links[link]))
  }

  /** No retained payload is missing from the copy. */
  ghost predicate AllPresent(stores: Stores, copy: Copy, evidence: Evidence)
    requires CopyValid(copy)
  {
    forall k :: 0 <= k < |copy.retained| ==>
      NewLocation(stores, copy.rows[copy.retained[k].1]) in evidence.present
  }

  // ----- where everything goes

  /** Each row, link and record of the copy is where it should be in the other. */
  ghost predicate Arrived(stores: Stores, before: Copy, after: Copy) {
    && |after.rows| == |before.rows| && after.retained == before.retained
    && after.records.Keys == before.records.Keys && after.links.Keys == before.links.Keys
    && (forall i :: 0 <= i < |before.rows| ==> Moves(stores, before.rows[i], after.rows[i]))
    && (forall name :: name in before.records ==> RecordMoves(stores, before.records[name], after.records[name]))
    && (forall link :: link in before.links ==> Moves(stores, before.links[link], after.links[link]))
  }

  /** Planning goes through, but for missing payloads, exactly if everything has somewhere to go, the
      records without a mention of the old store; and the relocated copy is where it all goes. */
  lemma PlannedMeaning(stores: Stores, copy: Copy)
    requires stores.Apart()
    ensures RowsMap(stores, copy) <==> forall i :: 0 <= i < |copy.rows| ==> Placed(stores, copy.rows[i])
    ensures LinksMap(stores, copy) <==> forall link :: link in copy.links ==> Placed(stores, copy.links[link])
    ensures RecordsPlan(stores, copy) <==> forall name :: name in copy.records ==> RecordPlaced(stores, copy.records[name])
    ensures RowsMap(stores, copy) && RecordsPlan(stores, copy) && LinksMap(stores, copy) ==>
              Arrived(stores, copy, Relocated(stores, copy))
  {
    forall value ensures Map(stores, value).Ok? <==> Placed(stores, value)
                 ensures Map(stores, value).Ok? ==> Moves(stores, value, NewLocation(stores, value)) {
      PlacedMeaning(stores, value);
    }
    forall name | name in copy.records
      ensures PlanRecord(stores, copy.records[name]).Ok? <==> RecordPlaced(stores, copy.records[name])
      ensures PlanRecord(stores, copy.records[name]).Ok? ==>
                RecordMoves(stores, copy.records[name], NewRecord(stores, copy.records[name]))
    {
      RecordPlacedMeaning(stores, copy.records[name]);
    }
  }

  ghost predicate Placed(stores: Stores, value: string) {
    exists after :: Moves(stores, value, after)
  }

  ghost predicate RecordPlaced(stores: Stores, f: RecordFile) {
    exists after :: RecordMoves(stores, f, after)
      && !Contains(Bytes(after), stores.oldData) && !Contains(Bytes(after), stores.oldState)
  }

  lemma PlacedMeaning(stores: Stores, value: string)
    requires stores.Apart()
    ensures Map(stores, value).Ok? <==> Placed(stores, value)
    ensures Map(stores, value).Ok? ==> Moves(stores, value, NewLocation(stores, value))
  {
    if Map(stores, value).Ok? { MapMeaning(stores, value, Map(stores, value).value); }
    if after :| Moves(stores, value, after) { MapMeaning(stores, value, after); }
  }

  lemma RecordPlacedMeaning(stores: Stores, f: RecordFile)
    requires stores.Apart()
    ensures PlanRecord(stores, f).Ok? <==> RecordPlaced(stores, f)
    ensures PlanRecord(stores, f).Ok? ==> RecordMoves(stores, f, NewRecord(stores, f))
  {
    if PlanRecord(stores, f).Ok? { PlanRecordMeaning(stores, f, PlanRecord(stores, f).value); }
    if RecordPlaced(stores, f) {
      var after :| RecordMoves(stores, f, after)
        && !Contains(Bytes(after), stores.oldData) && !Contains(Bytes(after), stores.oldState);
      PlanRecordMeaning(stores, f, after);
    }
  }

  /** A retained payload that is missing where it goes, and that was in the old store, or whose absence
      there no longer counts since a payload has been moved before. */
  ghost predicate Unexcused(stores: Stores, copy: Copy, evidence: Evidence, k: nat)
    requires CopyValid(copy) && k < |copy.retained|
  {
    var (instance, row) := copy.retained[k];
    && (forall place :: Moves(stores, copy.rows[row], place) ==> place !in evidence.present)
    && (instance in evidence.absentInOld ==>
          exists j | 0 <= j < |copy.retained| :: stores.newData + "/" <= copy.rows[copy.retained[j].1])
  }

  lemma LostMeaning(stores: Stores, copy: Copy, evidence: Evidence)
    requires CopyValid(copy)
    ensures stores.Apart() && (forall i :: 0 <= i < |copy.rows| ==> Placed(stores, copy.rows[i])) ==>
              forall k :: 0 <= k < |copy.retained| ==>
                (LostAt(stores, copy, evidence, k) <==> Unexcused(stores, copy, evidence, k))
  {
    if stores.Apart() && forall i :: 0 <= i < |copy.rows| ==> Placed(stores, copy.rows[i]) {
      forall k | 0 <= k < |copy.retained|
        ensures LostAt(stores, copy, evidence, k) <==> Unexcused(stores, copy, evidence, k)
      {
        var row := copy.rows[copy.retained[k].1];
        PlacedMeaning(stores, row);
        forall place | Moves(stores, row, place) ensures place == NewLocation(stores, row) {
          MapMeaning(stores, row, place);
        }
      }
    }
  }

  // ----- restarting

  lemma NewLocationAgain(stores: Stores, value: string)
    requires stores.Apart() && Map(stores, value).Ok?
    ensures Map(stores, NewLocation(stores, value)).Ok?
    ensures NewLocation(stores, NewLocation(stores, value)) == NewLocation(stores, value)
  {
    MapIsIdempotent(stores, value);
  }

  lemma RowsAgain(stores: Stores, copy: Copy, now: Copy)
    requires stores.Apart() && RowsMap(stores, copy)
    requires now.rows == copy.rows || now.rows == NewRows(stores, copy.rows)
    ensures |now.rows| == |copy.rows| && RowsMap(stores, now)
    ensures NewRows(stores, now.rows) == NewRows(stores, copy.rows)
    ensures forall i :: 0 <= i < |copy.rows| ==> NewLocation(stores, now.rows[i]) == NewLocation(stores, copy.rows[i])
  {
    forall i | 0 <= i < |copy.rows|
      ensures Map(stores, now.rows[i]).Ok? && NewLocation(stores, now.rows[i]) == NewLocation(stores, copy.rows[i])
    {
      NewLocationAgain(stores, copy.rows[i]);
    }
  }

  lemma RecordsAgain(stores: Stores, copy: Copy, now: Copy)
    requires RecordsPlan(stores, copy) && now.records.Keys == copy.records.Keys
    requires forall name :: name in copy.records ==>
               now.records[name] == copy.records[name] || now.records[name] == NewRecord(stores, copy.records[name])
    ensures RecordsPlan(stores, now)
    ensures Relocated(stores, now).records == Relocated(stores, copy).records
  {
    forall name | name in copy.records
      ensures PlanRecord(stores, now.records[name]).Ok?
      ensures NewRecord(stores, now.records[name]) == NewRecord(stores, copy.records[name])
    {
      PlanRecordAgain(stores, copy.records[name]);
    }
  }

  lemma LinksAgain(stores: Stores, copy: Copy, now: Copy)
    requires stores.Apart() && LinksMap(stores, copy) && now.links.Keys == copy.links.Keys
    requires forall link :: link in copy.links ==>
               now.links[link] == copy.links[link] || now.links[link] == NewLocation(stores, copy.links[link])
    ensures LinksMap(stores, now)
    ensures Relocated(stores, now).links == Relocated(stores, copy).links
  {
    forall link | link in copy.links
      ensures Map(stores, now.links[link]).Ok? && NewLocation(stores, now.links[link]) == NewLocation(stores, copy.links[link])
    {
      NewLocationAgain(stores, copy.links[link]);
    }
  }

  /** Wherever a planned run stopped, planning succeeds again and leads to the same locations. */
  lemma RestartConverges(stores: Stores, copy: Copy, now: Copy, evidence: Evidence)
    requires stores.Apart() && CopyValid(copy)
    requires Planned(stores, copy, evidence) && AllPresent(stores, copy, evidence)
    requires PartlyWritten(stores, copy, now)
    ensures CopyValid(now) && Planned(stores, now, evidence) && AllPresent(stores, now, evidence)
    ensures Relocated(stores, now) == Relocated(stores, copy)
  {
    RowsAgain(stores, copy, now);
    RecordsAgain(stores, copy, now);
    LinksAgain(stores, copy, now);
    assert AllPresent(stores, now, evidence);
  }

  /** Any number of stops, each in a run over what the last one left. */
  ghost predicate StoppedRuns(stores: Stores, states: seq<Copy>) {
    forall i :: 0 < i < |states| ==> PartlyWritten(stores, states[i - 1], states[i])
  }

  /** However often the relocation was stopped, one uninterrupted run ends where it would have ended. */
  lemma {:induction false} EveryRestartConverges(stores: Stores, states: seq<Copy>, evidence: Evidence)
    requires states != [] && StoppedRuns(stores, states)
    requires stores.Apart() && CopyValid(states[0])
    requires Planned(stores, states[0], evidence) && AllPresent(stores, states[0], evidence)
    ensures var last := states[|states| - 1];
            && CopyValid(last) && Planned(stores, last, evidence)
            && Relocated(stores, last) == Relocated(stores, states[0])
    decreases |states|
  {
    if |states| > 1 {
      RestartConverges(stores, states[0], states[1], evidence);
      forall i | 0 < i < |states| - 1 ensures PartlyWritten(stores, states[1..][i - 1], states[1..][i]) {
        assert PartlyWritten(stores, states[i], states[i + 1]);
      }
      EveryRestartConverges(stores, states[1..], evidence);
    }
  }

  /** A missing payload that was excused is excused once: after the database is committed, a rerun is
      planned exactly when no retained payload is missing. */
  lemma RerunExcusesNothing(stores: Stores, copy: Copy, now: Copy, evidence: Evidence, k: nat)
    requires stores.Apart() && CopyValid(copy) && Planned(stores, copy, evidence)
    requires k < |copy.retained| && stores.oldData + "/" <= copy.rows[copy.retained[k].1]
    requires PartlyWritten(stores, copy, now) && now.rows == NewRows(stores, copy.rows)
    ensures CopyValid(now) && (Planned(stores, now, evidence) <==> AllPresent(stores, copy, evidence))
  {
    RowsAgain(stores, copy, now);
    RecordsAgain(stores, copy, now);
    LinksAgain(stores, copy, now);
    BelowStaysBelow(stores, copy.rows[copy.retained[k].1]);
    RerunLosesTheMissing(stores, copy, now, evidence, k);
  }

  lemma RerunLosesTheMissing(stores: Stores, copy: Copy, now: Copy, evidence: Evidence, k: nat)
    requires CopyValid(copy) && CopyValid(now) && now.retained == copy.retained
    requires |now.rows| == |copy.rows|
    requires forall i :: 0 <= i < |copy.rows| ==> NewLocation(stores, now.rows[i]) == NewLocation(stores, copy.rows[i])
    requires k < |now.retained| && stores.newData + "/" <= now.rows[now.retained[k].1]
    ensures NothingLost(stores, now, evidence) <==> AllPresent(stores, copy, evidence)
  {
    assert IsRerun(stores, now);
    forall j | 0 <= j < |now.retained|
      ensures LostAt(stores, now, evidence, j)
              <==> NewLocation(stores, copy.rows[copy.retained[j].1]) !in evidence.present
    {
    }
    if NothingLost(stores, now, evidence) {
      forall j | 0 <= j < |copy.retained|
        ensures NewLocation(stores, copy.rows[copy.retained[j].1]) in evidence.present
      {
        assert !LostAt(stores, now, evidence, j);
      }
    }
  }

  lemma BelowStaysBelow(stores: Stores, value: string)
    requires stores.oldData + "/" <= value && Map(stores, value).Ok?
    ensures stores.newData + "/" <= NewLocation(stores, value)
  {
    var mapped := stores.newData + value[|stores.oldData|..];
    assert value[|stores.oldData|] == (stores.oldData + "/")[|stores.oldData|] == '/';
    assert mapped[..|stores.newData| + 1] == stores.newData + "/";
    assert Under(stores.oldData, value);
  }

  /** Rows that hold different locations of the old store still do afterwards, so a unique column
      stays unique. */
  lemma RowsStayDistinct(stores: Stores, copy: Copy, i: nat, j: nat)
    requires stores.Apart() && RowsMap(stores, copy) && i < |copy.rows| && j < |copy.rows|
    requires InOldStore(stores, copy.rows[i]) && InOldStore(stores, copy.rows[j])
    requires copy.rows[i] != copy.rows[j]
    ensures Relocated(stores, copy).rows[i] != Relocated(stores, copy).rows[j]
  {
    if NewLocation(stores, copy.rows[i]) == NewLocation(stores, copy.rows[j]) {
      MapIsInjective(stores, copy.rows[i], copy.rows[j]);
    }
  }

  /** After a relocation every row and link lies in the new store, no record's bytes mention the old
      one, and, where the directories' names show in what JSON writes for them, no string of a record does
      either. */
  lemma RelocatedIsNew(stores: Stores, copy: Copy, evidence: Evidence)
    requires stores.Apart() && CopyValid(copy) && Planned(stores, copy, evidence)
    ensures var r := Relocated(stores, copy);
            && (forall i :: 0 <= i < |r.rows| ==>
                  !InOldStore(stores, r.rows[i]) && (Under(stores.newData, r.rows[i]) || Under(stores.newState, r.rows[i])))
            && (forall link :: link in r.links ==>
                  !InOldStore(stores, r.links[link]) && (Under(stores.newData, r.links[link]) || Under(stores.newState, r.links[link])))
            && (forall name :: name in r.records ==> !Mentions(stores, Bytes(r.records[name])))
            && (NamesShow(stores) ==> forall name :: name in r.records && copy.records[name].Canonical? ==>
                  r.records[name].Canonical? && StringsFree(stores, r.records[name].value))
  {
    var r := Relocated(stores, copy);
    forall i | 0 <= i < |r.rows|
      ensures !InOldStore(stores, r.rows[i]) && (Under(stores.newData, r.rows[i]) || Under(stores.newState, r.rows[i]))
    {
      MapIsNew(stores, copy.rows[i]);
    }
    forall link | link in r.links
      ensures !InOldStore(stores, r.links[link]) && (Under(stores.newData, r.links[link]) || Under(stores.newState, r.links[link]))
    {
      MapIsNew(stores, copy.links[link]);
    }
    forall name | name in r.records
      ensures !Mentions(stores, Bytes(r.records[name]))
      ensures NamesShow(stores) && copy.records[name].Canonical? ==>
                r.records[name].Canonical? && StringsFree(stores, r.records[name].value)
    {
      PlanRecordAgain(stores, copy.records[name]);
      if NamesShow(stores) && copy.records[name].Canonical? {
        PlannedRecordIsFree(stores, copy.records[name]);
      }
    }
  }

  // ----- the run

  /** The planned row updates of the first `n` rows: right where they are, and none missing. */
  ghost predicate UpdatesOf(stores: Stores, rows: seq<string>, n: nat, plan: seq<(nat, string)>) {
    && n <= |rows|
    && (forall k :: 0 <= k < |plan| ==> plan[k].0 < n && plan[k].1 == NewLocation(stores, rows[plan[k].0]))
    && (forall i :: 0 <= i < n && NewLocation(stores, rows[i]) != rows[i] ==> IsUpdated(plan, i))
  }

  ghost predicate IsUpdated(plan: seq<(nat, string)>, i: nat) {
    exists k :: 0 <= k < |plan| && plan[k].0 == i
  }

  lemma OneMoreRow(stores: Stores, rows: seq<string>, n: nat, plan: seq<(nat, string)>)
    requires n < |rows| && UpdatesOf(stores, rows, n, plan)
    ensures NewLocation(stores, rows[n]) == rows[n] ==> UpdatesOf(stores, rows, n + 1, plan)
    ensures UpdatesOf(stores, rows, n + 1, plan + [(n, NewLocation(stores, rows[n]))])
  {
    var more := plan + [(n, NewLocation(stores, rows[n]))];
    assert more[|plan|].0 == n;
    forall i | 0 <= i <= n && NewLocation(stores, rows[i]) != rows[i] ensures IsUpdated(more, i) {
      if i < n {
        var k :| 0 <= k < |plan| && plan[k].0 == i;
        assert more[k].0 == i;
      }
    }
  }

  datatype Outcome = RefusedBefore | StoppedAfter | Done

  /** The records a run writes, and the links. */
  ghost function MentioningRecords(stores: Stores, copy: Copy): set<string> {
    set name | name in copy.records && Mentions(stores, Bytes(copy.records[name]))
  }

  ghost function MovingLinks(stores: Stores, copy: Copy): set<string> {
    set link | link in copy.links && NewLocation(stores, copy.links[link]) != copy.links[link]
  }

  /** The atomic writes of a run that is not stopped: the database, and each of those. */
  ghost function Writes(stores: Stores, copy: Copy): nat {
    1 + |MentioningRecords(stores, copy)| + |MovingLinks(stores, copy)|
  }

  // ----- the plans, by where things go

  /** Refused exactly if a row has nowhere to go, and otherwise each planned row goes where it should. */
  ghost predicate RowsPlaced(stores: Stores, copy: Copy, plan: Result<seq<(nat, string)>>) {
    && (plan.Ok? <==> forall i :: 0 <= i < |copy.rows| ==> Placed(stores, copy.rows[i]))
    && (plan.Ok? ==> forall k :: 0 <= k < |plan.value| ==>
          plan.value[k].0 < |copy.rows| && Moves(stores, copy.rows[plan.value[k].0], plan.value[k].1))
  }

  ghost predicate RecordsPlaced(stores: Stores, copy: Copy, plan: Result<map<string, RecordFile>>) {
    && (plan.Ok? <==> forall name :: name in copy.records ==> RecordPlaced(stores, copy.records[name]))
    && (plan.Ok? ==> forall name :: name in plan.value ==>
          name in copy.records && RecordMoves(stores, copy.records[name], plan.value[name]))
  }

  ghost predicate LinksPlaced(stores: Stores, copy: Copy, plan: Result<map<string, string>>) {
    && (plan.Ok? <==> forall link :: link in copy.links ==> Placed(stores, copy.links[link]))
    && (plan.Ok? ==> forall link :: link in plan.value ==>
          link in copy.links && Moves(stores, copy.links[link], plan.value[link]))
  }

  lemma PlannedRows(stores: Stores, copy: Copy, plan: Result<seq<(nat, string)>>)
    requires stores.Apart() && (plan.Ok? <==> RowsMap(stores, copy))
    requires plan.Ok? ==> UpdatesOf(stores, copy.rows, |copy.rows|, plan.value)
    ensures RowsPlaced(stores, copy, plan)
  {
    forall i | 0 <= i < |copy.rows|
      ensures Map(stores, copy.rows[i]).Ok? <==> Placed(stores, copy.rows[i])
      ensures Map(stores, copy.rows[i]).Ok? ==> Moves(stores, copy.rows[i], NewLocation(stores, copy.rows[i]))
    {
      PlacedMeaning(stores, copy.rows[i]);
    }
    if plan.Ok? {
      forall k | 0 <= k < |plan.value|
        ensures plan.value[k].0 < |copy.rows| && Moves(stores, copy.rows[plan.value[k].0], plan.value[k].1)
      {
        assert Map(stores, copy.rows[plan.value[k].0]).Ok?;
      }
    }
  }

  lemma PlannedRecords(stores: Stores, copy: Copy, plan: Result<map<string, RecordFile>>)
    requires stores.Apart() && (plan.Ok? <==> RecordsPlan(stores, copy))
    requires plan.Ok? ==> forall name :: name in plan.value ==>
               name in copy.records && plan.value[name] == NewRecord(stores, copy.records[name])
    ensures RecordsPlaced(stores, copy, plan)
  {
    forall name | name in copy.records
      ensures PlanRecord(stores, copy.records[name]).Ok? <==> RecordPlaced(stores, copy.records[name])
      ensures PlanRecord(stores, copy.records[name]).Ok? ==>
                RecordMoves(stores, copy.records[name], NewRecord(stores, copy.records[name]))
    {
      RecordPlacedMeaning(stores, copy.records[name]);
    }
  }

  lemma PlannedLinks(stores: Stores, copy: Copy, plan: Result<map<string, string>>)
    requires stores.Apart() && (plan.Ok? <==> LinksMap(stores, copy))
    requires plan.Ok? ==> forall link :: link in plan.value ==>
               link in copy.links && plan.value[link] == NewLocation(stores, copy.links[link])
    ensures LinksPlaced(stores, copy, plan)
  {
    forall link | link in copy.links
      ensures Map(stores, copy.links[link]).Ok? <==> Placed(stores, copy.links[link])
      ensures Map(stores, copy.links[link]).Ok? ==> Moves(stores, copy.links[link], NewLocation(stores, copy.links[link]))
    {
      PlacedMeaning(stores, copy.links[link]);
    }
  }

  class Relocator {
    const stores: Stores
    var copy: Copy

    constructor (stores: Stores, copy: Copy)
      ensures this.stores == stores && this.copy == copy
    {
      this.stores := stores;
      this.copy := copy;
    }

    /** `_plan_database`: the rows that change, with their new values; or a refusal. */
    method PlanDatabase() returns (plan: Result<seq<(nat, string)>>)
      ensures plan.Ok? <==> RowsMap(stores, copy)
      ensures plan.Ok? ==> UpdatesOf(stores, copy.rows, |copy.rows|, plan.value)
      ensures stores.Apart() ==> RowsPlaced(stores, copy, plan)
    {
      plan := MapRows();
      if stores.Apart() { PlannedRows(stores, copy, plan); }
    }

    method MapRows() returns (plan: Result<seq<(nat, string)>>)
      ensures plan.Ok? <==> RowsMap(stores, copy)
      ensures plan.Ok? ==> UpdatesOf(stores, copy.rows, |copy.rows|, plan.value)
    {
      var rows: seq<(nat, string)> := [];
      for n := 0 to |copy.rows|
        invariant forall i :: 0 <= i < n ==> Map(stores, copy.rows[i]).Ok?
        invariant UpdatesOf(stores, copy.rows, n, rows)
      {
        var mapped := Map(stores, copy.rows[n]);
        if mapped.Refused? {
          return Refused(mapped.code);
        }
        OneMoreRow(stores, copy.rows, n, rows);
        if mapped.value != copy.rows[n] {
          rows := rows + [(n, mapped.value)];
        }
      }
      return Ok(rows);
    }

    /** `_plan_transaction_records`: the records that mention the old store, rewritten. */
    method PlanRecords() returns (plan: Result<map<string, RecordFile>>)
      ensures plan.Ok? <==> RecordsPlan(stores, copy)
      ensures plan.Ok? ==>
                && plan.value.Keys == MentioningRecords(stores, copy)
                && (forall name :: name in plan.value ==> plan.value[name] == NewRecord(stores, copy.records[name]))
                && (forall name :: name in copy.records && name !in plan.value ==>
                      NewRecord(stores, copy.records[name]) == copy.records[name])
      ensures stores.Apart() ==> RecordsPlaced(stores, copy, plan)
    {
      plan := RewriteRecords();
      if stores.Apart() { PlannedRecords(stores, copy, plan); }
    }

    method RewriteRecords() returns (plan: Result<map<string, RecordFile>>)
      ensures plan.Ok? <==> RecordsPlan(stores, copy)
      ensures plan.Ok? ==>
                && plan.value.Keys == MentioningRecords(stores, copy)
                && (forall name :: name in plan.value ==> plan.value[name] == NewRecord(stores, copy.records[name]))
                && (forall name :: name in copy.records && name !in plan.value ==>
                      NewRecord(stores, copy.records[name]) == copy.records[name])
    {
      var records: map<string, RecordFile> := map[];
      var rest := copy.records.Keys;
      while rest != {}
        invariant rest <= copy.records.Keys && records.Keys == MentioningRecords(stores, copy) - rest
        invariant forall name :: name in copy.records && name !in rest ==> PlanRecord(stores, copy.records[name]).Ok?
        invariant forall name :: name in records ==> records[name] == NewRecord(stores, copy.records[name])
        invariant forall name :: name in copy.records && name !in rest && name !in records ==>
                    NewRecord(stores, copy.records[name]) == copy.records[name]
        decreases |rest|
      {
        var name :| name in rest;
        var f := copy.records[name];
        if Mentions(stores, Bytes(f)) {
          var planned := PlanRecord(stores, f);
          if planned.Refused? {
            return Refused(planned.code);
          }
          records := records[name := planned.value];
        }
        rest := rest - {name};
      }
      return Ok(records);
    }

    /** `_plan_mapping_links`. */
    method PlanLinks() returns (plan: Result<map<string, string>>)
      ensures plan.Ok? <==> LinksMap(stores, copy)
      ensures plan.Ok? ==>
                && plan.value.Keys == MovingLinks(stores, copy)
                && (forall link :: link in plan.value ==> plan.value[link] == NewLocation(stores, copy.links[link]))
                && (forall link :: link in copy.links && link !in plan.value ==>
                      NewLocation(stores, copy.links[link]) == copy.links[link])
      ensures stores.Apart() ==> LinksPlaced(stores, copy, plan)
    {
      plan := MapLinks();
      if stores.Apart() { PlannedLinks(stores, copy, plan); }
    }

    method MapLinks() returns (plan: Result<map<string, string>>)
      ensures plan.Ok? <==> LinksMap(stores, copy)
      ensures plan.Ok? ==>
                && plan.value.Keys == MovingLinks(stores, copy)
                && (forall link :: link in plan.value ==> plan.value[link] == NewLocation(stores, copy.links[link]))
                && (forall link :: link in copy.links && link !in plan.value ==>
                      NewLocation(stores, copy.links[link]) == copy.links[link])
    {
      var links: map<string, string> := map[];
      var rest := copy.links.Keys;
      while rest != {}
        invariant rest <= copy.links.Keys && links.Keys == MovingLinks(stores, copy) - rest
        invariant forall link :: link in copy.links && link !in rest ==> Map(stores, copy.links[link]).Ok?
        invariant forall link :: link in links ==> links[link] == NewLocation(stores, copy.links[link])
        invariant forall link :: link in copy.links && link !in rest && link !in links ==>
                    NewLocation(stores, copy.links[link]) == copy.links[link]
        decreases |rest|
      {
        var link :| link in rest;
        var mapped := Map(stores, copy.links[link]);
        if mapped.Refused? {
          return Refused(mapped.code);
        }
        if mapped.value != copy.links[link] {
          links := links[link := mapped.value];
        }
        rest := rest - {link};
      }
      return Ok(links);
    }

    method PayloadsLost(evidence: Evidence) returns (lost: bool)
      requires CopyValid(copy)
      ensures lost <==> !NothingLost(stores, copy, evidence)
      ensures stores.Apart() && (forall i :: 0 <= i < |copy.rows| ==> Placed(stores, copy.rows[i])) ==>
                (lost <==> exists k | 0 <= k < |copy.retained| :: Unexcused(stores, copy, evidence, k))
    {
      LostMeaning(stores, copy, evidence);
      for k := 0 to |copy.retained|
        invariant forall j :: 0 <= j < k ==> !LostAt(stores, copy, evidence, j)
      {
        if LostAt(stores, copy, evidence, k) {
          return true;
        }
      }
      return false;
    }

    /** The updates of one transaction: nothing is seen until the commit, which is one write. */
    method CommitDatabase(plan: seq<(nat, string)>)
      requires UpdatesOf(stores, copy.rows, |copy.rows|, plan)
      modifies this`copy
      ensures copy == old(copy).(rows := NewRows(stores, old(copy).rows))
    {
      var rows := copy.rows;
      for n := 0 to |plan|
        invariant |rows| == |copy.rows|
        invariant forall i :: 0 <= i < |rows| ==>
                    rows[i] == copy.rows[i] || rows[i] == NewLocation(stores, copy.rows[i])
        invariant forall k :: 0 <= k < n ==> rows[plan[k].0] == NewLocation(stores, copy.rows[plan[k].0])
      {
        rows := rows[plan[n].0 := plan[n].1];
      }
      forall i | 0 <= i < |rows| ensures rows[i] == NewLocation(stores, copy.rows[i]) {
        if NewLocation(stores, copy.rows[i]) != copy.rows[i] {
          assert IsUpdated(plan, i);
          var k :| 0 <= k < |plan| && plan[k].0 == i;
        }
      }
      assert rows == NewRows(stores, copy.rows);
      copy := copy.(rows := rows);
    }

    /** The write phase of `_run` over the records, one atomic replacement each. */
    method WriteRecords(plan: map<string, RecordFile>, budget: nat) returns (left: nat, finished: bool)
      requires plan.Keys <= copy.records.Keys
      modifies this`copy
      ensures copy == old(copy).(records := copy.records)
      ensures copy.records.Keys == old(copy).records.Keys
      ensures forall name :: name in copy.records ==>
                copy.records[name] == old(copy).records[name] || (name in plan && copy.records[name] == plan[name])
      ensures finished ==> forall name :: name in copy.records ==>
                copy.records[name] == if name in plan then plan[name] else old(copy).records[name]
      ensures finished <==> budget >= |plan.Keys|
      ensures finished ==> left == budget - |plan.Keys|
    {
      left := budget;
      var rest := plan.Keys;
      while rest != {}
        invariant rest <= plan.Keys && budget + |rest| == left + |plan.Keys|
        invariant copy == old(copy).(records := copy.records) && copy.records.Keys == old(copy).records.Keys
        invariant forall name :: name in copy.records ==>
                    copy.records[name] == if name in plan && name !in rest then plan[name] else old(copy).records[name]
        decreases |rest|
      {
        if left == 0 {
          return left, false;
        }
        var name :| name in rest;
        copy := copy.(records := copy.records[name := plan[name]]);
        rest := rest - {name};
        left := left - 1;
      }
      return left, true;
    }

    /** And over the links. */
    method WriteLinks(plan: map<string, string>, budget: nat) returns (finished: bool)
      requires plan.Keys <= copy.links.Keys
      modifies this`copy
      ensures copy == old(copy).(links := copy.links)
      ensures copy.links.Keys == old(copy).links.Keys
      ensures forall link :: link in copy.links ==>
                copy.links[link] == old(copy).links[link] || (link in plan && copy.links[link] == plan[link])
      ensures finished ==> forall link :: link in copy.links ==>
                copy.links[link] == if link in plan then plan[link] else old(copy).links[link]
      ensures finished <==> budget >= |plan.Keys|
    {
      var left: nat := budget;
      var rest := plan.Keys;
      while rest != {}
        invariant rest <= plan.Keys && budget + |rest| == left + |plan.Keys|
        invariant copy == old(copy).(links := copy.links) && copy.links.Keys == old(copy).links.Keys
        invariant forall link :: link in copy.links ==>
                    copy.links[link] == if link in plan && link !in rest then plan[link] else old(copy).links[link]
        decreases |rest|
      {
        if left == 0 {
          return false;
        }
        var link :| link in rest;
        copy := copy.(links := copy.links[link := plan[link]]);
        rest := rest - {link};
        left := left - 1;
      }
      return true;
    }

    /** `_run`, stopped after `budget` atomic writes. Everything is planned, and refused, before
        anything is written; a run that is planned finishes exactly if it may write all it planned, and
        then leaves the relocated copy. */
    method Run(evidence: Evidence, budget: nat) returns (outcome: Outcome)
      requires CopyValid(copy)
      modifies this`copy
      ensures outcome == RefusedBefore <==> !Planned(stores, old(copy), evidence)
      ensures outcome == RefusedBefore ==> copy == old(copy)
      ensures PartlyWritten(stores, old(copy), copy)
      ensures outcome == Done <==> Planned(stores, old(copy), evidence) && budget >= Writes(stores, old(copy))
      ensures outcome == Done ==> copy == Relocated(stores, old(copy))
      ensures outcome == Done && stores.Apart() ==> Arrived(stores, old(copy), copy)
    {
      if stores.Apart() { PlannedMeaning(stores, copy); }
      var database := PlanDatabase();
      if database.Refused? { return RefusedBefore; }
      var records := PlanRecords();
      if records.Refused? { return RefusedBefore; }
      var links := PlanLinks();
      if links.Refused? { return RefusedBefore; }
      var lost := PayloadsLost(evidence);
      if lost { return RefusedBefore; }
      outcome := Write(database.value, records.value, links.value, budget);
    }

    /** The records that will be replaced, with what by, and the links. */
    ghost predicate FilesOf(records: map<string, RecordFile>, links: map<string, string>)
      reads this`copy
    {
      && records.Keys == MentioningRecords(stores, copy) && links.Keys == MovingLinks(stores, copy)
      && (forall name :: name in records ==> records[name] == NewRecord(stores, copy.records[name]))
      && (forall name :: name in copy.records && name !in records ==>
            NewRecord(stores, copy.records[name]) == copy.records[name])
      && (forall link :: link in links ==> links[link] == NewLocation(stores, copy.links[link]))
    }

    /** What is planned, written. */
    method Write(rows: seq<(nat, string)>, records: map<string, RecordFile>, links: map<string, string>, budget: nat)
        returns (outcome: Outcome)
      requires UpdatesOf(stores, copy.rows, |copy.rows|, rows) && FilesOf(records, links)
      modifies this`copy
      ensures PartlyWritten(stores, old(copy), copy)
      ensures outcome == if budget >= Writes(stores, old(copy)) then Done else StoppedAfter
      ensures outcome == Done ==> copy == Relocated(stores, old(copy))
    {
      if budget == 0 { return StoppedAfter; }
      CommitDatabase(rows);
      var finished := WriteFiles(records, links, budget - 1);
      return if finished then Done else StoppedAfter;
    }

    method WriteFiles(records: map<string, RecordFile>, links: map<string, string>, budget: nat) returns (finished: bool)
      requires FilesOf(records, links)
      modifies this`copy
      ensures copy == old(copy).(records := copy.records, links := copy.links)
      ensures PartlyWritten(stores, old(copy), copy)
      ensures finished <==> budget >= |records.Keys| + |links.Keys|
      ensures finished ==> copy.records == Relocated(stores, old(copy)).records
      ensures finished ==> copy.links == Relocated(stores, old(copy)).links
    {
      ghost var was := copy;
      var left;
      left, finished := WriteRecords(records, budget);
      if finished { RecordsDone(was, copy, records); }
      if finished {
        finished := WriteLinks(links, left);
        if finished { LinksDone(was, copy, links); }
      }
    }

    lemma RecordsDone(was: Copy, now: Copy, plan: map<string, RecordFile>)
      requires now.records.Keys == was.records.Keys
      requires forall name :: name in plan && name in was.records ==> plan[name] == NewRecord(stores, was.records[name])
      requires forall name :: name in was.records && name !in plan ==> NewRecord(stores, was.records[name]) == was.records[name]
      requires forall name :: name in was.records ==>
                 now.records[name] == if name in plan then plan[name] else was.records[name]
      ensures now.records == Relocated(stores, was).records
    {
    }

    lemma LinksDone(was: Copy, now: Copy, plan: map<string, string>)
      requires now.links.Keys == was.links.Keys && plan.Keys == MovingLinks(stores, was)
      requires forall link :: link in plan && link in was.links ==> plan[link] == NewLocation(stores, was.links[link])
      requires forall link :: link in was.links ==>
                 now.links[link] == if link in plan then plan[link] else was.links[link]
      ensures now.links == Relocated(stores, was).links
    {
    }

    /** Run again after every stop, and at last to the end: whatever the stops, the copy is then what one
        uninterrupted run would have made of it. */
    method RunToTheEnd(evidence: Evidence, stops: seq<nat>, budget: nat) returns (outcome: Outcome)
      requires CopyValid(copy) && stores.Apart()
      requires Planned(stores, copy, evidence) && AllPresent(stores, copy, evidence)
      requires budget > |copy.records| + |copy.links|
      modifies this`copy
      ensures outcome == Done && copy == Relocated(stores, old(copy)) && Arrived(stores, old(copy), copy)
    {
      PlannedMeaning(stores, copy);
      for n := 0 to |stops|
        invariant CopyValid(copy) && Planned(stores, copy, evidence) && AllPresent(stores, copy, evidence)
        invariant Relocated(stores, copy) == Relocated(stores, old(copy))
        invariant copy.records.Keys == old(copy).records.Keys && copy.links.Keys == old(copy).links.Keys
      {
        ghost var before := copy;
        outcome := Run(evidence, stops[n]);
        RestartConverges(stores, before, copy, evidence);
      }
      EnoughWrites(stores, copy);
      outcome := Run(evidence, budget);
    }
  }

  lemma EnoughWrites(stores: Stores, copy: Copy)
    ensures Writes(stores, copy) <= 1 + |copy.records| + |copy.links|
  {
    Fewer(MentioningRecords(stores, copy), copy.records.Keys);
    Fewer(MovingLinks(stores, copy), copy.links.Keys);
  }

  lemma {:induction false} Fewer(a: set<string>, b: set<string>)
    requires a <= b
    ensures |a| <= |b|
  {
    assert b == a + (b - a);
    assert a !! (b - a);
  }
}
