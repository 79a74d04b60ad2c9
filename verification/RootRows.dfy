/** The rows of the managed roots, by root key. */
module RootRows {
  import opened Wrappers

  datatype Row = Row(primary: bool, generation: string, manifest: string)

  /** What the table's index insists on. */
  ghost predicate OnePrimary(rows: map<string, Row>) {
    forall a, b :: a in rows && b in rows && rows[a].primary && rows[b].primary ==> a == b
  }

  function ClearPrimary(rows: map<string, Row>): map<string, Row> {
    map k | k in rows :: rows[k].(primary := false)
  }

  /** `set_primary_root`. */
  function MakePrimary(rows: map<string, Row>, key: string): map<string, Row> {
    map k | k in rows :: rows[k].(primary := k == key)
  }

  /** A row once the manifest captured for it is recorded. */
  function Recaptured(row: Row, key: string, captured: map<string, string>): Row {
    if key in captured then row.(manifest := captured[key]) else row
  }

  /** The same roots, with the same primary one and generations; a manifest may have been captured anew. */
  ghost predicate RowsAsBefore(before: map<string, Row>, after: map<string, Row>, captured: map<string, string>) {
    && after.Keys == before.Keys
    && forall k :: k in before ==> after[k] == before[k] || after[k] == Recaptured(before[k], k, captured)
  }

  /** Every manifest has been captured anew, and nothing else changed. */
  ghost predicate RowsCaptured(before: map<string, Row>, after: map<string, Row>, captured: map<string, string>) {
    && after.Keys == before.Keys
    && forall k :: k in before ==> after[k] == Recaptured(before[k], k, captured)
  }

  // ----- roots to be registered

  datatype Candidate = Candidate(key: string, primary: bool, manifest: string)

  function Keys(candidates: seq<Candidate>): set<string> {
    set i | 0 <= i < |candidates| :: candidates[i].key
  }

  function HasPrimary(candidates: seq<Candidate>): bool {
    exists i | 0 <= i < |candidates| :: candidates[i].primary
  }

  ghost predicate Unregistered(rows: map<string, Row>, candidates: seq<Candidate>) {
    forall i :: 0 <= i < |candidates| ==> candidates[i].key !in rows
  }

  /** Rows with the first `n` candidates added. */
  function AddRows(rows: map<string, Row>, candidates: seq<Candidate>, n: nat, generation: string): map<string, Row>
    requires n <= |candidates|
  {
    if n == 0 then rows
    else
      var c := candidates[n - 1];
      AddRows(rows, candidates, n - 1, generation)[c.key := Row(c.primary, generation, c.manifest)]
  }

  lemma {:induction false} RowsAdded(rows: map<string, Row>, candidates: seq<Candidate>, n: nat, generation: string)
    requires n <= |candidates|
    ensures var r := AddRows(rows, candidates, n, generation);
            && (forall k :: k in r <==> k in rows || exists i :: 0 <= i < n && candidates[i].key == k)
            && (forall k :: k in rows && (forall i :: 0 <= i < n ==> candidates[i].key != k) ==> r[k] == rows[k])
  {
    if n > 0 { RowsAdded(rows, candidates, n - 1, generation); }
  }

  /** The rows registration makes. */
  function Recorded(before: map<string, Row>, candidates: seq<Candidate>, generation: string): map<string, Row> {
    AddRows(if HasPrimary(candidates) then ClearPrimary(before) else before, candidates, |candidates|, generation)
  }

  ghost predicate DistinctKeys(candidates: seq<Candidate>) {
    forall i, j :: 0 <= i < j < |candidates| ==> candidates[i].key != candidates[j].key
  }

  /** What a row's manifest is after the captures. */
  function ManifestNow(captured: map<string, string>, key: string, manifest: string): string {
    if key in captured then captured[key] else manifest
  }

  /** The rows after a registration, field by field: a row for each candidate, primary if the candidate is,
      in the new generation; and the rows there were, in their generations, none primary any more if a
      candidate is. */
  ghost predicate Registered(before: map<string, Row>, candidates: seq<Candidate>, generation: string,
                             captured: map<string, string>, after: map<string, Row>) {
    && (forall k :: k in after <==> k in before || exists i :: 0 <= i < |candidates| && candidates[i].key == k)
    && (forall i :: 0 <= i < |candidates| ==> CandidateRow(candidates[i], generation, captured, after))
    && (forall k :: k in before ==> EarlierRow(before, candidates, captured, after, k))
  }

  ghost predicate CandidateRow(c: Candidate, generation: string, captured: map<string, string>, after: map<string, Row>) {
    && c.key in after && after[c.key].primary == c.primary && after[c.key].generation == generation
    && after[c.key].manifest == ManifestNow(captured, c.key, c.manifest)
  }

  ghost predicate EarlierRow(before: map<string, Row>, candidates: seq<Candidate>, captured: map<string, string>,
                             after: map<string, Row>, k: string)
    requires k in before
  {
    && k in after && after[k].generation == before[k].generation
    && (after[k].primary <==> before[k].primary && forall i :: 0 <= i < |candidates| ==> !candidates[i].primary)
    && after[k].manifest == ManifestNow(captured, k, before[k].manifest)
  }

  lemma {:induction false} NewRows(rows: map<string, Row>, candidates: seq<Candidate>, n: nat, generation: string)
    requires n <= |candidates| && DistinctKeys(candidates)
    ensures forall i :: 0 <= i < n ==>
              && candidates[i].key in AddRows(rows, candidates, n, generation)
              && AddRows(rows, candidates, n, generation)[candidates[i].key]
                 == Row(candidates[i].primary, generation, candidates[i].manifest)
  {
    if n > 0 { NewRows(rows, candidates, n - 1, generation); }
  }

  lemma RecordedIsRegistered(before: map<string, Row>, candidates: seq<Candidate>, generation: string,
                             captured: map<string, string>, after: map<string, Row>)
    requires Unregistered(before, candidates) && DistinctKeys(candidates)
    requires RowsCaptured(Recorded(before, candidates, generation), after, captured)
    ensures Registered(before, candidates, generation, captured, after)
  {
    var start := if HasPrimary(candidates) then ClearPrimary(before) else before;
    RowsAdded(start, candidates, |candidates|, generation);
    forall i | 0 <= i < |candidates| ensures CandidateRow(candidates[i], generation, captured, after) {
      NewRows(start, candidates, |candidates|, generation);
    }
    forall k | k in before ensures EarlierRow(before, candidates, captured, after, k) {
      EarlierRowKept(before, candidates, generation, captured, after, k);
    }
  }

  lemma EarlierRowKept(before: map<string, Row>, candidates: seq<Candidate>, generation: string,
                       captured: map<string, string>, after: map<string, Row>, k: string)
    requires Unregistered(before, candidates) && k in before
    requires RowsCaptured(Recorded(before, candidates, generation), after, captured)
    ensures EarlierRow(before, candidates, captured, after, k)
  {
    RecordedRow(before, candidates, generation, k);
  }

  /** So there is at most one primary root afterwards, if at most one candidate is primary; and there is one
      if there was one or a candidate is. */
  lemma OnePrimaryAfter(before: map<string, Row>, candidates: seq<Candidate>, generation: string,
                        captured: map<string, string>, after: map<string, Row>)
    requires OnePrimary(before) && Registered(before, candidates, generation, captured, after)
    requires forall i, j :: 0 <= i < j < |candidates| ==> !(candidates[i].primary && candidates[j].primary)
    ensures OnePrimary(after)
    ensures (exists k :: k in after && after[k].primary) <==>
              (exists k :: k in before && before[k].primary) || exists i :: 0 <= i < |candidates| && candidates[i].primary
  {
    forall k | k in before && before[k].primary ensures EarlierRow(before, candidates, captured, after, k) {
    }
    if i :| 0 <= i < |candidates| && candidates[i].primary {
      assert CandidateRow(candidates[i], generation, captured, after);
    }
  }

  ghost predicate IsPreviousPrimary(rows: map<string, Row>, previous: Option<string>) {
    if previous.Some? then previous.value in rows && rows[previous.value].primary
    else forall k :: k in rows ==> !rows[k].primary
  }

  /** The rows taken out again, and the previous primary root put back. */
  function Restored(rows: map<string, Row>, candidates: seq<Candidate>, previous: Option<string>): map<string, Row> {
    var next := rows - Keys(candidates);
    if previous.Some? && previous.value in next then next[previous.value := next[previous.value].(primary := true)] else next
  }

  lemma KeysAre(candidates: seq<Candidate>, key: string)
    ensures key in Keys(candidates) <==> exists i :: 0 <= i < |candidates| && candidates[i].key == key
  {
  }

  /** One row of those that were there before, while the new ones are in. */
  lemma RecordedRow(before: map<string, Row>, candidates: seq<Candidate>, generation: string, key: string)
    requires Unregistered(before, candidates)
    ensures var r := Recorded(before, candidates, generation);
            && (key in r <==> key in before || key in Keys(candidates))
            && (key in before ==>
                  key !in Keys(candidates) &&
                  r[key] == if HasPrimary(candidates) then before[key].(primary := false) else before[key])
  {
    RowsAdded(if HasPrimary(candidates) then ClearPrimary(before) else before, candidates, |candidates|, generation);
    KeysAre(candidates, key);
  }

  /** Taking the rows out again leaves the rows there were, the primary one again primary. */
  lemma RowsRestored(before: map<string, Row>, published: map<string, Row>, candidates: seq<Candidate>,
                     generation: string, previous: Option<string>, captured: map<string, string>)
    requires OnePrimary(before) && Unregistered(before, candidates) && IsPreviousPrimary(before, previous)
    requires RowsAsBefore(Recorded(before, candidates, generation), published, captured)
    ensures RowsAsBefore(before, Restored(published, candidates, previous), captured)
  {
    var after := Restored(published, candidates, previous);
    forall key
      ensures key in after <==> key in before
      ensures key in before ==> after[key] == before[key] || after[key] == Recaptured(before[key], key, captured)
    {
      RecordedRow(before, candidates, generation, key);
      var _ := key in Recorded(before, candidates, generation);
    }
  }
}
