/** Admission against a machine: processes observe its free memory, and later reserve it under the lock. */
module Headroom {
  import opened Wrappers
  import opened Admission

  /** Free memory, the ledger, what each workload has taken, which have exited, and what each process
      last observed. */
  datatype Machine = Machine(available: int, records: seq<Reservation>, used: map<string, int>,
                             exited: set<string>, seen: map<nat, int>)

  function UsedBy(m: Machine, id: string): int {
    if id in m.used then m.used[id] else 0
  }

  /** What running workloads may still take. */
  function Owed(m: Machine): int {
    Sum(m, m.records)
  }

  function OwedTo(m: Machine, r: Reservation): int {
    if r.id in m.exited then 0 else r.memory - UsedBy(m, r.id)
  }

  function Sum(m: Machine, records: seq<Reservation>): int {
    if records == [] then 0 else Sum(m, records[..|records| - 1]) + OwedTo(m, records[|records| - 1])
  }

  /** The memory that would be left if every reservation were used in full. */
  function Slack(m: Machine): int {
    m.available - Owed(m)
  }

  /** Workloads stay within their ceilings. */
  ghost predicate Within(m: Machine) {
    && Sound(m.records)
    && forall i :: 0 <= i < |m.records| ==> 0 <= UsedBy(m, m.records[i].id) <= m.records[i].memory
  }

  datatype Event =
    | Observe(process: nat)
    | Admit(process: nat, r: Reservation, usage: Reservation -> Option<int>, isLive: Reservation -> Verdict)
    | Consume(id: string, amount: int)
    | Exit(id: string)
    | Drop(id: string)                 // released, or reconciled away

  /** Callbacks may not know, but they do not lie. */
  ghost predicate Truthful(m: Machine, usage: Reservation -> Option<int>, isLive: Reservation -> Verdict) {
    forall i :: 0 <= i < |m.records| ==>
      && (isLive(m.records[i]) == Gone ==> m.records[i].id in m.exited)
      && (usage(m.records[i]) == None || usage(m.records[i]) == Some(UsedBy(m, m.records[i].id)))
  }

  ghost predicate Enabled(m: Machine, e: Event, floor: nat) {
    match e
    case Observe(_) => true
    case Admit(p, r, usage, isLive) =>
      && p in m.seen && Truthful(m, usage, isLive) && !AnyRaises(m.records, isLive)
      && ValidStep(m.records, Admitted(r)) && r.id !in m.exited && r.id !in m.used
      && r.memory + Withheld(NotGone(m.records, isLive), usage) + floor <= m.seen[p]
    case Consume(id, amount) =>
      exists i | 0 <= i < |m.records| ::
        m.records[i].id == id && id !in m.exited && 0 <= UsedBy(m, id) + amount <= m.records[i].memory
    case Exit(id) => HasId(m.records, id) && id !in m.exited
    case Drop(id) => id in m.exited
  }

  function Next(m: Machine, e: Event): Machine {
    match e
    case Observe(p) => m.(seen := m.seen[p := m.available])
    case Admit(_, r, _, _) => m.(records := Apply(m.records, Admitted(r)))
    case Consume(id, amount) => m.(available := m.available - amount, used := m.used[id := UsedBy(m, id) + amount])
    case Exit(id) => m.(available := m.available + UsedBy(m, id), used := m.used[id := 0], exited := m.exited + {id})
    case Drop(id) => m.(records := Apply(m.records, Released(id)))
  }

  /** How far the memory fell between the observation an admission rests on and the admission. */
  function Fall(m: Machine, e: Event): int {
    if e.Admit? && e.process in m.seen then m.seen[e.process] - m.available else 0
  }

  /** What `admit` admits, over what a process observed and the ledger of the machine, is such an event. */
  lemma AdmissionIsEvent(m: Machine, process: nat, file: File, floors: Floors, policy: Policy, memory: Option<int>,
                         seen: Observation, usage: Reservation -> Option<int>, isLive: Reservation -> Verdict, r: Reservation)
    requires Stored(file) == m.records && Admits(file, floors, policy, memory, seen, usage, isLive)
    requires process in m.seen && seen.available == m.seen[process] && Truthful(m, usage, isLive)
    requires ValidStep(m.records, Admitted(r)) && r.memory == RequestBytes(policy, memory)
    requires r.id !in m.exited && r.id !in m.used
    ensures Enabled(m, Admit(process, r, usage, isLive), floors.memory)
  {
  }

  /** `admit` on the machine's ledger, by a process with its observation and an id nobody has used: an
      admission is such an event, and the ledger is as after it. */
  method AdmitOn(authority: AdmissionAuthority, ghost m: Machine, ghost process: nat, workload: string, policy: Policy,
                 memory: Option<int>, seen: Observation, usage: Reservation -> Option<int>,
                 isLive: Reservation -> Verdict, id: string, now: int, pid: int) returns (decision: Decision)
    requires PolicyValid(policy) && Stored(authority.ledger.file) == m.records && Truthful(m, usage, isLive)
    requires !HasId(m.records, id) && id !in m.exited && id !in m.used
    requires seen.Observed? ==> process in m.seen && seen.available == m.seen[process]
    modifies authority.ledger
    ensures decision.outcome == ADMITTED ==>
              && decision.reservation.Some?
              && var e := Admit(process, decision.reservation.value, usage, isLive);
              Enabled(m, e, authority.floors.memory) && Stored(authority.ledger.file) == Next(m, e).records
    ensures decision.outcome != ADMITTED ==> Stored(authority.ledger.file) == m.records
  {
    ghost var file := authority.ledger.file;
    decision := authority.Admit(workload, policy, memory, seen, usage, isLive, id, now, pid);
    if decision.outcome == ADMITTED {
      AdmissionIsEvent(m, process, file, authority.floors, policy, memory, seen, usage, isLive, decision.reservation.value);
    }
  }

  // ----- what each event does to the slack

  lemma {:induction false} SumOfSame(m: Machine, n: Machine, records: seq<Reservation>)
    requires forall i :: 0 <= i < |records| ==> OwedTo(m, records[i]) == OwedTo(n, records[i])
    ensures Sum(m, records) == Sum(n, records)
  {
    if records != [] { SumOfSame(m, n, records[..|records| - 1]); }
  }

  /** When one record's share changes, the sum changes by as much. */
  lemma {:induction false} SumOfOneChanged(m: Machine, n: Machine, records: seq<Reservation>, k: nat)
    requires k < |records| && UniqueIds(records)
    requires forall i :: 0 <= i < |records| && i != k ==> OwedTo(m, records[i]) == OwedTo(n, records[i])
    ensures Sum(n, records) - Sum(m, records) == OwedTo(n, records[k]) - OwedTo(m, records[k])
  {
    var last := |records| - 1;
    if k == last {
      SumOfSame(m, n, records[..last]);
    } else {
      assert UniqueIds(records[..last]);
      SumOfOneChanged(m, n, records[..last], k);
    }
  }

  lemma {:induction false} SumWithout(m: Machine, records: seq<Reservation>, id: string)
    requires id in m.exited
    ensures Sum(m, Without(records, id)) == Sum(m, records)
  {
    if records != [] { SumWithout(m, records[..|records| - 1], id); }
  }

  /** What is withheld covers what is owed, whatever the callbacks do not know. */
  lemma {:induction false} WithheldCovers(m: Machine, records: seq<Reservation>, usage: Reservation -> Option<int>,
                                          isLive: Reservation -> Verdict)
    requires forall i :: 0 <= i < |records| ==>
               && (isLive(records[i]) == Gone ==> records[i].id in m.exited)
               && (usage(records[i]) == None || usage(records[i]) == Some(UsedBy(m, records[i].id)))
               && 0 <= UsedBy(m, records[i].id) <= records[i].memory
    ensures Withheld(NotGone(records, isLive), usage) >= Sum(m, records)
  {
    if records != [] { WithheldCovers(m, records[..|records| - 1], usage, isLive); }
  }

  /** It is what is owed, no more, when the callbacks know how much each workload uses and which are gone. */
  lemma {:induction false} WithheldIsOwed(m: Machine, records: seq<Reservation>, usage: Reservation -> Option<int>,
                                          isLive: Reservation -> Verdict)
    requires forall i :: 0 <= i < |records| ==>
               && (isLive(records[i]) == Gone <==> records[i].id in m.exited)
               && usage(records[i]) == Some(UsedBy(m, records[i].id)) && UsedBy(m, records[i].id) <= records[i].memory
    ensures Withheld(NotGone(records, isLive), usage) == Sum(m, records)
  {
    if records != [] { WithheldIsOwed(m, records[..|records| - 1], usage, isLive); }
  }

  /** Each admission leaves at least the floor, less what the memory fell since it was observed. */
  lemma AdmissionLeavesFloor(m: Machine, e: Event, floor: nat)
    requires Within(m) && e.Admit? && Enabled(m, e, floor)
    ensures Slack(Next(m, e)) >= floor - Fall(m, e)
    ensures Slack(Next(m, e)) == Slack(m) - e.r.memory
  {
    var n := Next(m, e);
    WithheldCovers(m, m.records, e.usage, e.isLive);
    assert n.records[..|m.records|] == m.records;
    SumOfSame(m, n, m.records);
  }

  /** No other event lowers it. */
  lemma OtherEventsKeepSlack(m: Machine, e: Event, floor: nat)
    requires Within(m) && !e.Admit? && Enabled(m, e, floor)
    ensures Slack(Next(m, e)) >= Slack(m)
    ensures !e.Exit? ==> Slack(Next(m, e)) == Slack(m)
  {
    var n := Next(m, e);
    match e {
      case Observe(_) => SumOfSame(m, n, m.records);
      case Consume(id, amount) =>
        var k :| 0 <= k < |m.records| && m.records[k].id == id && 0 <= UsedBy(m, id) + amount <= m.records[k].memory;
        OthersUnchanged(m, n, id, k);
      case Exit(id) =>
        var k :| 0 <= k < |m.records| && m.records[k].id == id;
        OthersUnchanged(m, n, id, k);
      case Drop(id) =>
        SumWithout(m, m.records, id);
        SumOfSame(m, n, n.records);
    }
  }

  lemma OthersUnchanged(m: Machine, n: Machine, id: string, k: nat)
    requires Within(m) && k < |m.records| && m.records[k].id == id
    requires n.records == m.records
    requires forall other :: other != id ==> UsedBy(n, other) == UsedBy(m, other) && (other in n.exited <==> other in m.exited)
    ensures Owed(n) - Owed(m) == OwedTo(n, m.records[k]) - OwedTo(m, m.records[k])
  {
    forall i | 0 <= i < |m.records| && i != k ensures OwedTo(m, m.records[i]) == OwedTo(n, m.records[i]) {
      assert m.records[i].id != id;
    }
    SumOfOneChanged(m, n, m.records, k);
  }

  lemma EventKeepsWithin(m: Machine, e: Event, floor: nat)
    requires Within(m) && Enabled(m, e, floor)
    ensures Within(Next(m, e))
  {
    var n := Next(m, e);
    match e {
      case Observe(_) =>
      case Admit(_, r, _, _) => StepKeepsSound(m.records, Admitted(r));
      case Consume(id, amount) =>
        var k :| 0 <= k < |m.records| && m.records[k].id == id && 0 <= UsedBy(m, id) + amount <= m.records[k].memory;
        forall i | 0 <= i < |n.records| ensures 0 <= UsedBy(n, n.records[i].id) <= n.records[i].memory {
          if i != k { assert m.records[i].id != id; }
        }
      case Exit(id) =>
        forall i | 0 <= i < |n.records| ensures 0 <= UsedBy(n, n.records[i].id) <= n.records[i].memory {
          assert Credible(m.records[i]);
        }
      case Drop(id) =>
        StepKeepsSound(m.records, Released(id));
        forall i | 0 <= i < |n.records| ensures 0 <= UsedBy(n, n.records[i].id) <= n.records[i].memory {
          assert n.records[i] in n.records && n.records[i] in m.records;
          var j :| 0 <= j < |m.records| && m.records[j] == n.records[i];
        }
    }
  }

  // ----- runs

  ghost predicate IsMachineRun(states: seq<Machine>, events: seq<Event>, floor: nat) {
    && |states| == |events| + 1
    && forall i :: 0 <= i < |events| ==> Enabled(states[i], events[i], floor) && states[i + 1] == Next(states[i], events[i])
  }

  /** If the memory never falls by more than `d` between an observation and the admission that rests
      on it, the slack never falls more than `d` below the floor. With `d` zero, the floor holds. */
  lemma {:induction false} FloorHolds(states: seq<Machine>, events: seq<Event>, floor: nat, d: nat)
    requires IsMachineRun(states, events, floor) && Within(states[0]) && Slack(states[0]) >= floor - d
    requires forall i :: 0 <= i < |events| ==> Fall(states[i], events[i]) <= d
    ensures forall i :: 0 <= i < |states| ==> Within(states[i]) && Slack(states[i]) >= floor - d
    decreases |events|
  {
    if events != [] {
      var n := |events| - 1;
      MachineRunPrefix(states, events, floor);
      FloorHolds(states[..n + 1], events[..n], floor, d);
      assert states[..n + 1][n] == states[n];
      assert Enabled(states[n], events[n], floor) && states[n + 1] == Next(states[n], events[n]);
      EventKeepsWithin(states[n], events[n], floor);
      if events[n].Admit? {
        AdmissionLeavesFloor(states[n], events[n], floor);
      } else {
        OtherEventsKeepSlack(states[n], events[n], floor);
      }
      forall i | 0 <= i < |states| ensures Within(states[i]) && Slack(states[i]) >= floor - d {
        if i <= n { assert states[i] == states[..n + 1][i]; }
      }
    }
  }

  lemma MachineRunPrefix(states: seq<Machine>, events: seq<Event>, floor: nat)
    requires IsMachineRun(states, events, floor) && events != []
    ensures IsMachineRun(states[..|events|], events[..|events| - 1], floor)
    ensures forall i :: 0 <= i < |events| - 1 ==> Fall(states[..|events|][i], events[..|events| - 1][i]) == Fall(states[i], events[i])
  {
    var n := |events| - 1;
    forall i | 0 <= i < n
      ensures Enabled(states[..n + 1][i], events[..n][i], floor) && states[..n + 1][i + 1] == Next(states[..n + 1][i], events[..n][i])
    {
      assert Enabled(states[i], events[i], floor) && states[i + 1] == Next(states[i], events[i]);
    }
  }

  lemma OfOne(m: Machine, a: Reservation, usage: Reservation -> Option<int>, isLive: Reservation -> Verdict)
    requires a.memory >= 0 && isLive(a) == Alive && usage(a) == Some(a.memory)
    ensures NotGone([a], isLive) == [a] && Withheld([a], usage) == 0 && Sum(m, [a]) == OwedTo(m, a)
  {
    AndOne(m, [], a, usage, isLive);
    assert [] + [a] == [a];
  }

  lemma AndOne(m: Machine, records: seq<Reservation>, a: Reservation, usage: Reservation -> Option<int>,
               isLive: Reservation -> Verdict)
    requires a.memory >= 0 && isLive(a) == Alive && usage(a) == Some(a.memory)
    ensures NotGone(records + [a], isLive) == NotGone(records, isLive) + [a]
    ensures Withheld(records + [a], usage) == Withheld(records, usage)
    ensures Sum(m, records + [a]) == Sum(m, records) + OwedTo(m, a)
  {
    var all, n := records + [a], |records|;
    assert all[..n] == records && all[n] == a;
  }

  lemma FirstFits(m: Machine, a: Reservation, usage: Reservation -> Option<int>, isLive: Reservation -> Verdict, floor: nat)
    requires m.records == [] && Credible(a) && 0 in m.seen && a.memory + floor <= m.seen[0]
    requires a.id !in m.exited && a.id !in m.used
    ensures Enabled(m, Admit(0, a, usage, isLive), floor) && Next(m, Admit(0, a, usage, isLive)).records == [a]
  {
    assert NotGone(m.records, isLive) == [];
  }

  lemma MayConsume(m: Machine, a: Reservation, bytes: nat, floor: nat)
    requires m.records == [a] && a.memory == bytes && a.id !in m.exited && a.id !in m.used
    ensures Enabled(m, Consume(a.id, bytes), floor)
    ensures Next(m, Consume(a.id, bytes)) == m.(available := m.available - bytes, used := m.used[a.id := bytes])
  {
    assert m.records[0].id == a.id;
  }

  /** The first has taken its memory, so nothing is withheld for it. */
  lemma SecondFits(m: Machine, a: Reservation, b: Reservation, usage: Reservation -> Option<int>,
                   isLive: Reservation -> Verdict, floor: nat)
    requires m.records == [a] && Credible(a) && Credible(b) && a.id != b.id && 1 in m.seen && b.memory + floor <= m.seen[1]
    requires isLive(a) == Alive && usage(a) == Some(a.memory) && UsedBy(m, a.id) == a.memory
    requires m.exited == {} && b.id !in m.used
    ensures Enabled(m, Admit(1, b, usage, isLive), floor)
    ensures var n := Next(m, Admit(1, b, usage, isLive)); n.records == [a, b] && Slack(n) == m.available - b.memory
  {
    OfOne(m, a, usage, isLive);
    var n := Next(m, Admit(1, b, usage, isLive));
    OfOne(n, a, usage, isLive);
    SumAnd(n, [a], b);
    assert [a] + [b] == [a, b];
  }

  lemma SumAnd(m: Machine, records: seq<Reservation>, b: Reservation)
    ensures Sum(m, records + [b]) == Sum(m, records) + OwedTo(m, b)
  {
    var all, n := records + [b], |records|;
    assert all[..n] == records && all[n] == b;
  }

  /** Two processes that observe before either is admitted: whatever the memory, the floor and the
      request, if one fits and two do not, both are admitted and the floor is broken, once the first
      workload has taken its memory. */
  lemma StaleObservationBreaksFloor(available: int, floor: nat, a: Reservation, b: Reservation, bytes: nat)
    returns (states: seq<Machine>, events: seq<Event>)
    requires Credible(a) && Credible(b) && a.id != b.id && a.memory == bytes && b.memory == bytes
    requires floor + bytes <= available < floor + 2 * bytes
    ensures IsMachineRun(states, events, floor)
    ensures Within(states[0]) && Slack(states[0]) == available >= floor
    ensures Slack(states[|states| - 1]) == available - 2 * bytes < floor
  {
    var known := (r: Reservation) => if r.id == a.id then Some(bytes as int) else Some(0);
    var alive := (r: Reservation) => Alive;
    var m0 := Machine(available, [], map[], {}, map[]);
    var m2 := m0.(seen := map[0 := available, 1 := available]);
    var m3 := m2.(records := [a]);
    var m4 := m3.(available := available - bytes, used := map[a.id := bytes]);
    var first, second := Admit(0, a, known, alive), Admit(1, b, known, alive);
    BothObserve(m0, m2, floor);
    FirstFits(m2, a, known, alive, floor);
    MayConsume(m3, a, bytes, floor);
    assert m4 == Next(m3, Consume(a.id, bytes));
    SecondFits(m4, a, b, known, alive, floor);
    states, events := [m0], [];
    states, events := OneMore(states, events, Observe(0), floor);
    states, events := OneMore(states, events, Observe(1), floor);
    states, events := OneMore(states, events, first, floor);
    states, events := OneMore(states, events, Consume(a.id, bytes), floor);
    states, events := OneMore(states, events, second, floor);
  }

  lemma OneMore(states: seq<Machine>, events: seq<Event>, e: Event, floor: nat)
    returns (longer: seq<Machine>, more: seq<Event>)
    requires IsMachineRun(states, events, floor) && Enabled(states[|states| - 1], e, floor)
    ensures IsMachineRun(longer, more, floor)
    ensures longer[0] == states[0] && longer[|longer| - 1] == Next(states[|states| - 1], e)
  {
    longer, more := states + [Next(states[|states| - 1], e)], events + [e];
    var n := |events|;
    assert longer[..n + 1] == states && more[..n] == events;
    assert forall i :: 0 <= i <= n ==> longer[i] == states[i];
    assert forall i :: 0 <= i < n ==> more[i] == events[i];
  }

  lemma BothObserve(m: Machine, after: Machine, floor: nat)
    requires m.seen == map[] && after == m.(seen := map[0 := m.available, 1 := m.available])
    ensures Next(Next(m, Observe(0)), Observe(1)) == after
    ensures Enabled(m, Observe(0), floor) && Enabled(Next(m, Observe(0)), Observe(1), floor)
  {
  }
}
