/** The publication of a PRIME checkpoint: four writes, a crash between any two, and the replay. */
module Prime {
  import opened Wrappers
  import opened Worlds

  /** A content identity: a hash of the parent's identity and the components, so no world's identity
      is part of its own. */
  datatype Content = Genesis | Of(parent: Content, components: string)

  datatype World = World(instance: string, alias: string, parent: Option<string>, content: Content, state: WorldState)

  datatype Position = Position(instance: string, content: Content, generation: string)

  datatype Store = Store(worlds: map<string, World>, prime: Option<Position>, active: string, dirty: bool)

  datatype Generation = Generation(id: string, components: string, present: bool, complete: bool)

  datatype Outcome = Published(world: World) | RefusedWith(code: string) | Stopped

  /** Aliases and contents are unique, and PRIME names a recorded world by its own identity. */
  ghost predicate Sound(s: Store) {
    && (forall i :: i in s.worlds ==> s.worlds[i].instance == i)
    && (forall i, j :: i in s.worlds && j in s.worlds && i != j ==>
          s.worlds[i].alias != s.worlds[j].alias && s.worlds[i].content != s.worlds[j].content)
    && (s.prime.Some? ==>
          s.prime.value.instance in s.worlds && s.worlds[s.prime.value.instance].content == s.prime.value.content)
  }

  function Alias(g: Generation): string { "prime-" + g.id }

  function Current(s: Store): Option<World> {
    if s.prime.Some? && s.prime.value.instance in s.worlds then Some(s.worlds[s.prime.value.instance]) else None
  }

  /** The content the published world has: PRIME's child. */
  function ChildContent(s: Store, g: Generation): Content {
    Of(if Current(s).Some? then Current(s).value.content else Genesis, g.components)
  }

  function NewWorld(s: Store, g: Generation, instance: string): World {
    World(instance, Alias(g), if Current(s).Some? then Some(Current(s).value.instance) else None, ChildContent(s, g), VALID)
  }

  predicate AliasTaken(s: Store, alias: string) {
    exists i | i in s.worlds :: s.worlds[i].alias == alias
  }

  predicate Conflicts(s: Store, w: World) {
    exists i | i in s.worlds :: i == w.instance || s.worlds[i].alias == w.alias || s.worlds[i].content == w.content
  }

  ghost function Named(s: Store, alias: string): (w: World)
    requires AliasTaken(s, alias)
    ensures w in s.worlds.Values && w.alias == alias
  {
    var i :| i in s.worlds && s.worlds[i].alias == alias;
    s.worlds[i]
  }

  lemma NamedIs(s: Store, i: string)
    requires Sound(s) && i in s.worlds
    ensures AliasTaken(s, s.worlds[i].alias) && Named(s, s.worlds[i].alias) == s.worlds[i]
  {
    var w := Named(s, s.worlds[i].alias);
    var j :| j in s.worlds && s.worlds[j] == w;
    assert j == i;
  }

  // ----- the states a publication goes through

  function Inserted(s: Store, w: World): Store {
    s.(worlds := s.worlds[w.instance := w])
  }

  predicate ToArchive(s: Store) {
    Current(s).Some? && (Current(s).value.state == VALID || Current(s).value.state == COLLAPSED)
  }

  function Archived(s: Store): Store {
    if ToArchive(s) then s.(worlds := s.worlds[Current(s).value.instance := Current(s).value.(state := ARCHIVED)]) else s
  }

  function Pointed(s: Store, w: World, g: Generation): Store {
    s.(prime := Some(Position(w.instance, w.content, g.id)), dirty := false)
  }

  function Activated(s: Store): Store {
    s.(active := "PRIME")
  }

  /** The whole publication, uninterrupted. */
  function Complete(s: Store, g: Generation, instance: string): Store {
    Activated(Pointed(Archived(Inserted(s, NewWorld(s, g, instance))), NewWorld(s, g, instance), g))
  }

  ghost predicate Publishable(s: Store, g: Generation) {
    && Sound(s) && g.present && g.complete && !AliasTaken(s, Alias(g))
    && forall i :: i in s.worlds ==> s.worlds[i].content != ChildContent(s, g)
  }

  // ----- the component

  class PrimeManager {
    var store: Store
    var writes: nat          // atomic writes that may still happen before the process stops

    constructor (store: Store, writes: nat)
      ensures this.store == store && this.writes == writes
    {
      this.store := store;
      this.writes := writes;
    }

    method FindAlias(alias: string) returns (found: Option<World>)
      ensures found.Some? <==> AliasTaken(store, alias)
      ensures found.Some? ==> found.value in store.worlds.Values && found.value.alias == alias
    {
      if i :| i in store.worlds && store.worlds[i].alias == alias {
        return Some(store.worlds[i]);
      }
      return None;
    }

    /** `publish_checkpoint`, under an instance id nobody has used, perhaps stopped between two writes. */
    method Publish(g: Generation, instance: string) returns (outcome: Outcome)
      requires Sound(store) && instance !in store.worlds
      modifies this
      ensures Attempt(old(store), g, instance, old(writes)) == (store, outcome)
      ensures outcome.Published? ==>
                IsPublication(old(store), g, instance, outcome.world) && PublishedInto(old(store), g, outcome.world, store)
      ensures outcome.RefusedWith? ==> store == old(store)
    {
      AttemptMeaning(store, g, instance, writes);
      var start := store;
      if !g.present {
        return RefusedWith("INVALID_GENERATION");
      }
      if !g.complete {
        return RefusedWith("INCOMPLETE_WORLD");
      }
      var current := Current(store);
      var world := NewWorld(store, g, instance);
      if Conflicts(store, world) {
        if writes == 0 {
          return Stopped;
        }
        var existing := FindAlias(world.alias);
        if existing.None? {
          return RefusedWith("NOT_FOUND");
        }
        if existing.value.content != world.content {
          return RefusedWith("RECOVERY_STATE_MISMATCH");
        }
        world := existing.value;
      } else {
        if writes == 0 {
          return Stopped;
        }
        store := store.(worlds := store.worlds[world.instance := world]);
        writes := writes - 1;
      }
      outcome := ArchiveAndMove(current, world, g);
    }

    /** The old PRIME archived, PRIME moved, and its name made the active one. */
    method ArchiveAndMove(current: Option<World>, world: World, g: Generation) returns (outcome: Outcome)
      requires current == Current(store)
      modifies this
      ensures AfterInsert(old(store), world, g, old(writes)) == (store, outcome)
    {
      if current.Some? && (current.value.state == VALID || current.value.state == COLLAPSED) {
        if writes == 0 {
          return Stopped;
        }
        assert Allowed(current.value.state, ARCHIVED);
        store := store.(worlds := store.worlds[current.value.instance := current.value.(state := ARCHIVED)]);
        writes := writes - 1;
      }
      if writes == 0 {
        return Stopped;
      }
      store := store.(prime := Some(Position(world.instance, world.content, g.id)), dirty := false);
      if writes == 1 {
        writes := 0;
        return Stopped;
      }
      store := store.(active := "PRIME");
      writes := writes - 2;
      return Published(world);
    }
  }

  /** What one attempt makes of a store, with so many writes before it stops. */
  ghost function Attempt(s: Store, g: Generation, instance: string, writes: nat): (Store, Outcome)
    requires Sound(s)
  {
    if !g.present then (s, RefusedWith("INVALID_GENERATION"))
    else if !g.complete then (s, RefusedWith("INCOMPLETE_WORLD"))
    else
      var w := NewWorld(s, g, instance);
      if writes == 0 then (s, Stopped)
      else if !Conflicts(s, w) then AfterInsert(Inserted(s, w), w, g, writes - 1)
      else if !AliasTaken(s, w.alias) then (s, RefusedWith("NOT_FOUND"))
      else if Named(s, w.alias).content != w.content then (s, RefusedWith("RECOVERY_STATE_MISMATCH"))
      else AfterInsert(s, Named(s, w.alias), g, writes)
  }

  function AfterInsert(s: Store, w: World, g: Generation, writes: nat): (Store, Outcome) {
    if !ToArchive(s) then AfterArchive(s, w, g, writes)
    else if writes == 0 then (s, Stopped)
    else AfterArchive(Archived(s), w, g, writes - 1)
  }

  function AfterArchive(s: Store, w: World, g: Generation, writes: nat): (Store, Outcome) {
    if writes == 0 then (s, Stopped)
    else if writes == 1 then (Pointed(s, w, g), Stopped)
    else (Activated(Pointed(s, w, g)), Published(w))
  }

  // ----- what an attempt does, in the recorded facts alone

  /** The child of what PRIME names, or of nothing, with these components. */
  ghost predicate IsChild(s: Store, g: Generation, content: Content) {
    && content.Of? && content.components == g.components
    && content.parent == if s.prime.Some? then s.prime.value.content else Genesis
  }

  /** No recorded world has the publication's name or identity. */
  ghost predicate IsNew(s: Store, g: Generation) {
    forall i :: i in s.worlds ==> s.worlds[i].alias != "prime-" + g.id && !IsChild(s, g, s.worlds[i].content)
  }

  /** A recorded world has both: an earlier attempt recorded it. */
  ghost predicate IsReplay(s: Store, g: Generation, i: string) {
    i in s.worlds && s.worlds[i].alias == "prime-" + g.id && IsChild(s, g, s.worlds[i].content)
  }

  /** PRIME names a world that was neither archived nor otherwise finished. */
  ghost predicate OldPrimeServes(s: Store) {
    s.prime.Some? && s.prime.value.instance in s.worlds
    && (s.worlds[s.prime.value.instance].state == VALID || s.worlds[s.prime.value.instance].state == COLLAPSED)
  }

  /** The world published: a new one, valid, PRIME's child under the generation's name; or the one recorded
      before, as it was. */
  ghost predicate IsPublication(s: Store, g: Generation, instance: string, w: World) {
    if IsNew(s, g) then
      && w.instance == instance && w.alias == "prime-" + g.id && w.state == VALID && IsChild(s, g, w.content)
      && w.parent == if s.prime.Some? then Some(s.prime.value.instance) else None
    else
      exists i :: IsReplay(s, g, i) && w == s.worlds[i]
  }

  /** The old PRIME archived if it was valid or collapsed, and every other world as it was. */
  ghost predicate OthersKept(s: Store, after: Store) {
    forall i :: i in s.worlds ==>
      && i in after.worlds
      && after.worlds[i] == if s.prime.Some? && i == s.prime.value.instance
                               && (s.worlds[i].state == VALID || s.worlds[i].state == COLLAPSED)
                            then s.worlds[i].(state := ARCHIVED) else s.worlds[i]
  }

  ghost predicate PublishedInto(s: Store, g: Generation, w: World, after: Store) {
    && after.prime == Some(Position(w.instance, w.content, g.id)) && after.active == "PRIME" && !after.dirty
    && after.worlds.Keys == s.worlds.Keys + {w.instance} && after.worlds[w.instance] == w
    && OthersKept(s, after)
  }

  /** An attempt publishes exactly if the generation is whole, its name and identity are both new or both of
      one recorded world, and all its writes happen; refused, it writes nothing; stopped, it has not moved
      PRIME, or has only not named the active world. */
  lemma AttemptMeaning(s: Store, g: Generation, instance: string, writes: nat)
    requires Sound(s) && instance !in s.worlds
    ensures var (after, outcome) := Attempt(s, g, instance, writes);
            var needed := (if IsNew(s, g) then 3 else 2) + if OldPrimeServes(s) then 1 else 0;
            && (outcome == RefusedWith("INVALID_GENERATION") <==> !g.present)
            && (outcome == RefusedWith("INCOMPLETE_WORLD") <==> g.present && !g.complete)
            && (outcome.Published? <==>
                  && g.present && g.complete && (IsNew(s, g) || exists i :: IsReplay(s, g, i)) && writes >= needed)
            && (outcome.Published? ==>
                  IsPublication(s, g, instance, outcome.world) && PublishedInto(s, g, outcome.world, after))
            && (outcome.RefusedWith? ==> after == s)
            && (outcome.Stopped? ==> after.prime == s.prime || (after.active == s.active && writes == needed - 1))
  {
    if g.present && g.complete && writes > 0 {
      var w := NewWorld(s, g, instance);
      ConflictsMeaning(s, g, instance);
      if !Conflicts(s, w) {
        InsertedMeaning(s, g, instance, writes);
      } else if AliasTaken(s, w.alias) && Named(s, w.alias).content == w.content {
        AfterInsertMeaning(s, Named(s, w.alias), g, writes);
        assert IsReplay(s, g, Named(s, w.alias).instance);
      }
    }
  }

  lemma ConflictsMeaning(s: Store, g: Generation, instance: string)
    requires Sound(s) && instance !in s.worlds
    ensures var w := NewWorld(s, g, instance);
            && (forall c :: IsChild(s, g, c) <==> c == w.content) && w.alias == "prime-" + g.id
            && (Conflicts(s, w) <==> !IsNew(s, g))
            && ((exists i :: IsReplay(s, g, i)) <==> AliasTaken(s, w.alias) && Named(s, w.alias).content == w.content)
            && (AliasTaken(s, w.alias) ==> Named(s, w.alias).instance in s.worlds
                                           && s.worlds[Named(s, w.alias).instance] == Named(s, w.alias))
  {
    var w := NewWorld(s, g, instance);
    if i :| IsReplay(s, g, i) { NamedIs(s, i); }
    if AliasTaken(s, w.alias) {
      var j :| j in s.worlds && s.worlds[j] == Named(s, w.alias);
      assert s.worlds[j].instance == j;
      if Named(s, w.alias).content == w.content { assert IsReplay(s, g, j); }
    }
  }

  lemma InsertedMeaning(s: Store, g: Generation, instance: string, writes: nat)
    requires Sound(s) && instance !in s.worlds && writes > 0 && !Conflicts(s, NewWorld(s, g, instance))
    ensures var w := NewWorld(s, g, instance);
            var (after, outcome) := AfterInsert(Inserted(s, w), w, g, writes - 1);
            && OldPrimeServes(Inserted(s, w)) == OldPrimeServes(s)
            && (outcome.Published? <==> writes >= 3 + if OldPrimeServes(s) then 1 else 0)
            && (outcome.Published? ==> outcome.world == w && PublishedInto(s, g, w, after))
            && (outcome.Published? || (outcome.Stopped? &&
                  (after.prime == s.prime || (after.active == s.active && writes == 2 + if OldPrimeServes(s) then 1 else 0))))
  {
    var w := NewWorld(s, g, instance);
    var inserted := Inserted(s, w);
    assert !OldPrimeServes(inserted) || inserted.prime.value.instance != instance;
  }

  lemma AfterInsertMeaning(s: Store, w: World, g: Generation, writes: nat)
    requires Sound(s) && w.instance in s.worlds && s.worlds[w.instance] == w && IsChild(s, g, w.content)
    ensures var (after, outcome) := AfterInsert(s, w, g, writes);
            && (outcome.Published? <==> writes >= 2 + if OldPrimeServes(s) then 1 else 0)
            && (outcome.Published? ==> outcome.world == w && PublishedInto(s, g, w, after))
            && (outcome.Published? || (outcome.Stopped? &&
                  (after.prime == s.prime || (after.active == s.active && writes == 1 + if OldPrimeServes(s) then 1 else 0))))
  {
    if s.prime.Some? { NotItsOwnChild(s.prime.value.content, g.components); }
  }

  // ----- replay

  /** A publication begun and not yet pointed to: nothing written, or the world recorded under
      `instance` and the old PRIME archived or not. */
  ghost predicate Begun(s: Store, now: Store, g: Generation, instance: Option<string>) {
    match instance
    case None => now == s
    case Some(f) =>
      f !in s.worlds &&
      (now == Inserted(s, NewWorld(s, g, f)) || now == Archived(Inserted(s, NewWorld(s, g, f))))
  }

  lemma InsertedKeepsSound(s: Store, g: Generation, f: string)
    requires Publishable(s, g) && f !in s.worlds
    ensures var now := Inserted(s, NewWorld(s, g, f));
            && Sound(now) && Current(now) == Current(s) && AliasTaken(now, Alias(g))
            && Named(now, Alias(g)) == NewWorld(s, g, f)
  {
    var w := NewWorld(s, g, f);
    var now := Inserted(s, w);
    assert now.worlds[f].alias == Alias(g);
    NamedIs(now, f);
  }

  lemma ArchivedKeepsSound(s: Store)
    requires Sound(s)
    ensures Sound(Archived(s)) && !ToArchive(Archived(s)) && Archived(Archived(s)) == Archived(s)
    ensures Current(s).Some? ==>
              && Current(Archived(s)).Some?
              && Current(Archived(s)).value.(state := ARCHIVED) == Current(s).value.(state := ARCHIVED)
    ensures Current(s).None? ==> Archived(s) == s
  {
  }

  /** The store of a begun publication, as the next attempt sees it. */
  lemma BegunIsReplayable(s: Store, now: Store, g: Generation, f: string, next: string)
    requires Publishable(s, g) && Begun(s, now, g, Some(f))
    ensures Sound(now) && Conflicts(now, NewWorld(now, g, next)) && AliasTaken(now, Alias(g))
    ensures Named(now, Alias(g)) == NewWorld(s, g, f) && NewWorld(now, g, next).content == NewWorld(s, g, f).content
    ensures Archived(now) == Archived(Inserted(s, NewWorld(s, g, f)))
  {
    var w := NewWorld(s, g, f);
    var inserted := Inserted(s, w);
    InsertedKeepsSound(s, g, f);
    ArchivedKeepsSound(inserted);
    assert now.worlds[f].alias == Alias(g) by {
      if ToArchive(inserted) { assert Current(inserted).value.instance != f; }
    }
    assert now.worlds[f] == w;
    NamedIs(now, f);
  }

  /** An attempt on a begun publication either stops with it begun, the world recorded at most once and
      under the id first recorded, or moves PRIME to exactly the world an uninterrupted run records. */
  lemma AttemptOnBegun(s: Store, now: Store, g: Generation, instance: Option<string>, next: string, writes: nat)
    requires Publishable(s, g) && Begun(s, now, g, instance) && Sound(now)
    requires next !in s.worlds && next !in now.worlds
    ensures var (after, outcome) := Attempt(now, g, next, writes);
            var id := if instance.Some? then instance.value else next;
            || (outcome == Stopped && after.prime == s.prime && Sound(after) &&
                  (Begun(s, after, g, instance) || Begun(s, after, g, Some(id))))
            || (outcome == Stopped && Activated(after) == Complete(s, g, id) && after.active == s.active)
            || (outcome == Published(NewWorld(s, g, id)) && after == Complete(s, g, id))
    ensures writes >= 4 ==> Attempt(now, g, next, writes).1.Published?
  {
    if instance.Some? {
      BegunIsReplayable(s, now, g, instance.value, next);
      ArchivedKeepsSound(now);
    } else {
      var w := NewWorld(s, g, next);
      assert !Conflicts(s, w);
      InsertedKeepsSound(s, g, next);
      ArchivedKeepsSound(Inserted(s, w));
    }
  }

  /** The k-th attempt stopped before PRIME moved. */
  ghost predicate StoppedEarly(s: Store, g: Generation, attempts: seq<(string, nat)>, states: seq<Store>, k: nat)
    requires k < |attempts| && |states| == |attempts| + 1
  {
    && Sound(states[k]) && attempts[k].0 !in states[k].worlds && attempts[k].0 !in s.worlds
    && Attempt(states[k], g, attempts[k].0, attempts[k].1) == (states[k + 1], Stopped)
    && states[k + 1].prime == s.prime
  }

  ghost predicate Interrupted(s: Store, g: Generation, attempts: seq<(string, nat)>, states: seq<Store>) {
    && |states| == |attempts| + 1 && states[0] == s
    && forall k :: 0 <= k < |attempts| ==> StoppedEarly(s, g, attempts, states, k)
  }

  ghost predicate Tried(attempts: seq<(string, nat)>, id: string) {
    exists k :: 0 <= k < |attempts| && attempts[k].0 == id
  }

  /** A publication interrupted any number of times before PRIME moved, at any writes, and then replayed
      to its end, leaves the store of one uninterrupted run: the same PRIME, the same worlds, the same
      one archived; recorded under the id of the attempt that inserted it. */
  lemma {:induction false} ReplayReachesTheSame(s: Store, g: Generation, attempts: seq<(string, nat)>, states: seq<Store>,
                                                last: string, writes: nat)
    requires Publishable(s, g) && Interrupted(s, g, attempts, states)
    requires last !in s.worlds && last !in states[|attempts|].worlds && writes >= 4
    ensures Sound(states[|attempts|])
    ensures exists id :: (id == last || Tried(attempts, id)) && id !in s.worlds
              && Attempt(states[|attempts|], g, last, writes) == (Complete(s, g, id), Published(NewWorld(s, g, id)))
              && Attempt(s, g, id, 4) == (Complete(s, g, id), Published(NewWorld(s, g, id)))
  {
    var instance := BegunAfter(s, g, attempts, states);
    var id := if instance.Some? then instance.value else last;
    AttemptOnBegun(s, states[|attempts|], g, instance, last, writes);
    AttemptOnBegun(s, s, g, None, id, 4);
    assert id == last || Tried(attempts, id);
  }

  lemma {:induction false} BegunAfter(s: Store, g: Generation, attempts: seq<(string, nat)>, states: seq<Store>)
    returns (instance: Option<string>)
    requires Publishable(s, g) && Interrupted(s, g, attempts, states)
    ensures Begun(s, states[|attempts|], g, instance) && Sound(states[|attempts|])
    ensures instance.Some? ==> Tried(attempts, instance.value)
    decreases |attempts|
  {
    if attempts == [] {
      return None;
    }
    var n := |attempts| - 1;
    InterruptedBefore(s, g, attempts, states);
    var before := BegunAfter(s, g, attempts[..n], states[..n + 1]);
    assert StoppedEarly(s, g, attempts, states, n);
    instance := BegunNext(s, states[n], states[n + 1], g, before, attempts[n].0, attempts[n].1);
    if before.Some? {
      var k :| 0 <= k < n && attempts[..n][k].0 == before.value;
      assert attempts[k].0 == before.value;
    } else if instance.Some? {
      assert attempts[n].0 == instance.value;
    }
  }

  lemma InterruptedBefore(s: Store, g: Generation, attempts: seq<(string, nat)>, states: seq<Store>)
    requires Interrupted(s, g, attempts, states) && attempts != []
    ensures Interrupted(s, g, attempts[..|attempts| - 1], states[..|attempts|])
  {
    var earlier, through := attempts[..|attempts| - 1], states[..|attempts|];
    forall k | 0 <= k < |earlier| ensures StoppedEarly(s, g, earlier, through, k) {
      assert StoppedEarly(s, g, attempts, states, k);
    }
  }

  lemma BegunNext(s: Store, now: Store, after: Store, g: Generation, before: Option<string>, next: string, writes: nat)
    returns (instance: Option<string>)
    requires Publishable(s, g) && Begun(s, now, g, before) && Sound(now) && next !in s.worlds && next !in now.worlds
    requires Attempt(now, g, next, writes) == (after, Stopped) && after.prime == s.prime
    ensures Begun(s, after, g, instance) && Sound(after)
    ensures instance == before || (before.None? && instance == Some(next))
  {
    AttemptOnBegun(s, now, g, before, next, writes);
    NotComplete(s, after, g, if before.Some? then before.value else next);
    instance := if Begun(s, after, g, before) then before else Some(next);
  }

  lemma NotComplete(s: Store, now: Store, g: Generation, id: string)
    requires Sound(s) && id !in s.worlds && now.prime == s.prime
    ensures Activated(now) != Complete(s, g, id)
  {
    assert Complete(s, g, id).prime.value.instance == id;
  }

  /** Once PRIME has moved, a replay is refused and writes nothing: the world it would publish is a
      child of the published one, and no identity is its own child's. So a stop between moving PRIME
      and naming the active world is one no replay repairs. */
  lemma ReplayAfterPrimeIsRefused(s: Store, g: Generation, id: string, now: Store, next: string, writes: nat)
    requires Publishable(s, g) && id !in s.worlds && next != id && next !in s.worlds
    requires now == Complete(s, g, id) || now == Pointed(Archived(Inserted(s, NewWorld(s, g, id))), NewWorld(s, g, id), g)
    ensures Sound(now)
    ensures Attempt(now, g, next, writes) == (now, if writes == 0 then Stopped else RefusedWith("RECOVERY_STATE_MISMATCH"))
  {
    var w := NewWorld(s, g, id);
    var before := Archived(Inserted(s, w));
    BegunIsReplayable(s, before, g, id, next);
    InsertedKeepsSound(s, g, id);
    assert now.worlds[id] == w;
    NamedIs(now, id);
    assert NewWorld(now, g, next).content == Of(w.content, g.components);
    NotItsOwnChild(w.content, g.components);
  }

  lemma NotItsOwnChild(c: Content, components: string)
    ensures c != Of(c, components)
  {
  }

  /** What an uninterrupted publication changes: one more world, PRIME's child; the old PRIME archived if
      it was valid or collapsed; and every other world as it was. */
  lemma PublicationChangesOnly(s: Store, g: Generation, id: string)
    requires Publishable(s, g) && id !in s.worlds
    ensures var after := Complete(s, g, id);
            && Sound(after) && after.worlds.Keys == s.worlds.Keys + {id}
            && after.prime == Some(Position(id, ChildContent(s, g), g.id)) && !after.dirty
            && after.worlds[id].parent == (if Current(s).Some? then Some(Current(s).value.instance) else None)
            && OthersKept(s, after)
  {
    var w := NewWorld(s, g, id);
    InsertedKeepsSound(s, g, id);
    ArchivedKeepsSound(Inserted(s, w));
    ArchivedChangesOnly(s, w);
  }

  lemma ArchivedChangesOnly(s: Store, w: World)
    requires Sound(s) && w.instance !in s.worlds && Current(Inserted(s, w)) == Current(s)
    ensures var after := Archived(Inserted(s, w));
            && after.worlds.Keys == s.worlds.Keys + {w.instance} && after.worlds[w.instance] == w && OthersKept(s, after)
  {
    assert Inserted(s, w).worlds.Keys == s.worlds.Keys + {w.instance};
  }
}
