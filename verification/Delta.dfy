/** The delta between two manifests and the three-way merge, as the loops that build them. */
module Delta {
  import opened Wrappers
  import opened Text
  import opened Trees
  import opened Merge

  // ----- byte order of paths

  /** Byte-wise order, as sorting strings of bytes compares them. */
  predicate Less(a: string, b: string) {
    b != "" && (a == "" || a[0] < b[0] || (a[0] == b[0] && Less(a[1..], b[1..])))
  }

  lemma {:induction false} LessTotal(a: string, b: string)
    ensures a == b || Less(a, b) || Less(b, a)
  {
    if a != "" && b != "" && a[0] == b[0] {
      LessTotal(a[1..], b[1..]);
      assert a == [a[0]] + a[1..] && b == [b[0]] + b[1..];
    }
  }

  lemma {:induction false} LessTransitive(a: string, b: string, c: string)
    requires Less(a, b) && Less(b, c)
    ensures Less(a, c)
  {
    if a != "" && a[0] == b[0] && b[0] == c[0] {
      LessTransitive(a[1..], b[1..], c[1..]);
    }
  }

  lemma {:induction false} LessIrreflexive(a: string)
    ensures !Less(a, a)
  {
    if a != "" {
      LessIrreflexive(a[1..]);
    }
  }

  /** An operation's sort key: the root, then the path as its bytes. The root itself is "". */
  datatype Key = Key(rootKey: string, path: string)

  predicate KeyLess(a: Key, b: Key) {
    Less(a.rootKey, b.rootKey) || (a.rootKey == b.rootKey && Less(a.path, b.path))
  }

  lemma KeyOrder(a: Key, b: Key, c: Key)
    ensures a == b || KeyLess(a, b) || KeyLess(b, a)
    ensures !KeyLess(a, a)
    ensures KeyLess(a, b) && KeyLess(b, c) ==> KeyLess(a, c)
  {
    LessTotal(a.rootKey, b.rootKey);
    LessTotal(a.path, b.path);
    LessIrreflexive(a.rootKey);
    LessIrreflexive(a.path);
    if KeyLess(a, b) && KeyLess(b, c) {
      if Less(a.rootKey, b.rootKey) && Less(b.rootKey, c.rootKey) {
        LessTransitive(a.rootKey, b.rootKey, c.rootKey);
      } else if a.rootKey == b.rootKey && b.rootKey == c.rootKey {
        LessTransitive(a.path, b.path, c.path);
      }
    }
  }

  function Spelled(p: Path): string {
    Join(p, '/')
  }

  /** Two valid paths spelled alike are one path. */
  lemma SpellingIsInjective(p: Path, q: Path)
    requires p == [] || ValidPath(p)
    requires q == [] || ValidPath(q)
    ensures Spelled(p) == Spelled(q) ==> p == q
  {
    if p != [] { SplitJoin(p, '/'); }
    if q != [] { SplitJoin(q, '/'); }
  }

  lemma SpellingIsNotEmpty(p: Path)
    requires ValidPath(p)
    ensures Spelled(p) != ""
  {
  }

  // ----- operations

  datatype Kind = Add | Modify | Delete

  datatype Operation = Operation(rootKey: string, path: Path, op: Kind, old_: State, new_: State) {
    function SortKey(): Key {
      Key(rootKey, Spelled(path))
    }
  }

  ghost predicate StrictlyIncreasing(ops: seq<Operation>) {
    forall i, j :: 0 <= i < j < |ops| ==> KeyLess(ops[i].SortKey(), ops[j].SortKey())
  }

  /** `_validate_operations`: keys neither repeat nor step backwards, which is strict increase. */
  method ValidateOperations(ops: seq<Operation>) returns (ok: bool)
    ensures ok <==> StrictlyIncreasing(ops)
  {
    var seen: set<Key> := {};
    var previous: Option<Key> := None;
    for i := 0 to |ops|
      invariant forall k :: k in seen <==> exists j :: 0 <= j < i && ops[j].SortKey() == k
      invariant previous == if i == 0 then None else Some(ops[i - 1].SortKey())
      invariant StrictlyIncreasing(ops[..i])
    {
      var key := ops[i].SortKey();
      if key in seen {
        var j :| 0 <= j < i && ops[j].SortKey() == key;
        KeyOrder(key, key, key);
        return false;
      }
      if previous.Some? && KeyLess(key, previous.value) {
        KeyOrder(key, previous.value, key);
        return false;
      }
      if previous.Some? {
        assert previous.value in seen;
        KeyOrder(key, previous.value, key);
        forall j | 0 <= j < i
          ensures KeyLess(ops[j].SortKey(), key)
        {
          assert ops[..i][j] == ops[j] && ops[..i][i - 1] == ops[i - 1];
          KeyOrder(ops[j].SortKey(), previous.value, key);
        }
      }
      seen := seen + {key};
      previous := Some(key);
      assert ops[..i + 1] == ops[..i] + [ops[i]];
    }
    assert ops[..|ops|] == ops;
    return true;
  }

  // ----- the delta of one root

  function KindOf(old_: Option<Entry>, new_: Option<Entry>): Kind {
    if old_.None? then Add else if new_.None? then Delete else Modify
  }

  function OperationAt(base: Manifest, candidate: Manifest, p: Path): Operation {
    if p == [] then Operation(base.rootKey, [], Modify, RootState(base.root), RootState(candidate.root))
    else
      var o, n := Lookup(base.entries, p), Lookup(candidate.entries, p);
      Operation(base.rootKey, p, KindOf(o, n), StateOf(o), StateOf(n))
  }

  /** Whether the delta must name `p`; the root's own metadata is the path []. */
  predicate Differs(base: Manifest, candidate: Manifest, p: Path) {
    if p == [] then RootTouched(base, candidate) else Touched(base.entries, candidate.entries, p)
  }

  ghost predicate Names(ops: seq<Operation>, p: Path) {
    exists i :: 0 <= i < |ops| && ops[i].path == p
  }

  /** What an operation says: the two states, and whether there was an entry before and is one after. */
  ghost predicate SaysWhatChanged(base: Manifest, candidate: Manifest, operation: Operation) {
    var p := operation.path;
    && operation.rootKey == base.rootKey
    && operation.old_ == StateIn(base, p) && operation.new_ == StateIn(candidate, p) && operation.old_ != operation.new_
    && (operation.op == Add <==> p != [] && p !in base.entries)
    && (operation.op == Delete <==> p != [] && p !in candidate.entries)
  }

  lemma DeltaSaysWhatChanged(base: Manifest, candidate: Manifest, ops: seq<Operation>)
    requires IsDelta(base, candidate, ops)
    ensures forall i :: 0 <= i < |ops| ==> SaysWhatChanged(base, candidate, ops[i])
    ensures forall p :: Names(ops, p) <==> StateIn(base, p) != StateIn(candidate, p)
  {
    forall i | 0 <= i < |ops| ensures SaysWhatChanged(base, candidate, ops[i]) {
      assert Differs(base, candidate, ops[i].path) && ops[i] == OperationAt(base, candidate, ops[i].path);
    }
    forall p ensures Names(ops, p) <==> StateIn(base, p) != StateIn(candidate, p) {
      assert Differs(base, candidate, p) <==> StateIn(base, p) != StateIn(candidate, p);
    }
  }

  /** Exactly the differing paths, once each, in order, each with its two states. */
  ghost predicate IsDelta(base: Manifest, candidate: Manifest, ops: seq<Operation>) {
    && StrictlyIncreasing(ops)
    && (forall i :: 0 <= i < |ops| ==>
          Differs(base, candidate, ops[i].path) && ops[i] == OperationAt(base, candidate, ops[i].path))
    && (forall p :: Differs(base, candidate, p) ==> Names(ops, p))
  }

  /** `sorted(paths)` by bytes. */
  method Sorted(paths: set<Path>) returns (r: seq<Path>)
    requires forall p :: p in paths ==> ValidPath(p)
    ensures forall p :: p in r <==> p in paths
    ensures forall i, j :: 0 <= i < j < |r| ==> Less(Spelled(r[i]), Spelled(r[j]))
  {
    r := [];
    var rest := paths;
    while rest != {}
      invariant rest <= paths
      invariant forall p :: p in r <==> p in paths && p !in rest
      invariant forall i, j :: 0 <= i < j < |r| ==> Less(Spelled(r[i]), Spelled(r[j]))
      invariant forall p, q :: p in r && q in rest ==> Less(Spelled(p), Spelled(q))
      decreases |rest|
    {
      var least := Least(rest);
      r := r + [least];
      rest := rest - {least};
    }
  }

  method Least(paths: set<Path>) returns (least: Path)
    requires paths != {} && forall p :: p in paths ==> ValidPath(p)
    ensures least in paths
    ensures forall q :: q in paths && q != least ==> Less(Spelled(least), Spelled(q))
  {
    least :| least in paths;
    var rest := paths - {least};
    while rest != {}
      invariant rest <= paths && least in paths && least !in rest
      invariant forall q :: q in paths && q !in rest && q != least ==> Less(Spelled(least), Spelled(q))
      decreases |rest|
    {
      var p :| p in rest;
      LessTotal(Spelled(p), Spelled(least));
      SpellingIsInjective(p, least);
      if Less(Spelled(p), Spelled(least)) {
        forall q | q in paths && q !in rest && q != least
          ensures Less(Spelled(p), Spelled(q))
        {
          LessTransitive(Spelled(p), Spelled(least), Spelled(q));
        }
        least := p;
      }
      rest := rest - {p};
    }
  }

  /** `Delta.compute`. It refuses only manifests of different roots; the validation at its end never does. */
  method Compute(base: Manifest, candidate: Manifest) returns (r: Result<seq<Operation>>)
    requires ValidPaths(base.entries) && ValidPaths(candidate.entries)
    ensures base.rootKey != candidate.rootKey ==> r == Refused("ROOT_SET_MISMATCH")
    ensures base.rootKey == candidate.rootKey ==> r.Ok? && IsDelta(base, candidate, r.value)
    ensures r.Ok? ==> forall i :: 0 <= i < |r.value| ==> SaysWhatChanged(base, candidate, r.value[i])
    ensures r.Ok? ==> forall p :: Names(r.value, p) <==> StateIn(base, p) != StateIn(candidate, p)
  {
    if base.rootKey != candidate.rootKey {
      return Refused("ROOT_SET_MISMATCH");
    }
    var paths := Sorted(base.entries.Keys + candidate.entries.Keys);
    var ops: seq<Operation> := [];
    for i := 0 to |paths|
      invariant Covers(base, candidate, ops, paths, i)
    {
      ops := Compare(base, candidate, paths, i, ops);
    }
    assert paths[..|paths|] == paths;
    if !SameRoot(base.root, candidate.root) {
      var operation := Operation(base.rootKey, [], Modify, RootState(base.root), RootState(candidate.root));
      RootComesFirst(base, candidate, paths, ops, operation);
      ops := [operation] + ops;
    }
    EntriesThenRoot(base, candidate, paths, ops);
    var ok := ValidateOperations(ops);
    if !ok {
      return Refused("INVALID_DELTA");
    }
    DeltaSaysWhatChanged(base, candidate, ops);
    return Ok(ops);
  }

  /** The first `i` paths have been compared. */
  ghost predicate Covers(base: Manifest, candidate: Manifest, ops: seq<Operation>, paths: seq<Path>, i: nat)
    requires i <= |paths|
  {
    && StrictlyIncreasing(ops)
    && (forall k :: 0 <= k < |ops| ==> ComesFrom(base, candidate, ops[k], paths[..i]))
    && forall j :: 0 <= j < i && Touched(base.entries, candidate.entries, paths[j]) ==> Names(ops, paths[j])
  }

  method Compare(base: Manifest, candidate: Manifest, paths: seq<Path>, i: nat, ops: seq<Operation>)
    returns (ops': seq<Operation>)
    requires i < |paths| && ValidPath(paths[i])
    requires forall i, j :: 0 <= i < j < |paths| ==> Less(Spelled(paths[i]), Spelled(paths[j]))
    requires Covers(base, candidate, ops, paths, i)
    ensures Covers(base, candidate, ops', paths, i + 1)
  {
    var p := paths[i];
    ops' := ops;
    var o, n := Lookup(base.entries, p), Lookup(candidate.entries, p);
    assert paths[..i + 1] == paths[..i] + [p];
    if !Same(o, n) {
      var operation := Operation(base.rootKey, p, KindOf(o, n), StateOf(o), StateOf(n));
      AppendKeepsOrder(base, candidate, paths, i, ops, operation);
      ops' := ops + [operation];
    }
  }

  lemma EntriesThenRoot(base: Manifest, candidate: Manifest, paths: seq<Path>, ops: seq<Operation>)
    requires StrictlyIncreasing(ops)
    requires forall p :: p in paths <==> p in base.entries || p in candidate.entries
    requires forall p :: p in paths ==> ValidPath(p)
    requires forall k :: 0 <= k < |ops| ==>
               ComesFrom(base, candidate, ops[k], paths)
               || (RootTouched(base, candidate) && ops[k] == OperationAt(base, candidate, []))
    requires forall p :: p in paths && Touched(base.entries, candidate.entries, p) ==> Names(ops, p)
    requires RootTouched(base, candidate) ==> Names(ops, [])
    ensures IsDelta(base, candidate, ops)
  {
    forall p | Differs(base, candidate, p) ensures Names(ops, p) {
      if p != [] {
        assert p in paths;
      }
    }
  }

  ghost predicate ComesFrom(base: Manifest, candidate: Manifest, operation: Operation, paths: seq<Path>) {
    && operation.path in paths && ValidPath(operation.path)
    && Touched(base.entries, candidate.entries, operation.path)
    && operation == OperationAt(base, candidate, operation.path)
  }

  lemma AppendKeepsOrder(base: Manifest, candidate: Manifest, paths: seq<Path>, i: nat,
                         ops: seq<Operation>, operation: Operation)
    requires i < |paths| && operation.path == paths[i] && operation.rootKey == base.rootKey
    requires forall i, j :: 0 <= i < j < |paths| ==> Less(Spelled(paths[i]), Spelled(paths[j]))
    requires StrictlyIncreasing(ops)
    requires forall k :: 0 <= k < |ops| ==> ComesFrom(base, candidate, ops[k], paths[..i])
    ensures StrictlyIncreasing(ops + [operation])
    ensures Names(ops + [operation], paths[i])
    ensures forall p :: Names(ops, p) ==> Names(ops + [operation], p)
  {
    var more := ops + [operation];
    forall k | 0 <= k < |ops| ensures KeyLess(ops[k].SortKey(), operation.SortKey()) {
      assert ComesFrom(base, candidate, ops[k], paths[..i]);
      var j :| 0 <= j < i && paths[j] == ops[k].path;
    }
    assert more[|ops|] == operation;
    forall p | Names(ops, p) ensures Names(more, p) {
      var k :| 0 <= k < |ops| && ops[k].path == p;
      assert more[k] == ops[k];
    }
  }

  lemma RootComesFirst(base: Manifest, candidate: Manifest, paths: seq<Path>, ops: seq<Operation>, operation: Operation)
    requires operation.path == [] && operation.rootKey == base.rootKey
    requires StrictlyIncreasing(ops)
    requires forall k :: 0 <= k < |ops| ==> ComesFrom(base, candidate, ops[k], paths)
    ensures StrictlyIncreasing([operation] + ops)
    ensures Names([operation] + ops, [])
    ensures forall p :: Names(ops, p) ==> Names([operation] + ops, p)
  {
    var more := [operation] + ops;
    forall k | 0 <= k < |ops| ensures KeyLess(operation.SortKey(), ops[k].SortKey()) {
      assert ComesFrom(base, candidate, ops[k], paths);
      SpellingIsNotEmpty(ops[k].path);
    }
    forall p | Names(ops, p) ensures Names(more, p) {
      var k :| 0 <= k < |ops| && ops[k].path == p;
      assert more[k + 1] == ops[k];
    }
    assert more[0].path == [];
  }

  lemma DeltaNamesWhatDiffers(base: Manifest, candidate: Manifest, ops: seq<Operation>, p: Path)
    requires IsDelta(base, candidate, ops)
    ensures Names(ops, p) <==> Differs(base, candidate, p)
  {
  }

  /** There is only one delta between two manifests. */
  lemma DeltaIsUnique(base: Manifest, candidate: Manifest, a: seq<Operation>, b: seq<Operation>)
    requires IsDelta(base, candidate, a) && IsDelta(base, candidate, b)
    ensures a == b
  {
    forall p ensures Names(a, p) <==> Names(b, p) {
      DeltaNamesWhatDiffers(base, candidate, a, p);
      DeltaNamesWhatDiffers(base, candidate, b, p);
    }
    IncreasingListsAgree(a, b);
  }

  lemma {:induction false} IncreasingListsAgree(a: seq<Operation>, b: seq<Operation>)
    requires StrictlyIncreasing(a) && StrictlyIncreasing(b)
    requires forall i :: 0 <= i < |a| ==> a[i].rootKey == a[0].rootKey
    requires forall i :: 0 <= i < |b| ==> b[i].rootKey == b[0].rootKey
    requires forall p :: Names(a, p) <==> Names(b, p)
    requires forall i, j :: 0 <= i < |a| && 0 <= j < |b| && a[i].path == b[j].path ==> a[i] == b[j]
    ensures a == b
  {
    if a != [] {
      assert Names(a, a[0].path);
    }
    if b != [] {
      assert Names(b, b[0].path);
    }
    if a != [] && b != [] {
      var j :| 0 <= j < |b| && b[j].path == a[0].path;
      var i :| 0 <= i < |a| && a[i].path == b[0].path;
      KeyOrder(a[0].SortKey(), b[0].SortKey(), a[0].SortKey());
      assert a[0] == b[0];
      TailNames(a);
      TailNames(b);
      IncreasingListsAgree(a[1..], b[1..]);
      assert a == [a[0]] + a[1..] && b == [b[0]] + b[1..];
    }
  }

  lemma TailNames(ops: seq<Operation>)
    requires ops != [] && StrictlyIncreasing(ops)
    requires forall i :: 0 <= i < |ops| ==> ops[i].rootKey == ops[0].rootKey
    ensures forall p :: Names(ops[1..], p) <==> Names(ops, p) && p != ops[0].path
  {
    forall p ensures Names(ops[1..], p) <==> Names(ops, p) && p != ops[0].path {
      if Names(ops[1..], p) {
        var i :| 0 <= i < |ops| - 1 && ops[1..][i].path == p;
        assert ops[i + 1].path == p;
        KeyOrder(ops[0].SortKey(), ops[0].SortKey(), ops[0].SortKey());
        assert KeyLess(ops[0].SortKey(), ops[i + 1].SortKey());
      }
      if Names(ops, p) && p != ops[0].path {
        var i :| 0 <= i < |ops| && ops[i].path == p;
        assert ops[1..][i - 1].path == p;
      }
    }
  }

  /** A delta with its base determines the candidate: two candidates with the same delta from one
      base are the same tree up to directory mtimes. */
  lemma DeltaDeterminesCandidate(base: Manifest, c: Manifest, d: Manifest, ops: seq<Operation>)
    requires IsDelta(base, c, ops) && IsDelta(base, d, ops)
    ensures forall p :: p != [] ==> Same(Lookup(c.entries, p), Lookup(d.entries, p))
    ensures SameRoot(c.root, d.root)
  {
    forall p | p != []
      ensures Same(Lookup(c.entries, p), Lookup(d.entries, p))
    {
      DeltaNamesWhatDiffers(base, c, ops, p);
      DeltaNamesWhatDiffers(base, d, ops, p);
      if Names(ops, p) {
        var i :| 0 <= i < |ops| && ops[i].path == p;
        assert ops[i] == OperationAt(base, c, p) && ops[i] == OperationAt(base, d, p);
      }
    }
    DeltaNamesWhatDiffers(base, c, ops, []);
    DeltaNamesWhatDiffers(base, d, ops, []);
    if Names(ops, []) {
      var i :| 0 <= i < |ops| && ops[i].path == [];
      assert ops[i] == OperationAt(base, c, []) && ops[i] == OperationAt(base, d, []);
    }
  }

  // ----- several roots

  ghost predicate IsDeltaOfAll(base: map<string, Manifest>, candidate: map<string, Manifest>, ops: seq<Operation>) {
    && base.Keys == candidate.Keys
    && CoversRoots(base, candidate, base.Keys, ops)
  }

  ghost predicate NamesIn(ops: seq<Operation>, key: string, p: Path) {
    exists i :: 0 <= i < |ops| && ops[i].rootKey == key && ops[i].path == p
  }

  /** The operations of the roots in `roots`, in order, and nothing else. */
  ghost predicate CoversRoots(base: map<string, Manifest>, candidate: map<string, Manifest>,
                              roots: set<string>, ops: seq<Operation>)
    requires roots <= base.Keys && base.Keys == candidate.Keys
  {
    && StrictlyIncreasing(ops)
    && (forall i :: 0 <= i < |ops| ==>
          && ops[i].rootKey in roots
          && Differs(base[ops[i].rootKey], candidate[ops[i].rootKey], ops[i].path)
          && ops[i] == OperationAt(base[ops[i].rootKey], candidate[ops[i].rootKey], ops[i].path))
    && (forall k, p :: k in roots && Differs(base[k], candidate[k], p) ==> NamesIn(ops, k, p))
  }

  lemma AppendRoot(base: map<string, Manifest>, candidate: map<string, Manifest>,
                   roots: set<string>, ops: seq<Operation>, key: string, added: seq<Operation>)
    requires roots <= base.Keys && base.Keys == candidate.Keys && key in base.Keys && base[key].rootKey == key
    requires forall k :: k in roots ==> Less(k, key)
    requires CoversRoots(base, candidate, roots, ops) && IsDelta(base[key], candidate[key], added)
    ensures CoversRoots(base, candidate, roots + {key}, ops + added)
  {
    var all := ops + added;
    forall i | 0 <= i < |added| ensures added[i].rootKey == key {
      assert added[i] == OperationAt(base[key], candidate[key], added[i].path);
    }
    forall k, p | k in roots + {key} && Differs(base[k], candidate[k], p) ensures NamesIn(all, k, p) {
      if k in roots {
        assert NamesIn(ops, k, p);
        var i :| 0 <= i < |ops| && ops[i].rootKey == k && ops[i].path == p;
        assert all[i] == ops[i];
      } else {
        assert Names(added, p);
        var i :| 0 <= i < |added| && added[i].path == p;
        assert all[|ops| + i] == added[i];
      }
    }
  }

  method LeastKey(keys: set<string>) returns (least: string)
    requires keys != {}
    ensures least in keys && forall k :: k in keys && k != least ==> Less(least, k)
  {
    least :| least in keys;
    var rest := keys - {least};
    while rest != {}
      invariant rest <= keys && least in keys && least !in rest
      invariant forall k :: k in keys && k !in rest && k != least ==> Less(least, k)
      decreases |rest|
    {
      var k :| k in rest;
      LessTotal(k, least);
      if Less(k, least) {
        forall l | l in keys && l !in rest && l != least ensures Less(k, l) {
          LessTransitive(k, least, l);
        }
        least := k;
      }
      rest := rest - {k};
    }
  }

  lemma OneLess(all: set<string>, rest: set<string>, key: string)
    requires rest <= all && key in rest
    ensures all - (rest - {key}) == (all - rest) + {key}
  {
  }

  /** `Delta.compute_all`: the roots' deltas in root order are one delta, already sorted. */
  method ComputeAll(base: map<string, Manifest>, candidate: map<string, Manifest>)
    returns (r: Result<seq<Operation>>)
    requires forall k :: k in base ==> base[k].rootKey == k && ValidPaths(base[k].entries)
    requires forall k :: k in candidate ==> candidate[k].rootKey == k && ValidPaths(candidate[k].entries)
    ensures base.Keys != candidate.Keys ==> r == Refused("ROOT_SET_MISMATCH")
    ensures base.Keys == candidate.Keys ==> r.Ok? && IsDeltaOfAll(base, candidate, r.value)
  {
    if base.Keys != candidate.Keys {
      return Refused("ROOT_SET_MISMATCH");
    }
    var rest := base.Keys;
    var ops: seq<Operation> := [];
    while rest != {}
      invariant rest <= base.Keys
      invariant CoversRoots(base, candidate, base.Keys - rest, ops)
      invariant forall k, l :: k in base && k !in rest && l in rest ==> Less(k, l)
      decreases |rest|
    {
      var key := LeastKey(rest);
      var result := Compute(base[key], candidate[key]);
      AppendRoot(base, candidate, base.Keys - rest, ops, key, result.value);
      OneLess(base.Keys, rest, key);
      ops := ops + result.value;
      rest := rest - {key};
    }
    var ok := ValidateOperations(ops);
    if !ok {
      return Refused("INVALID_DELTA");
    }
    return Ok(ops);
  }

  // ----- the three-way merge

  datatype Side = FromCurrent | FromCandidate

  datatype Staged = Staged(entries: Entries, sources: map<Path, Side>, root: Metadata)

  datatype MergeOutcome =
    | Conflicts(paths: seq<Path>)
    | Unopposed(staged: Staged, applied: seq<Operation>)

  ghost predicate IsStaged(base: Manifest, current: Manifest, candidate: Manifest, staged: Staged) {
    && staged.entries == MergedEntries(base.entries, current.entries, candidate.entries)
    && staged.root == Merged(base, current, candidate).root
    && staged.sources.Keys == staged.entries.Keys
    && forall p :: p in staged.sources ==>
         staged.sources[p] == if Touched(base.entries, candidate.entries, p) then FromCandidate else FromCurrent
  }

  /** Both sides changed what is at the path. */
  ghost predicate BothChanged(base: Manifest, current: Manifest, candidate: Manifest, p: Path) {
    StateIn(base, p) != StateIn(current, p) && StateIn(base, p) != StateIn(candidate, p)
  }

  /** What the candidate changed is the candidate's, and everything else current's. */
  ghost predicate FromTheChanged(base: Manifest, current: Manifest, candidate: Manifest, entries: Entries, root: Metadata) {
    && (forall p :: p != [] ==>
          Lookup(entries, p) == Lookup((if StateIn(base, p) != StateIn(candidate, p) then candidate else current).entries, p))
    && root == (if StateIn(base, []) != StateIn(candidate, []) then candidate else current).root
  }

  /** `Delta.merge` up to the staging: the conflicting paths in order, or the entries to stage with
      the tree each is copied from. */
  method MergeEntries(base: Manifest, current: Manifest, candidate: Manifest) returns (r: Result<MergeOutcome>)
    requires ValidPaths(base.entries) && ValidPaths(current.entries) && ValidPaths(candidate.entries)
    ensures !(base.rootKey == current.rootKey == candidate.rootKey) ==> r == Refused("ROOT_SET_MISMATCH")
    ensures base.rootKey == current.rootKey == candidate.rootKey ==> r.Ok?
    ensures r.Ok? ==> (r.value.Unopposed? <==> ConflictFree(base, current, candidate))
    ensures r.Ok? && r.value.Unopposed? ==>
              IsStaged(base, current, candidate, r.value.staged) && IsDelta(base, candidate, r.value.applied)
    ensures r.Ok? && r.value.Conflicts? ==>
              && r.value.paths != []
              && InByteOrder(r.value.paths)
              && forall p :: p in r.value.paths <==> BothChanged(base, current, candidate, p)
    ensures r.Ok? && r.value.Unopposed? ==>
              && (forall p :: !BothChanged(base, current, candidate, p))
              && FromTheChanged(base, current, candidate, r.value.staged.entries, r.value.staged.root)
              && forall p :: p in r.value.staged.sources ==>
                   (r.value.staged.sources[p] == FromCandidate <==> StateIn(base, p) != StateIn(candidate, p))
  {
    if !(base.rootKey == current.rootKey == candidate.rootKey) {
      return Refused("ROOT_SET_MISMATCH");
    }
    var delta := Compute(base, candidate);
    var conflicts, touched, rootFromCandidate := FindConflicts(base, current, candidate, delta.value);
    ConflictsAreStates(base, current, candidate);
    if conflicts != [] {
      assert BothChanged(base, current, candidate, conflicts[0]);
      return Ok(Conflicts(conflicts));
    }
    assert forall p :: !BothChanged(base, current, candidate, p);
    var staged := Stage(base, current, candidate, touched, rootFromCandidate);
    StagedStates(base, current, candidate, staged);
    return Ok(Unopposed(staged, delta.value));
  }

  /** The loop over the delta: what current changed too is a conflict, the rest is to be staged. */
  method FindConflicts(base: Manifest, current: Manifest, candidate: Manifest, ops: seq<Operation>)
      returns (conflicts: seq<Path>, touched: set<Path>, rootFromCandidate: bool)
    requires ValidPaths(base.entries) && ValidPaths(current.entries) && ValidPaths(candidate.entries)
    requires IsDelta(base, candidate, ops)
    ensures forall p :: p in conflicts <==> BothChanged(base, current, candidate, p)
    ensures InByteOrder(conflicts)
    ensures forall p :: p in touched <==> Touched(base.entries, candidate.entries, p)
    ensures rootFromCandidate <==> RootTouched(base, candidate) && !RootTouched(base, current)
  {
    conflicts, touched, rootFromCandidate := [], {}, false;
    for i := 0 to |ops|
      invariant forall p :: p in touched <==> p != [] && Names(ops[..i], p)
      invariant rootFromCandidate <==> Names(ops[..i], []) && !RootTouched(base, current)
      invariant forall p :: p in conflicts <==> Names(ops[..i], p) && Differs(base, current, p)
      invariant InByteOrder(conflicts)
    {
      var p := ops[i].path;
      NamesSnoc(ops, i);
      EarlierIsLess(base, candidate, ops, i);
      if p == [] {
        if !SameRoot(base.root, current.root) {
          conflicts := conflicts + [p];
        } else {
          rootFromCandidate := true;
        }
      } else {
        touched := touched + {p};
        if !Same(Lookup(base.entries, p), Lookup(current.entries, p)) {
          conflicts := conflicts + [p];
        }
      }
    }
    assert ops[..|ops|] == ops;
    NoEmptyPath(base, current, candidate);
    forall p ensures Names(ops, p) <==> Differs(base, candidate, p) {
      DeltaNamesWhatDiffers(base, candidate, ops, p);
    }
  }

  ghost predicate InByteOrder(paths: seq<Path>) {
    forall i, j :: 0 <= i < j < |paths| ==> Less(Spelled(paths[i]), Spelled(paths[j]))
  }

  lemma EarlierIsLess(base: Manifest, candidate: Manifest, ops: seq<Operation>, i: nat)
    requires IsDelta(base, candidate, ops) && i < |ops|
    ensures forall p :: Names(ops[..i], p) ==> Less(Spelled(p), Spelled(ops[i].path))
  {
    forall p | Names(ops[..i], p) ensures Less(Spelled(p), Spelled(ops[i].path)) {
      var k :| 0 <= k < i && ops[..i][k].path == p;
      assert KeyLess(ops[k].SortKey(), ops[i].SortKey());
      LessIrreflexive(base.rootKey);
    }
  }

  lemma ConflictsAreStates(base: Manifest, current: Manifest, candidate: Manifest)
    requires ValidPaths(base.entries) && ValidPaths(current.entries) && ValidPaths(candidate.entries)
    ensures forall p :: BothChanged(base, current, candidate, p) <==>
                        if p == [] then RootConflict(base, current, candidate)
                        else ConflictAt(base.entries, current.entries, candidate.entries, p)
    ensures ConflictFree(base, current, candidate) <==> forall p :: !BothChanged(base, current, candidate, p)
  {
    NoEmptyPath(base, current, candidate);
    var root: Path := [];
    assert BothChanged(base, current, candidate, root) <==> RootConflict(base, current, candidate);
    forall p | p != []
      ensures BothChanged(base, current, candidate, p)
              <==> ConflictAt(base.entries, current.entries, candidate.entries, p)
    {
    }
  }

  lemma StagedStates(base: Manifest, current: Manifest, candidate: Manifest, staged: Staged)
    requires ValidPaths(base.entries) && ValidPaths(current.entries) && ValidPaths(candidate.entries)
    requires IsStaged(base, current, candidate, staged)
    ensures FromTheChanged(base, current, candidate, staged.entries, staged.root)
    ensures forall p :: p in staged.sources ==>
              (staged.sources[p] == FromCandidate <==> StateIn(base, p) != StateIn(candidate, p))
  {
    assert [] !in current.entries && [] !in candidate.entries;
    forall p | p != []
      ensures Lookup(staged.entries, p)
              == Lookup((if StateIn(base, p) != StateIn(candidate, p) then candidate else current).entries, p)
    {
    }
    forall p | p in staged.sources
      ensures staged.sources[p] == FromCandidate <==> StateIn(base, p) != StateIn(candidate, p)
    {
      assert p != [];
    }
  }

  lemma NamesSnoc(ops: seq<Operation>, i: nat)
    requires i < |ops|
    ensures forall p :: Names(ops[..i + 1], p) <==> Names(ops[..i], p) || p == ops[i].path
  {
    forall p ensures Names(ops[..i + 1], p) <==> Names(ops[..i], p) || p == ops[i].path {
      if Names(ops[..i], p) {
        var k :| 0 <= k < i && ops[..i][k].path == p;
        assert ops[..i + 1][k].path == p;
      }
      if Names(ops[..i + 1], p) && p != ops[i].path {
        var k :| 0 <= k < i + 1 && ops[..i + 1][k].path == p;
        assert ops[..i][k].path == p;
      }
      assert ops[..i + 1][i] == ops[i];
    }
  }

  lemma NoEmptyPath(base: Manifest, current: Manifest, candidate: Manifest)
    requires ValidPaths(base.entries) && ValidPaths(current.entries) && ValidPaths(candidate.entries)
    ensures !Touched(base.entries, candidate.entries, []) && !Touched(base.entries, current.entries, [])
  {
    assert [] !in base.entries && [] !in current.entries && [] !in candidate.entries;
  }

  method Stage(base: Manifest, current: Manifest, candidate: Manifest, touched: set<Path>, rootFromCandidate: bool)
    returns (staged: Staged)
    requires forall p :: p in touched <==> Touched(base.entries, candidate.entries, p)
    requires rootFromCandidate <==> RootTouched(base, candidate)
    ensures IsStaged(base, current, candidate, staged)
  {
    var entries := current.entries;
    var sources: map<Path, Side> := map p | p in entries :: FromCurrent;
    var rest := touched;
    ghost var done: set<Path> := {};
    while rest != {}
      invariant rest <= touched && done == touched - rest
      invariant PartlyStaged(current.entries, candidate.entries, done, entries, sources)
      decreases |rest|
    {
      var p :| p in rest;
      entries, sources := StagePath(current.entries, candidate.entries, done, entries, sources, p);
      rest := rest - {p};
      done := done + {p};
    }
    var root := if rootFromCandidate then candidate.root else current.root;
    StagedWhole(base, current, candidate, touched, Staged(entries, sources, root));
    return Staged(entries, sources, root);
  }

  lemma StagedWhole(base: Manifest, current: Manifest, candidate: Manifest, touched: set<Path>, staged: Staged)
    requires forall p :: p in touched <==> Touched(base.entries, candidate.entries, p)
    requires staged.root == if RootTouched(base, candidate) then candidate.root else current.root
    requires PartlyStaged(current.entries, candidate.entries, touched, staged.entries, staged.sources)
    ensures IsStaged(base, current, candidate, staged)
  {
    var merged := MergedEntries(base.entries, current.entries, candidate.entries);
    forall p ensures Lookup(staged.entries, p) == Lookup(merged, p) {
      assert p in touched <==> Touched(base.entries, candidate.entries, p);
    }
    EqualLookups(staged.entries, merged);
  }

  ghost predicate PartlyStaged(current: Entries, candidate: Entries, done: set<Path>,
                               entries: Entries, sources: map<Path, Side>) {
    && (forall p :: Lookup(entries, p) == Lookup(if p in done then candidate else current, p))
    && sources.Keys == entries.Keys
    && forall p :: p in sources ==> sources[p] == if p in done then FromCandidate else FromCurrent
  }

  /** One touched path: dropped, or taken from the candidate. */
  method StagePath(current: Entries, candidate: Entries, ghost done: set<Path>,
                   entries: Entries, sources: map<Path, Side>, p: Path)
    returns (entries': Entries, sources': map<Path, Side>)
    requires PartlyStaged(current, candidate, done, entries, sources)
    ensures PartlyStaged(current, candidate, done + {p}, entries', sources')
  {
    StepStage(current, candidate, done, entries, sources, p);
    if p !in candidate {
      return entries - {p}, sources - {p};
    } else {
      return entries[p := candidate[p]], sources[p := FromCandidate];
    }
  }

  lemma StepStage(current: Entries, candidate: Entries, done: set<Path>,
                  entries: Entries, sources: map<Path, Side>, p: Path)
    requires PartlyStaged(current, candidate, done, entries, sources)
    ensures p in candidate ==>
              PartlyStaged(current, candidate, done + {p}, entries[p := candidate[p]], sources[p := FromCandidate])
    ensures p !in candidate ==>
              PartlyStaged(current, candidate, done + {p}, entries - {p}, sources - {p})
  {
    var after := if p in candidate then entries[p := candidate[p]] else entries - {p};
    forall q ensures Lookup(after, q) == Lookup(if q in done + {p} then candidate else current, q) {
      assert Lookup(entries, q) == Lookup(if q in done then candidate else current, q);
    }
  }

  /** What the staged tree copies as one hard-linked file comes from one tree, so the mixed-group
      refusal of the materializer cannot be reached. */
  lemma StagedGroupsAreUnmixed(base: Manifest, current: Manifest, candidate: Manifest, staged: Staged, p: Path, q: Path)
    requires GroupsWellFormed(base.entries) && GroupsWellFormed(current.entries)
    requires GroupsWellFormed(candidate.entries)
    requires ConflictFree(base, current, candidate) && IsStaged(base, current, candidate, staged)
    requires p in staged.entries && q in staged.entries
    requires staged.entries[p].File? && staged.entries[p].group.Some?
    requires staged.entries[q].File? && staged.entries[q].group == staged.entries[p].group
    ensures staged.sources[p] == staged.sources[q]
  {
    HardLinksSurviveMerge(base, current, candidate);
    assert GroupAt(staged.entries, q);
    GroupFromOneSide(base, current, candidate, p);
  }
}
