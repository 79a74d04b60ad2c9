/** Owner access granted over a tree without following a link, through descriptors that all get closed. */
module FsTree {
  import opened Wrappers

  // ----- the tree

  datatype Node = Directory(id: nat, entries: Entries) | Link(target: string) | File

  datatype Entries = NoEntries | Entry(name: string, node: Node, rest: Entries)

  function Names(entries: Entries): set<string> {
    match entries
    case NoEntries => {}
    case Entry(name, _, rest) => {name} + Names(rest)
  }

  /** No directory holds a name twice. */
  ghost predicate NodeOk(node: Node) {
    node.Directory? ==> EntriesOk(node.entries)
  }

  ghost predicate EntriesOk(entries: Entries) {
    entries.Entry? ==> entries.name !in Names(entries.rest) && NodeOk(entries.node) && EntriesOk(entries.rest)
  }

  function Lookup(entries: Entries, name: string): Option<Node> {
    match entries
    case NoEntries => None
    case Entry(n, node, rest) => if n == name then Some(node) else Lookup(rest, name)
  }

  /** The names of the entries that are directories themselves, not links. */
  function Subdirectories(entries: Entries): (names: seq<string>)
    ensures forall i :: 0 <= i < |names| ==> names[i] in Names(entries)
  {
    match entries
    case NoEntries => []
    case Entry(name, node, rest) => (if node.Directory? then [name] else []) + Subdirectories(rest)
  }

  /** The directories reached through directories only. */
  function Directories(node: Node): set<nat> {
    if node.Directory? then {node.id} + Below(node.entries) else {}
  }

  function Below(entries: Entries): set<nat> {
    match entries
    case NoEntries => {}
    case Entry(_, node, rest) => Directories(node) + Below(rest)
  }

  /** Resolving a path from a node, a link anywhere ending it. */
  function Resolve(node: Node, path: seq<string>): Option<Node>
    decreases |path|
  {
    if path == [] then Some(node)
    else if !node.Directory? then None
    else
      match Lookup(node.entries, path[0])
      case None => None
      case Some(child) => Resolve(child, path[1..])
  }

  ghost predicate ReachedBy(node: Node, path: seq<string>, id: nat) {
    Resolve(node, path).Some? && Resolve(node, path).value.Directory? && Resolve(node, path).value.id == id
  }

  lemma {:induction false} LookupNames(entries: Entries, name: string)
    ensures Lookup(entries, name).Some? <==> name in Names(entries)
  {
    if entries.Entry? { LookupNames(entries.rest, name); }
  }

  /** `Directories` is what paths without a link reach, and nothing more. */
  lemma {:induction false} DirectoriesAreReached(node: Node, id: nat)
    requires NodeOk(node)
    ensures id in Directories(node) <==> exists path :: ReachedBy(node, path, id)
  {
    if id in Directories(node) {
      var path := PathTo(node, id);
    } else {
      forall path ensures !ReachedBy(node, path, id) {
        if ReachedBy(node, path, id) { ReachedIsDirectory(node, path, id); }
      }
    }
  }

  lemma {:induction false} PathTo(node: Node, id: nat) returns (path: seq<string>)
    requires NodeOk(node) && id in Directories(node)
    ensures ReachedBy(node, path, id)
    decreases node
  {
    if node.id == id {
      return [];
    }
    var name, rest := PathBelow(node.entries, id);
    path := [name] + rest;
    assert path[1..] == rest;
  }

  lemma {:induction false} PathBelow(entries: Entries, id: nat) returns (name: string, path: seq<string>)
    requires EntriesOk(entries) && id in Below(entries)
    ensures Lookup(entries, name).Some? && ReachedBy(Lookup(entries, name).value, path, id)
    decreases entries
  {
    if id in Directories(entries.node) {
      path := PathTo(entries.node, id);
      name := entries.name;
    } else {
      name, path := PathBelow(entries.rest, id);
      LookupNames(entries.rest, name);
    }
  }

  lemma {:induction false} ReachedIsDirectory(node: Node, path: seq<string>, id: nat)
    requires ReachedBy(node, path, id)
    ensures id in Directories(node)
    decreases |path|
  {
    if path != [] {
      ReachedIsDirectory(Lookup(node.entries, path[0]).value, path[1..], id);
      LookupIsBelow(node.entries, path[0]);
    }
  }

  lemma {:induction false} LookupIsBelow(entries: Entries, name: string)
    ensures Lookup(entries, name).Some? ==> Directories(Lookup(entries, name).value) <= Below(entries)
    ensures EntriesOk(entries) && Lookup(entries, name).Some? ==> NodeOk(Lookup(entries, name).value)
  {
    if entries.Entry? { LookupIsBelow(entries.rest, name); }
  }

  // ----- work still to do

  function Weight(node: Node): nat {
    if node.Directory? then 1 + WeightBelow(node.entries) else 0
  }

  function WeightBelow(entries: Entries): nat {
    match entries
    case NoEntries => 0
    case Entry(_, node, rest) => (if node.Directory? then 1 + Weight(node) else 0) + WeightBelow(rest)
  }

  /** The directories, and their weight, behind a list of names of a directory. */
  function Pending(entries: Entries, names: seq<string>): set<nat> {
    if names == [] then {}
    else
      var n := |names| - 1;
      Pending(entries, names[..n]) +
      (match Lookup(entries, names[n]) case None => {} case Some(child) => Directories(child))
  }

  function PendingWeight(entries: Entries, names: seq<string>): nat {
    if names == [] then 0
    else
      var n := |names| - 1;
      PendingWeight(entries, names[..n]) + 1 +
      (match Lookup(entries, names[n]) case None => 0 case Some(child) => Weight(child))
  }

  lemma {:induction false} PendingConcat(entries: Entries, a: seq<string>, b: seq<string>)
    ensures Pending(entries, a + b) == Pending(entries, a) + Pending(entries, b)
    ensures PendingWeight(entries, a + b) == PendingWeight(entries, a) + PendingWeight(entries, b)
  {
    if b == [] {
      assert a + b == a;
    } else {
      assert (a + b)[..|a + b| - 1] == a + b[..|b| - 1];
      PendingConcat(entries, a, b[..|b| - 1]);
    }
  }

  lemma {:induction false} PendingSkips(entries: Entries, names: seq<string>)
    requires entries.Entry? && entries.name !in names
    ensures Pending(entries, names) == Pending(entries.rest, names)
    ensures PendingWeight(entries, names) == PendingWeight(entries.rest, names)
  {
    if names != [] { PendingSkips(entries, names[..|names| - 1]); }
  }

  /** A directory's listing leads to all that is below it. */
  lemma {:induction false} ListingIsComplete(entries: Entries)
    requires EntriesOk(entries)
    ensures Pending(entries, Subdirectories(entries)) == Below(entries)
    ensures PendingWeight(entries, Subdirectories(entries)) == WeightBelow(entries)
  {
    if entries.Entry? {
      var first := if entries.node.Directory? then [entries.name] else [];
      ListingIsComplete(entries.rest);
      PendingConcat(entries, first, Subdirectories(entries.rest));
      PendingSkips(entries, Subdirectories(entries.rest));
      FirstPending(entries, first);
    }
  }

  lemma FirstPending(entries: Entries, first: seq<string>)
    requires entries.Entry? && first == if entries.node.Directory? then [entries.name] else []
    ensures Pending(entries, first) == Directories(entries.node)
    ensures PendingWeight(entries, first) == if entries.node.Directory? then 1 + Weight(entries.node) else 0
  {
    if first != [] {
      assert first[..0] == [];
      assert Lookup(entries, first[0]) == Some(entries.node);
    }
  }

  // ----- the kernel's side

  datatype Fault = Fine | Gone | Broken

  datatype Opened = Descriptor(fd: nat) | NotThere | Failed

  const OWNER: bv12 := 0x1C0

  class Kernel {
    const fault: nat -> Fault
    var tick: nat
    var faults: nat
    var modes: map<nat, bv12>
    var table: map<nat, Node>       // the open descriptors
    var next: nat                   // no descriptor is numbered twice

    constructor (modes: map<nat, bv12>, fault: nat -> Fault)
      ensures this.modes == modes && this.fault == fault && table == map[] && Valid()
    {
      this.modes := modes;
      this.fault := fault;
      tick, faults, next := 0, 0, 0;
      table := map[];
    }

    ghost predicate Valid()
      reads this
    {
      forall fd :: fd in table ==> fd < next && table[fd].Directory?
    }

    method Call() returns (f: Fault)
      modifies this`tick, this`faults
      ensures faults == old(faults) + if f == Fine then 0 else 1
    {
      f := fault(tick);
      tick := tick + 1;
      if f != Fine { faults := faults + 1; }
    }

    /** Opening a node as a directory, no link followed. */
    method Open(node: Node) returns (r: Opened)
      requires Valid()
      modifies this`tick, this`faults, this`table, this`next
      ensures Valid() && faults >= old(faults)
      ensures r.Descriptor? ==> r.fd !in old(table) && table == old(table)[r.fd := node] && node.Directory?
      ensures !r.Descriptor? ==> table == old(table) && (node.Directory? ==> faults > old(faults))
      ensures r == Failed ==> faults > old(faults)
    {
      var f := Call();
      if f == Broken { return Failed; }
      if f == Gone || !node.Directory? { return NotThere; }
      r := Descriptor(next);
      table := table[next := node];
      next := next + 1;
    }

    /** A descriptor can be closed only while it is open. */
    method Close(fd: nat)
      requires Valid() && fd in table
      modifies this`table
      ensures Valid() && table == old(table) - {fd}
    {
      table := table - {fd};
    }

    /** fstat, and chmod through the descriptor when the owner lacks something. */
    method GrantOwner(id: nat, ghost modes0: map<nat, bv12>, ghost granted: set<nat>, ghost root: Node)
        returns (ok: bool, ghost after: set<nat>)
      requires id in modes && Granting(modes0, modes, granted, root) && id in Directories(root)
      modifies this`tick, this`faults, this`modes
      ensures modes.Keys == old(modes).Keys && Granting(modes0, modes, after, root)
      ensures faults >= old(faults) && (!ok ==> faults > old(faults))
      ensures ok ==> after == granted + {id}
    {
      var f := Call();
      if f != Fine { return false, granted; }
      if modes[id] & OWNER == OWNER {
        GrantHad(modes0, modes, granted, id);
        return true, granted + {id};
      }
      f := Call();
      if f != Fine { return false, granted; }
      GrantMore(modes0, modes, granted, id);
      modes := modes[id := modes[id] | OWNER];
      return true, granted + {id};
    }

    /** The listing, through a descriptor of its own that is closed whether or not the scan fails. */
    method List(node: Node) returns (names: Option<seq<string>>)
      requires Valid() && node.Directory?
      modifies this`tick, this`faults, this`table, this`next
      ensures Valid() && table == old(table)
      ensures names.Some? ==> names.value == Subdirectories(node.entries)
      ensures faults >= old(faults) && (names.None? ==> faults > old(faults))
    {
      var listing := Open(node);
      if !listing.Descriptor? { return None; }
      var f := Call();
      names := if f == Fine then Some(Subdirectories(node.entries)) else None;
      Close(listing.fd);
    }

    /** `_owner_accessible_children`: owner access, and then the listing. */
    method OwnerAccessibleChildren(fd: nat, ghost modes0: map<nat, bv12>, ghost granted: set<nat>, ghost root: Node)
        returns (names: Option<seq<string>>, ghost after: set<nat>)
      requires Valid() && fd in table && table[fd].id in modes
      requires Granting(modes0, modes, granted, root) && table[fd].id in Directories(root)
      modifies this
      ensures Valid() && table == old(table) && faults >= old(faults) && modes.Keys == old(modes).Keys
      ensures Granting(modes0, modes, after, root)
      ensures names.Some? ==> names.value == Subdirectories(table[fd].entries) && after == granted + {table[fd].id}
      ensures names.None? ==> faults > old(faults)
    {
      var ok;
      ok, after := GrantOwner(table[fd].id, modes0, granted, root);
      if !ok { return None, after; }
      names := List(table[fd]);
    }

    /** The `finally` of the walk. */
    method CloseAll(stack: seq<Frame>, ghost before: map<nat, Node>, ghost top: Node)
      requires Valid() && StackOk(before, table, stack, top)
      modifies this`table
      ensures table == before
    {
      for i := 0 to |stack|
        invariant Valid() && StackOk(before, table, stack[i..], top)
      {
        NextClosed(before, table, stack, i, top);
        Close(stack[i].fd);
      }
      assert stack[|stack|..] == [];
    }

    /** One name of the top frame, opened and pushed, or skipped, or the end of the walk. */
    method Descend(stack: seq<Frame>, found: Node, ghost before: map<nat, Node>, ghost modes0: map<nat, bv12>,
                   ghost root: Node, ghost granted: set<nat>, ghost faults0: nat)
        returns (next: Option<seq<Frame>>, ghost after: set<nat>)
      requires Valid() && faults >= faults0 && NodeOk(found) && Directories(found) <= Directories(root)
      requires Walking(before, modes0, table, modes, stack, root, granted, Directories(found), faults == faults0)
      modifies this
      ensures faults >= faults0
      ensures next.Some? ==> Valid() && Walking(before, modes0, table, modes, next.value, root, after, {}, faults == faults0)
      ensures next.Some? ==> StackWeight(table, next.value) <= StackWeight(old(table), stack) + Weight(found)
      ensures next.None? ==> table == before && Granting(modes0, modes, after, root) && faults > faults0
    {
      after := granted;
      var child := Open(found);
      if child == NotThere {
        return Some(stack), granted;
      }
      if child == Failed {
        CloseAll(stack, before, root);
        return None, granted;
      }
      var children;
      children, after := OwnerAccessibleChildren(child.fd, modes0, granted, root);
      if children.None? {
        AddedAndRemoved(old(table), child.fd, found);
        Close(child.fd);
        CloseAll(stack, before, root);
        return None, after;
      }
      WalkPush(before, modes0, old(table), modes, stack, root, granted, child.fd, found, faults == faults0);
      return Some(stack + [Frame(child.fd, children.value)]), after;
    }

    /** `grant_owner_access`. Every descriptor it opens is closed, on success and on any error; only
        directories reached without a link have their mode changed, and only by owner access; and when
        no call fails all of them have it. */
    method GrantOwnerAccess(root: Node) returns (ok: bool, ghost granted: set<nat>)
      requires Valid() && NodeOk(root) && Directories(root) <= modes.Keys
      modifies this
      ensures table == old(table)
      ensures Granting(old(modes), modes, granted, root)
      ensures !root.Directory? ==> !ok && modes == old(modes)
      ensures ok && faults == old(faults) ==> GrantedOn(old(modes), modes, Directories(root))
      ensures root.Directory? && faults == old(faults) ==> ok
    {
      ghost var before, modes0, faults0 := table, modes, faults;
      var stack;
      stack, granted := Start(root);
      if stack.None? {
        return false, granted;
      }
      ok, granted := Walk(stack.value, before, modes0, root, granted, faults0);
    }

    /** The root, opened; closed again when it cannot be listed. */
    method Start(root: Node) returns (stack: Option<seq<Frame>>, ghost granted: set<nat>)
      requires Valid() && NodeOk(root) && Directories(root) <= modes.Keys
      modifies this
      ensures faults >= old(faults)
      ensures stack.Some? ==> Valid() && root.Directory?
      ensures stack.Some? ==>
                Walking(old(table), old(modes), table, modes, stack.value, root, granted, {}, faults == old(faults))
      ensures stack.None? ==> table == old(table) && Granting(old(modes), modes, granted, root)
      ensures stack.None? ==> (root.Directory? ==> faults > old(faults)) && (!root.Directory? ==> modes == old(modes))
    {
      var top := Open(root);
      if !top.Descriptor? {
        return None, {};
      }
      var names;
      names, granted := OwnerAccessibleChildren(top.fd, old(modes), {}, root);
      if names.None? {
        Close(top.fd);
        assert table == old(table);
        return None, granted;
      }
      assert granted == {root.id};
      WalkStart(old(table), old(modes), modes, root, top.fd);
      return Some([Frame(top.fd, names.value)]), {root.id};
    }

    /** The top frame closed, if its names are done, or its next name taken. */
    method Advance(stack: seq<Frame>, ghost before: map<nat, Node>, ghost modes0: map<nat, bv12>, ghost root: Node,
                   ghost granted: set<nat>, ghost faults0: nat) returns (next: Option<seq<Frame>>, ghost after: set<nat>)
      requires Valid() && faults >= faults0 && stack != []
      requires Walking(before, modes0, table, modes, stack, root, granted, {}, faults == faults0)
      modifies this
      ensures faults >= faults0
      ensures next.Some? ==> Valid() && Walking(before, modes0, table, modes, next.value, root, after, {}, faults == faults0)
      ensures next.Some? ==> StackWeight(table, next.value) < StackWeight(old(table), stack)
      ensures next.None? ==> table == before && Granting(modes0, modes, after, root) && faults > faults0
    {
      var rest, frame := stack[..|stack| - 1], stack[|stack| - 1];
      assert stack == rest + [frame];
      if frame.names == [] {
        WalkPop(before, modes0, table, modes, rest, frame, root, granted, faults == faults0);
        Close(frame.fd);
        return Some(rest), granted;
      }
      var name, less := frame.names[|frame.names| - 1], frame.names[..|frame.names| - 1];
      assert frame == Frame(frame.fd, less + [name]);
      WalkTake(before, modes0, table, modes, rest, frame.fd, less, name, root, granted, faults == faults0);
      var found := Lookup(table[frame.fd].entries, name);
      var left := rest + [Frame(frame.fd, less)];
      if found.None? {
        return Some(left), granted;
      }
      next, after := Descend(left, found.value, before, modes0, root, granted, faults0);
    }

    method Walk(start: seq<Frame>, ghost before: map<nat, Node>, ghost modes0: map<nat, bv12>, ghost root: Node,
                ghost granted0: set<nat>, ghost faults0: nat) returns (ok: bool, ghost granted: set<nat>)
      requires Valid() && faults >= faults0
      requires Walking(before, modes0, table, modes, start, root, granted0, {}, faults == faults0)
      modifies this
      ensures table == before && faults >= faults0 && Granting(modes0, modes, granted, root)
      ensures !ok ==> faults > faults0
      ensures ok && faults == faults0 ==> granted == Directories(root)
    {
      var stack := start;
      granted := granted0;
      while stack != []
        invariant Valid() && faults >= faults0
        invariant Walking(before, modes0, table, modes, stack, root, granted, {}, faults == faults0)
        decreases StackWeight(table, stack)
      {
        var next;
        next, granted := Advance(stack, before, modes0, root, granted, faults0);
        if next.None? {
          return false, granted;
        }
        stack := next.value;
      }
      WalkDone(before, modes0, table, modes, stack, root, granted, faults == faults0);
      return true, granted;
    }
  }

  lemma AddedAndRemoved(table: map<nat, Node>, fd: nat, node: Node)
    requires fd !in table
    ensures table[fd := node] - {fd} == table
  {
  }

  lemma WalkDone(before: map<nat, Node>, modes0: map<nat, bv12>, table: map<nat, Node>, modes: map<nat, bv12>,
                 stack: seq<Frame>, root: Node, granted: set<nat>, clean: bool)
    requires Walking(before, modes0, table, modes, stack, root, granted, {}, clean) && stack == []
    ensures table == before && (clean ==> granted == Directories(root))
  {
    assert Fds(stack) == {};
  }

  /** Owner access was added to directories of the tree, and nothing else changed. */
  ghost predicate Granting(before: map<nat, bv12>, after: map<nat, bv12>, granted: set<nat>, root: Node) {
    GrantedOn(before, after, granted) && granted <= Directories(root)
  }

  /** The walk so far: what was granted lies in the tree, and, if nothing failed, what was not is still
      ahead, behind the stack or in `more`. */
  ghost predicate Walking(before: map<nat, Node>, modes0: map<nat, bv12>, table: map<nat, Node>, modes: map<nat, bv12>,
                          stack: seq<Frame>, root: Node, granted: set<nat>, more: set<nat>, clean: bool)
  {
    && StackOk(before, table, stack, root)
    && Granting(modes0, modes, granted, root) && Directories(root) <= modes.Keys
    && (clean ==> Directories(root) <= granted + StackPending(table, stack) + more)
  }

  lemma HasOwner(mode: bv12)
    ensures mode & OWNER == OWNER ==> mode | OWNER == mode
    ensures (mode | OWNER) & OWNER == OWNER
  {
  }

  // ----- the walk

  datatype Frame = Frame(fd: nat, names: seq<string>)

  /** What the frames of the stack lead to. */
  function StackPending(table: map<nat, Node>, stack: seq<Frame>): set<nat>
    requires forall i :: 0 <= i < |stack| ==> stack[i].fd in table && table[stack[i].fd].Directory?
  {
    if stack == [] then {}
    else
      var top := stack[|stack| - 1];
      StackPending(table, stack[..|stack| - 1]) + Pending(table[top.fd].entries, top.names)
  }

  function StackWeight(table: map<nat, Node>, stack: seq<Frame>): nat
    requires forall i :: 0 <= i < |stack| ==> stack[i].fd in table && table[stack[i].fd].Directory?
  {
    if stack == [] then 0
    else
      var top := stack[|stack| - 1];
      StackWeight(table, stack[..|stack| - 1]) + 1 + PendingWeight(table[top.fd].entries, top.names)
  }

  lemma {:induction false} StackFrame(a: map<nat, Node>, b: map<nat, Node>, stack: seq<Frame>)
    requires forall i :: 0 <= i < |stack| ==>
               && stack[i].fd in a && stack[i].fd in b && a[stack[i].fd] == b[stack[i].fd] && a[stack[i].fd].Directory?
    ensures StackPending(a, stack) == StackPending(b, stack) && StackWeight(a, stack) == StackWeight(b, stack)
  {
    if stack != [] { StackFrame(a, b, stack[..|stack| - 1]); }
  }

  function Fds(stack: seq<Frame>): set<nat> {
    set i | 0 <= i < |stack| :: stack[i].fd
  }

  /** The stack's frames are open descriptors of well-formed directories, each once. */
  ghost predicate StackOk(before: map<nat, Node>, table: map<nat, Node>, stack: seq<Frame>, top: Node) {
    && (forall i, j :: 0 <= i < j < |stack| ==> stack[i].fd != stack[j].fd)
    && (forall i :: 0 <= i < |stack| ==>
          && stack[i].fd !in before && stack[i].fd in table
          && table[stack[i].fd].Directory? && NodeOk(table[stack[i].fd])
          && Directories(table[stack[i].fd]) <= Directories(top))
    && table.Keys == before.Keys + Fds(stack)
    && forall fd :: fd in before ==> table[fd] == before[fd]
  }

  lemma FdsSnoc(rest: seq<Frame>, frame: Frame)
    ensures Fds(rest + [frame]) == Fds(rest) + {frame.fd}
  {
    var more := rest + [frame];
    forall i | 0 <= i < |rest| ensures rest[i].fd in Fds(more) { assert more[i].fd == rest[i].fd; }
    assert more[|rest|].fd == frame.fd;
  }

  lemma StackSnoc(table: map<nat, Node>, rest: seq<Frame>, frame: Frame)
    requires forall i :: 0 <= i < |rest| ==> rest[i].fd in table && table[rest[i].fd].Directory?
    requires frame.fd in table && table[frame.fd].Directory?
    ensures StackPending(table, rest + [frame]) == StackPending(table, rest) + Pending(table[frame.fd].entries, frame.names)
    ensures StackWeight(table, rest + [frame]) == StackWeight(table, rest) + 1 + PendingWeight(table[frame.fd].entries, frame.names)
  {
    assert (rest + [frame])[..|rest|] == rest;
  }

  lemma PushOk(before: map<nat, Node>, table: map<nat, Node>, stack: seq<Frame>, top: Node, fd: nat, node: Node, names: seq<string>)
    requires StackOk(before, table, stack, top) && fd !in table
    requires node.Directory? && NodeOk(node) && Directories(node) <= Directories(top)
    ensures StackOk(before, table[fd := node], stack + [Frame(fd, names)], top)
  {
    FdsSnoc(stack, Frame(fd, names));
  }

  lemma PushedPending(table: map<nat, Node>, stack: seq<Frame>, fd: nat, node: Node)
    requires forall i :: 0 <= i < |stack| ==> stack[i].fd in table && table[stack[i].fd].Directory?
    requires node.Directory? && NodeOk(node) && fd !in table
    ensures var pushed := stack + [Frame(fd, Subdirectories(node.entries))];
            && StackPending(table[fd := node], pushed) == StackPending(table, stack) + Below(node.entries)
            && StackWeight(table[fd := node], pushed) == StackWeight(table, stack) + Weight(node)
  {
    var after := table[fd := node];
    StackFrame(table, after, stack);
    StackSnoc(after, stack, Frame(fd, Subdirectories(node.entries)));
    ListingIsComplete(node.entries);
  }

  lemma PopOk(before: map<nat, Node>, table: map<nat, Node>, rest: seq<Frame>, frame: Frame, top: Node)
    requires StackOk(before, table, rest + [frame], top)
    ensures StackOk(before, table - {frame.fd}, rest, top)
  {
    var stack := rest + [frame];
    FdsSnoc(rest, frame);
    forall i | 0 <= i < |rest| ensures rest[i].fd in table - {frame.fd} && rest[i] == stack[i] {
      assert stack[i].fd != stack[|rest|].fd;
    }
    assert stack[|rest|].fd !in before;
  }

  lemma PoppedPending(before: map<nat, Node>, table: map<nat, Node>, rest: seq<Frame>, frame: Frame, top: Node)
    requires StackOk(before, table, rest + [frame], top) && frame.names == []
    ensures forall i :: 0 <= i < |rest| ==> rest[i].fd in table - {frame.fd} && table[rest[i].fd].Directory?
    ensures StackPending(table - {frame.fd}, rest) == StackPending(table, rest + [frame])
    ensures StackWeight(table - {frame.fd}, rest) < StackWeight(table, rest + [frame])
  {
    var stack := rest + [frame];
    forall i | 0 <= i < |rest|
      ensures rest[i].fd in table - {frame.fd} && table[rest[i].fd].Directory?
    {
      assert stack[i] == rest[i] && stack[i].fd != stack[|rest|].fd;
    }
    assert stack[|rest|] == frame;
    StackFrame(table, table - {frame.fd}, rest);
    StackSnoc(table, rest, frame);
  }

  lemma SameFds(before: map<nat, Node>, table: map<nat, Node>, rest: seq<Frame>, a: Frame, b: Frame, top: Node)
    requires StackOk(before, table, rest + [a], top) && a.fd == b.fd
    ensures StackOk(before, table, rest + [b], top)
  {
    FdsSnoc(rest, a);
    FdsSnoc(rest, b);
    var x, y := rest + [a], rest + [b];
    assert forall i :: 0 <= i < |x| ==> x[i].fd == y[i].fd;
  }

  /** Taking the last name off the top frame. */
  lemma TakeName(table: map<nat, Node>, rest: seq<Frame>, fd: nat, names: seq<string>, name: string)
    requires forall i :: 0 <= i < |rest| ==> rest[i].fd in table && table[rest[i].fd].Directory?
    requires fd in table && table[fd].Directory?
    ensures var child := Lookup(table[fd].entries, name);
            && StackPending(table, rest + [Frame(fd, names + [name])])
               == StackPending(table, rest + [Frame(fd, names)]) + (if child.Some? then Directories(child.value) else {})
            && StackWeight(table, rest + [Frame(fd, names + [name])])
               == StackWeight(table, rest + [Frame(fd, names)]) + 1 + (if child.Some? then Weight(child.value) else 0)
  {
    StackSnoc(table, rest, Frame(fd, names));
    StackSnoc(table, rest, Frame(fd, names + [name]));
    assert (names + [name])[..|names|] == names;
  }

  lemma FdsCons(frame: Frame, rest: seq<Frame>)
    ensures Fds([frame] + rest) == {frame.fd} + Fds(rest)
  {
    var all := [frame] + rest;
    forall i | 0 <= i < |rest| ensures rest[i].fd in Fds(all) { assert all[i + 1].fd == rest[i].fd; }
    assert all[0].fd == frame.fd;
  }

  lemma FirstClosed(before: map<nat, Node>, table: map<nat, Node>, frame: Frame, rest: seq<Frame>, top: Node)
    requires StackOk(before, table, [frame] + rest, top)
    ensures frame.fd in table && StackOk(before, table - {frame.fd}, rest, top)
  {
    var stack := [frame] + rest;
    FdsCons(frame, rest);
    assert stack[0] == frame;
    forall i | 0 <= i < |rest| ensures rest[i] == stack[i + 1] && rest[i].fd != frame.fd {
    }
  }

  lemma NextClosed(before: map<nat, Node>, table: map<nat, Node>, stack: seq<Frame>, i: nat, top: Node)
    requires i < |stack| && StackOk(before, table, stack[i..], top)
    ensures stack[i].fd in table && StackOk(before, table - {stack[i].fd}, stack[i + 1..], top)
  {
    assert stack[i..] == [stack[i]] + stack[i + 1..];
    FirstClosed(before, table, stack[i], stack[i + 1..], top);
  }

  lemma WalkStart(before: map<nat, Node>, modes0: map<nat, bv12>, modes: map<nat, bv12>, root: Node, fd: nat)
    requires root.Directory? && NodeOk(root) && fd !in before && Directories(root) <= modes0.Keys
    requires GrantedOn(modes0, modes, {root.id})
    ensures Walking(before, modes0, before[fd := root], modes, [Frame(fd, Subdirectories(root.entries))], root, {root.id}, {}, true)
  {
    var names := Subdirectories(root.entries);
    assert [] + [Frame(fd, names)] == [Frame(fd, names)];
    assert Fds([]) == {};
    PushOk(before, before, [], root, fd, root, names);
    PushedPending(before, [], fd, root);
  }

  lemma WalkPop(before: map<nat, Node>, modes0: map<nat, bv12>, table: map<nat, Node>, modes: map<nat, bv12>,
                rest: seq<Frame>, frame: Frame, root: Node, granted: set<nat>, clean: bool)
    requires Walking(before, modes0, table, modes, rest + [frame], root, granted, {}, clean) && frame.names == []
    ensures frame.fd in table
    ensures Walking(before, modes0, table - {frame.fd}, modes, rest, root, granted, {}, clean)
    ensures StackWeight(table - {frame.fd}, rest) < StackWeight(table, rest + [frame])
  {
    PopOk(before, table, rest, frame, root);
    PoppedPending(before, table, rest, frame, root);
    assert (rest + [frame])[|rest|] == frame;
  }

  lemma WalkTake(before: map<nat, Node>, modes0: map<nat, bv12>, table: map<nat, Node>, modes: map<nat, bv12>,
                 rest: seq<Frame>, fd: nat, less: seq<string>, name: string, root: Node, granted: set<nat>, clean: bool)
    requires Walking(before, modes0, table, modes, rest + [Frame(fd, less + [name])], root, granted, {}, clean)
    ensures fd in table && table[fd].Directory?
    ensures var found := Lookup(table[fd].entries, name);
            var stack := rest + [Frame(fd, less)];
            && Walking(before, modes0, table, modes, stack, root, granted,
                       if found.Some? then Directories(found.value) else {}, clean)
            && (found.Some? ==> NodeOk(found.value) && Directories(found.value) <= Directories(root))
            && StackWeight(table, stack) + (if found.Some? then Weight(found.value) else 0)
               < StackWeight(table, rest + [Frame(fd, less + [name])])
  {
    var whole := rest + [Frame(fd, less + [name])];
    assert whole[|rest|].fd == fd;
    assert forall i :: 0 <= i < |rest| ==> whole[i] == rest[i];
    SameFds(before, table, rest, Frame(fd, less + [name]), Frame(fd, less), root);
    TakeName(table, rest, fd, less, name);
    LookupIsBelow(table[fd].entries, name);
  }

  lemma WalkPush(before: map<nat, Node>, modes0: map<nat, bv12>, table: map<nat, Node>, modes: map<nat, bv12>,
                 stack: seq<Frame>, root: Node, granted: set<nat>, fd: nat, node: Node, clean: bool)
    requires StackOk(before, table, stack, root) && fd !in table
    requires node.Directory? && NodeOk(node) && Directories(node) <= Directories(root) <= modes.Keys
    requires Granting(modes0, modes, granted + {node.id}, root)
    requires clean ==> Directories(root) <= granted + StackPending(table, stack) + Directories(node)
    ensures var pushed := stack + [Frame(fd, Subdirectories(node.entries))];
            && Walking(before, modes0, table[fd := node], modes, pushed, root, granted + {node.id}, {}, clean)
            && StackWeight(table[fd := node], pushed) == StackWeight(table, stack) + Weight(node)
  {
    PushOk(before, table, stack, root, fd, node, Subdirectories(node.entries));
    PushedPending(table, stack, fd, node);
  }

  /** Modes changed only by owner access, on `granted` directories. */
  ghost predicate GrantedOn(before: map<nat, bv12>, after: map<nat, bv12>, granted: set<nat>) {
    && after.Keys == before.Keys
    && forall id :: id in before ==> after[id] == if id in granted then before[id] | OWNER else before[id]
  }

  lemma GrantMore(before: map<nat, bv12>, after: map<nat, bv12>, granted: set<nat>, id: nat)
    requires GrantedOn(before, after, granted) && id in after
    ensures GrantedOn(before, after[id := after[id] | OWNER], granted + {id})
  {
    HasOwner(after[id]);
  }

  lemma GrantHad(before: map<nat, bv12>, after: map<nat, bv12>, granted: set<nat>, id: nat)
    requires GrantedOn(before, after, granted) && id in after && after[id] & OWNER == OWNER
    ensures GrantedOn(before, after, granted + {id})
  {
    HasOwner(before[id]);
  }
}
