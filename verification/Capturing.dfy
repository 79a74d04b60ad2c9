/** `Manifest.capture`: a walk over real directories that records every entry once and names hard
    links by their members. */
module Capturing {
  import opened Wrappers
  import opened Trees
  import opened Symlinks
  import opened Filesystem

  // ----- what a capture records

  /** An entry before its hard-link group is known. */
  function RawEntry(fs: Fs, p: Path): Entry
    requires Exists(fs, p)
  {
    match NodeAt(fs, p)
    case FileNode(meta, content, _) => File(meta, content, None)
    case DirNode(meta) => Directory(meta)
    case LinkNode(meta, target) => Trees.Symlink(meta, target)
    case SpecialNode(meta) => Directory(meta)  // never recorded: the capture refuses it
  }

  function EntryOf(fs: Fs, p: Path): Entry
    requires Exists(fs, p)
  {
    var members := Members(fs, fs.names[p]);
    var raw := RawEntry(fs, p);
    if raw.File? && |members| > 1 then raw.(group := Some(members)) else raw
  }

  ghost function Snapshot(fs: Fs): Entries {
    map p | p in fs.names && p != [] && Exists(fs, p) :: EntryOf(fs, p)
  }

  function Children(fs: Fs, dir: Path): set<Path> {
    set p | p in fs.names && p != [] && Parent(p) == dir
  }

  /** What the account must be able to read, and what may not be there, for a capture to succeed. */
  ghost predicate Recordable(fs: Fs, p: Path)
    requires Exists(fs, p)
  {
    match NodeAt(fs, p)
    case FileNode(meta, _, links) => meta.mode.read && links == |Members(fs, fs.names[p])|
    case DirNode(meta) => meta.mode.read && (Children(fs, p) != {} ==> meta.mode.search)
    case LinkNode(_, target) => p != [] && SafeTarget(p, target)
    case SpecialNode(_) => false
  }

  ghost predicate AllRecordable(fs: Fs) {
    forall p :: p in fs.names && Exists(fs, p) ==> Recordable(fs, p)
  }

  /** Whatever a capture records is well formed. */
  lemma SnapshotIsWellFormed(fs: Fs)
    requires Valid(fs)
    ensures WellFormed(Snapshot(fs))
  {
    var entries := Snapshot(fs);
    forall p | p in entries && entries[p].File? && entries[p].group.Some?
      ensures GroupAt(entries, p)
    {
      SnapshotGroup(fs, p);
    }
    SnapshotIsClosed(fs);
  }

  lemma SnapshotIsClosed(fs: Fs)
    requires Valid(fs)
    ensures ValidPaths(Snapshot(fs)) && ParentClosed(Snapshot(fs))
  {
    var entries := Snapshot(fs);
    forall p | p in entries ensures ValidPath(p) && (|p| > 1 ==> IsDirectory(entries, Parent(p))) {
      assert IsDir(fs, Parent(p));
    }
  }

  lemma SnapshotGroup(fs: Fs, p: Path)
    requires Valid(fs) && p in Snapshot(fs)
    requires Snapshot(fs)[p].File? && Snapshot(fs)[p].group.Some?
    ensures GroupAt(Snapshot(fs), p)
  {
    var entries := Snapshot(fs);
    assert IsDir(fs, []);
    forall q | q in Members(fs, fs.names[p]) ensures q in entries && entries[q] == entries[p] {
      assert fs.names[q] == fs.names[p] && Exists(fs, q) && q != [];
      assert EntryOf(fs, q) == EntryOf(fs, p);
    }
  }

  // ----- the walk

  /** `hardLinks` lists exactly the files of `done`, each under its inode. */
  ghost predicate Listed(fs: Fs, done: set<Path>, hardLinks: map<nat, set<Path>>) {
    && (forall p :: p in done && Exists(fs, p) && NodeAt(fs, p).FileNode? ==>
          fs.names[p] in hardLinks && p in hardLinks[fs.names[p]])
    && (forall i, p :: i in hardLinks && p in hardLinks[i] ==>
          p in done && Exists(fs, p) && NodeAt(fs, p).FileNode? && fs.names[p] == i)
    && (forall i :: i in hardLinks ==> |hardLinks[i]| > 0)
  }

  /** The paths in `done` are recorded, ungrouped, and every file among them is listed by its inode. */
  ghost predicate Recorded(fs: Fs, done: set<Path>, entries: Entries, hardLinks: map<nat, set<Path>>) {
    && entries.Keys == done
    && (forall p :: p in done ==>
          p != [] && Exists(fs, p) && Readable(fs, p) && entries[p] == RawEntry(fs, p))
    && Listed(fs, done, hardLinks)
  }

  function WithLink(hardLinks: map<nat, set<Path>>, i: nat, p: Path): map<nat, set<Path>> {
    hardLinks[i := (if i in hardLinks then hardLinks[i] else {}) + {p}]
  }

  function LinksWith(fs: Fs, hardLinks: map<nat, set<Path>>, p: Path): map<nat, set<Path>>
    requires Exists(fs, p)
  {
    if NodeAt(fs, p).FileNode? then WithLink(hardLinks, fs.names[p], p) else hardLinks
  }

  lemma NoneEmpty(hardLinks: map<nat, set<Path>>, i: nat, p: Path)
    requires forall j :: j in hardLinks ==> |hardLinks[j]| > 0
    ensures forall j :: j in WithLink(hardLinks, i, p) ==> |WithLink(hardLinks, i, p)[j]| > 0
  {
    assert p in WithLink(hardLinks, i, p)[i];
  }

  lemma ListedMore(fs: Fs, done: set<Path>, hardLinks: map<nat, set<Path>>, p: Path)
    requires Listed(fs, done, hardLinks) && Exists(fs, p) && p !in done
    ensures Listed(fs, done + {p}, LinksWith(fs, hardLinks, p))
  {
    NoneEmpty(hardLinks, fs.names[p], p);
    if NodeAt(fs, p).FileNode? { LinkedOnes(hardLinks, fs.names[p], p); }
  }

  lemma LinkedOnes(hardLinks: map<nat, set<Path>>, i: nat, p: Path)
    ensures var more := WithLink(hardLinks, i, p);
            && more.Keys == hardLinks.Keys + {i} && more[i] == (if i in hardLinks then hardLinks[i] else {}) + {p}
            && forall j :: j in hardLinks && j != i ==> more[j] == hardLinks[j]
  {
  }

  lemma RecordedMore(fs: Fs, done: set<Path>, entries: Entries, hardLinks: map<nat, set<Path>>, p: Path)
    requires Recorded(fs, done, entries, hardLinks) && p != [] && Exists(fs, p) && p !in done && Readable(fs, p)
    ensures Recorded(fs, done + {p}, entries[p := RawEntry(fs, p)], LinksWith(fs, hardLinks, p))
  {
    ListedMore(fs, done, hardLinks, p);
  }

  /** What recording one child needs of it. */
  predicate Readable(fs: Fs, p: Path)
    requires p != [] && Exists(fs, p)
  {
    match NodeAt(fs, p)
    case FileNode(meta, _, _) => meta.mode.read
    case DirNode(_) => true
    case LinkNode(_, target) => SafeTarget(p, target)
    case SpecialNode(_) => false
  }

  predicate Listable(fs: Fs, dir: Path)
    requires IsDir(fs, dir)
  {
    var mode := NodeAt(fs, dir).meta.mode;
    mode.read && (Children(fs, dir) != {} ==> mode.search)
  }

  /** One child: its entry, and for a file its place among the names of its inode. */
  method Record(fs: Fs, p: Path, entries: Entries, hardLinks: map<nat, set<Path>>, ghost done: set<Path>)
    returns (ok: bool, entries': Entries, hardLinks': map<nat, set<Path>>)
    requires p != [] && Exists(fs, p) && p !in done
    requires Recorded(fs, done, entries, hardLinks)
    ensures ok <==> Readable(fs, p)
    ensures ok ==> Recorded(fs, done + {p}, entries', hardLinks')
  {
    entries', hardLinks' := entries, hardLinks;
    if !Readable(fs, p) {
      return false, entries, hardLinks;
    }
    RecordedMore(fs, done, entries, hardLinks, p);
    match NodeAt(fs, p) {
      case FileNode(meta, content, _) =>
        entries' := entries[p := File(meta, content, None)];
        hardLinks' := WithLink(hardLinks, fs.names[p], p);
      case DirNode(meta) =>
        entries' := entries[p := Directory(meta)];
      case LinkNode(meta, target) =>
        entries' := entries[p := Trees.Symlink(meta, target)];
    }
    return true, entries', hardLinks';
  }

  /** Everything directly inside a visited directory. */
  ghost function Below(fs: Fs, visited: set<Path>): set<Path> {
    set p | p in fs.names && p != [] && Parent(p) in visited
  }

  ghost predicate Distinct(s: seq<Path>) {
    forall j, k :: 0 <= j < k < |s| ==> s[j] != s[k]
  }

  /** `directories` lists the real directories of `seen`, once each. */
  ghost predicate Lists(fs: Fs, directories: seq<Path>, seen: set<Path>) {
    Distinct(directories) && forall p :: p in directories <==> p in seen && IsDir(fs, p)
  }

  lemma ListsMore(fs: Fs, directories: seq<Path>, seen: set<Path>, p: Path)
    requires Lists(fs, directories, seen) && p !in seen
    ensures Lists(fs, if IsDir(fs, p) then directories + [p] else directories, seen + {p})
  {
  }

  lemma BelowStep(fs: Fs, visited: set<Path>, dir: Path)
    ensures Below(fs, visited + {dir}) == Below(fs, visited) + Children(fs, dir)
  {
  }

  lemma Pop(stack: seq<Path>)
    requires stack != []
    ensures stack[|stack| - 1] in stack && stack == stack[..|stack| - 1] + [stack[|stack| - 1]]
  {
  }

  lemma Take<T>(before: set<T>, whole: set<T>, seen: set<T>, rest: set<T>, p: T)
    requires seen + rest == whole && seen !! rest && p in rest
    ensures (seen + {p}) + (rest - {p}) == whole && (seen + {p}) !! (rest - {p})
    ensures before + seen + {p} == before + (seen + {p})
  {
  }

  method RecordChildren(fs: Fs, dir: Path, entries: Entries, hardLinks: map<nat, set<Path>>, ghost visited: set<Path>)
    returns (ok: bool, entries': Entries, hardLinks': map<nat, set<Path>>, directories: seq<Path>)
    requires IsDir(fs, dir) && dir !in visited && (forall p :: p in fs.names ==> Exists(fs, p))
    requires Recorded(fs, Below(fs, visited), entries, hardLinks)
    ensures ok <==> forall p :: p in Children(fs, dir) ==> p != [] && Exists(fs, p) && Readable(fs, p)
    ensures ok ==> Recorded(fs, Below(fs, visited + {dir}), entries', hardLinks')
    ensures ok ==> Lists(fs, directories, Children(fs, dir))
  {
    entries', hardLinks', directories := entries, hardLinks, [];
    ghost var before := Below(fs, visited);
    var rest := Children(fs, dir);
    ghost var seen: set<Path> := {};
    assert before + seen == before;
    while rest != {}
      invariant seen + rest == Children(fs, dir) && seen !! rest
      invariant Recorded(fs, before + seen, entries', hardLinks')
      invariant Lists(fs, directories, seen)
      decreases |rest|
    {
      var p :| p in rest;
      assert p in Children(fs, dir) && p !in before;
      ok, entries', hardLinks' := Record(fs, p, entries', hardLinks', before + seen);
      if !ok {
        return;
      }
      ListsMore(fs, directories, seen, p);
      if NodeAt(fs, p).DirNode? {
        directories := directories + [p];
      }
      Take(before, Children(fs, dir), seen, rest, p);
      rest := rest - {p};
      seen := seen + {p};
    }
    BelowStep(fs, visited, dir);
    assert seen == Children(fs, dir);
    ok := true;
  }

  /** Visited and waiting directories are apart, and together they are every directory seen. */
  ghost predicate Frontier(fs: Fs, visited: set<Path>, stack: seq<Path>) {
    && Distinct(stack)
    && (forall d :: d in visited || d in stack ==> IsDir(fs, d))
    && (forall d :: d in stack ==> d !in visited)
    && (forall d :: IsDir(fs, d) && (d == [] || Parent(d) in visited) <==> d in visited || d in stack)
  }

  lemma FrontierStep(fs: Fs, visited: set<Path>, dir: Path, rest: seq<Path>, directories: seq<Path>)
    requires Frontier(fs, visited, rest + [dir])
    requires Lists(fs, directories, Children(fs, dir))
    ensures Frontier(fs, visited + {dir}, rest + directories)
  {
    var stack := rest + [dir];
    assert stack[|rest|] == dir;
    assert forall d :: d in stack <==> d == dir || d in rest;
    assert forall k :: 0 <= k < |rest| ==> stack[k] == rest[k] && stack[k] != stack[|rest|];
    assert Distinct(rest) by {
      forall j, k | 0 <= j < k < |rest| ensures rest[j] != rest[k] {
        assert stack[j] == rest[j] && stack[k] == rest[k];
      }
    }
    forall d | d in directories ensures d !in visited && d != dir && d !in rest {
      assert d in Children(fs, dir);
      assert d != [] && Parent(d) == dir && dir !in visited && IsDir(fs, d);
    }
    Waiting(rest, directories);
    var now, waiting := visited + {dir}, rest + directories;
    forall d ensures IsDir(fs, d) && (d == [] || Parent(d) in now) <==> d in now || d in waiting {
      assert d in waiting <==> d in rest || d in directories;
      assert d in directories <==> d in Children(fs, dir) && IsDir(fs, d);
    }
  }

  lemma Waiting(rest: seq<Path>, more: seq<Path>)
    requires Distinct(rest) && Distinct(more)
    requires forall d :: d in more ==> d !in rest
    ensures Distinct(rest + more)
  {
    var all := rest + more;
    forall j, k | 0 <= j < k < |all| ensures all[j] != all[k] {
      if j < |rest| <= k {
        assert all[j] in rest && all[k] in more;
      }
    }
  }

  /** With nothing waiting, every directory has been visited. */
  lemma {:induction false} AllVisited(fs: Fs, visited: set<Path>, d: Path)
    requires Valid(fs) && Frontier(fs, visited, []) && IsDir(fs, d)
    ensures d in visited
    decreases |d|
  {
    var none: seq<Path> := [];
    if d != [] {
      AllVisited(fs, visited, Parent(d));
    }
    assert d in visited || d in none;
  }

  ghost function NonRoot(fs: Fs): set<Path> {
    set p | p in fs.names && p != []
  }

  ghost function Directories(fs: Fs): set<Path> {
    set d | d in fs.names && IsDir(fs, d)
  }

  ghost predicate Walking(fs: Fs, visited: set<Path>, stack: seq<Path>,
                          entries: Entries, hardLinks: map<nat, set<Path>>) {
    && Frontier(fs, visited, stack)
    && Recorded(fs, Below(fs, visited), entries, hardLinks)
    && visited <= Directories(fs)
    && forall d :: d in visited ==> IsDir(fs, d) && Listable(fs, d)
  }

  ghost predicate AllReadable(fs: Fs) {
    && (forall p :: p in NonRoot(fs) ==> Exists(fs, p) && Readable(fs, p))
    && forall d :: d in Directories(fs) ==> Listable(fs, d)
  }

  /** One directory off the stack: listed, its children recorded, its subdirectories stacked. */
  method Visit(fs: Fs, stack: seq<Path>, entries: Entries, hardLinks: map<nat, set<Path>>, ghost visited: set<Path>)
    returns (ok: bool, stack': seq<Path>, entries': Entries, hardLinks': map<nat, set<Path>>)
    requires Valid(fs) && stack != [] && Walking(fs, visited, stack, entries, hardLinks)
    ensures var dir := stack[|stack| - 1];
            && dir in Directories(fs) && dir !in visited
            && (ok ==> Walking(fs, visited + {dir}, stack', entries', hardLinks'))
    ensures !ok ==> !AllReadable(fs)
  {
    stack', entries', hardLinks' := stack, entries, hardLinks;
    var dir, rest := stack[|stack| - 1], stack[..|stack| - 1];
    Pop(stack);
    if !Listable(fs, dir) {
      return false, stack, entries, hardLinks;
    }
    var directories;
    ok, entries', hardLinks', directories := RecordChildren(fs, dir, entries, hardLinks, visited);
    if ok {
      FrontierStep(fs, visited, dir, rest, directories);
      stack' := rest + directories;
    } else {
      ghost var p :| p in Children(fs, dir) && !Readable(fs, p);
      assert p in NonRoot(fs);
    }
  }

  /** The traversal: an explicit stack of directories, each listed once. */
  method Walk(fs: Fs) returns (ok: bool, entries: Entries, hardLinks: map<nat, set<Path>>)
    requires Valid(fs)
    ensures ok <==> AllReadable(fs)
    ensures ok ==> Recorded(fs, NonRoot(fs), entries, hardLinks)
  {
    entries, hardLinks := map[], map[];
    var stack: seq<Path> := [[]];
    ghost var visited: set<Path> := {};
    WalkStarts(fs);
    while stack != []
      invariant Walking(fs, visited, stack, entries, hardLinks)
      decreases |Directories(fs) - visited|
    {
      ghost var dir := stack[|stack| - 1];
      ok, stack, entries, hardLinks := Visit(fs, stack, entries, hardLinks, visited);
      if !ok {
        return;
      }
      Shrinks(Directories(fs), visited, dir);
      visited := visited + {dir};
    }
    EveryDirectoryVisited(fs, visited);
    ok := true;
  }

  lemma WalkStarts(fs: Fs)
    requires Valid(fs)
    ensures Walking(fs, {}, [[]], map[], map[])
  {
    assert Below(fs, {}) == {};
    assert forall d: Path :: d in [[]] <==> d == [];
  }

  lemma EveryDirectoryVisited(fs: Fs, visited: set<Path>)
    requires Valid(fs) && Frontier(fs, visited, [])
    ensures forall d :: d in Directories(fs) ==> d in visited
    ensures Below(fs, visited) == NonRoot(fs)
  {
    forall d | IsDir(fs, d) ensures d in visited {
      AllVisited(fs, visited, d);
    }
  }

  lemma Shrinks(all: set<Path>, visited: set<Path>, d: Path)
    requires d in all && d !in visited
    ensures |all - (visited + {d})| < |all - visited|
  {
    assert all - (visited + {d}) == (all - visited) - {d};
  }

  // ----- naming the groups

  /** Entries of the inodes in `named` carry their group; the others do not yet. */
  ghost predicate Named(fs: Fs, entries: Entries, named: set<nat>) {
    && entries.Keys == NonRoot(fs)
    && (forall p :: p in entries ==> Exists(fs, p))
    && (forall p :: p in entries ==>
          entries[p] == if fs.names[p] in named then EntryOf(fs, p) else RawEntry(fs, p))
  }

  method SetGroup(fs: Fs, entries: Entries, inode: nat, ghost named: set<nat>) returns (entries': Entries)
    requires Named(fs, entries, named) && inode !in named
    requires Members(fs, inode) <= entries.Keys && |Members(fs, inode)| > 1
    requires forall p :: p in Members(fs, inode) ==> NodeAt(fs, p).FileNode?
    ensures Named(fs, entries', named + {inode})
  {
    var members := Members(fs, inode);
    entries' := entries;
    var rest := members;
    while rest != {}
      invariant rest <= members
      invariant entries'.Keys == entries.Keys
      invariant forall p :: p in entries ==>
                  entries'[p] == if p in members && p !in rest then EntryOf(fs, p) else entries[p]
      decreases |rest|
    {
      var p :| p in rest;
      entries' := entries'[p := entries'[p].(group := Some(members))];
      rest := rest - {p};
    }
  }

  lemma MemberIsFile(fs: Fs, p: Path, q: Path)
    requires Valid(fs) && p in NonRoot(fs) && NodeAt(fs, p).FileNode? && q in Members(fs, fs.names[p])
    ensures q in NonRoot(fs) && Exists(fs, q) && NodeAt(fs, q).FileNode?
  {
    assert IsDir(fs, []);
  }

  lemma LinksAreMembers(fs: Fs, hardLinks: map<nat, set<Path>>, i: nat)
    requires Valid(fs) && Listed(fs, NonRoot(fs), hardLinks) && i in hardLinks
    ensures hardLinks[i] == Members(fs, i)
    ensures forall p :: p in Members(fs, i) ==> p in NonRoot(fs) && NodeAt(fs, p).FileNode?
    ensures i in fs.nodes && fs.nodes[i].FileNode?
  {
    var p :| p in hardLinks[i];
    assert Exists(fs, p) && fs.names[p] == i && NodeAt(fs, p).FileNode?;
    forall q | q in Members(fs, i) ensures q in hardLinks[i] && q in NonRoot(fs) && NodeAt(fs, q).FileNode? {
      MemberIsFile(fs, p, q);
    }
    forall q | q in hardLinks[i] ensures q in Members(fs, i) {
      assert Exists(fs, q) && fs.names[q] == i;
    }
    assert hardLinks[i] <= Members(fs, i) && Members(fs, i) <= hardLinks[i];
  }

  ghost predicate LinksAgree(fs: Fs, i: nat) {
    i in fs.nodes && fs.nodes[i].FileNode? && fs.nodes[i].links == |Members(fs, i)|
  }

  method NameGroup(fs: Fs, members: set<Path>, entries: Entries, i: nat, ghost named: set<nat>)
    returns (ok: bool, entries': Entries)
    requires Named(fs, entries, named) && i !in named
    requires members == Members(fs, i) && i in fs.nodes && fs.nodes[i].FileNode?
    requires forall p :: p in members ==> p in NonRoot(fs)
    ensures ok <==> LinksAgree(fs, i)
    ensures ok ==> Named(fs, entries', named + {i})
  {
    if fs.nodes[i].links != |members| {
      return false, entries;
    }
    ok := true;
    if |members| > 1 {
      entries' := SetGroup(fs, entries, i, named);
    } else {
      entries' := entries;
      LoneFile(fs, entries, named, i);
    }
  }

  method NameGroups(fs: Fs, recorded: Entries, hardLinks: map<nat, set<Path>>)
    returns (ok: bool, entries: Entries)
    requires Valid(fs) && Recorded(fs, NonRoot(fs), recorded, hardLinks)
    ensures ok <==> forall i :: i in hardLinks ==> LinksAgree(fs, i)
    ensures ok ==> entries == Snapshot(fs)
  {
    entries := recorded;
    var rest := hardLinks.Keys;
    ghost var named: set<nat> := {};
    while rest != {}
      invariant named + rest == hardLinks.Keys && named !! rest
      invariant Named(fs, entries, named)
      invariant forall i :: i in named ==> LinksAgree(fs, i)
      decreases |rest|
    {
      var i :| i in rest;
      LinksAreMembers(fs, hardLinks, i);
      ok, entries := NameGroup(fs, hardLinks[i], entries, i, named);
      if !ok {
        return;
      }
      Take({}, hardLinks.Keys, named, rest, i);
      rest := rest - {i};
      named := named + {i};
    }
    AllNamed(fs, recorded, hardLinks, entries, named);
    ok := true;
  }

  lemma AllNamed(fs: Fs, recorded: Entries, hardLinks: map<nat, set<Path>>, entries: Entries, named: set<nat>)
    requires Recorded(fs, NonRoot(fs), recorded, hardLinks)
    requires Named(fs, entries, named) && named == hardLinks.Keys
    ensures entries == Snapshot(fs)
  {
    forall p | p in entries ensures entries[p] == EntryOf(fs, p) {
      assert p in NonRoot(fs);
      assert NodeAt(fs, p).FileNode? ==> fs.names[p] in hardLinks;
    }
  }

  lemma LoneFile(fs: Fs, entries: Entries, named: set<nat>, i: nat)
    requires Named(fs, entries, named) && |Members(fs, i)| <= 1
    ensures Named(fs, entries, named + {i})
  {
  }

  /** `Manifest.capture`: it succeeds exactly when everything may be recorded, and then records
      the snapshot. A special file, an unreadable entry, an unsafe link or a link from outside refuses. */
  method Capture(fs: Fs) returns (r: Result<Entries>)
    requires Valid(fs)
    ensures r.Ok? <==> AllRecordable(fs)
    ensures r.Ok? ==> r.value == Snapshot(fs)
  {
    var ok, entries, hardLinks := Walk(fs);
    if !ok {
      NotRecordable(fs);
      return Refused("UNSUPPORTED_ENTRY");
    }
    ghost var recorded := entries;
    ok, entries := NameGroups(fs, entries, hardLinks);
    if !ok {
      ghost var i :| i in hardLinks && !LinksAgree(fs, i);
      LinksAreMembers(fs, hardLinks, i);
      ghost var p :| p in Members(fs, i);
      assert !Recordable(fs, p);
      return Refused("EXTERNAL_HARDLINK");
    }
    forall p | p in fs.names && Exists(fs, p) ensures Recordable(fs, p) {
      if p != [] {
        assert p in NonRoot(fs) && Readable(fs, p);
      }
      if IsDir(fs, p) {
        assert p in Directories(fs);
      }
    }
    return Ok(entries);
  }

  lemma NotRecordable(fs: Fs)
    requires Valid(fs) && !AllReadable(fs)
    ensures !AllRecordable(fs)
  {
    if p :| p in NonRoot(fs) && !Readable(fs, p) {
      assert !Recordable(fs, p);
    } else {
      var d :| d in Directories(fs) && !Listable(fs, d);
      assert !Recordable(fs, d);
    }
  }
}
