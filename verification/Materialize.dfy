/** Building a recorded tree on disk: `Manifest.materialize`, and the same steps as the merge takes
    them, where directories get their recorded mode before they are filled. */
module Materialize {
  import opened Wrappers
  import opened Trees
  import opened Symlinks
  import opened Filesystem
  import opened Capturing
  import opened Delta
  import opened Merge

  // ----- what can be built

  /** The mode a directory has while it is filled. */
  function BuildMode(e: Entry, asRecorded: bool): Mode {
    if asRecorded then e.meta.mode else OPEN_MODE
  }

  /** Setting this metadata on an inode that already carries it needs no permission the mode denies. */
  predicate Fits(meta: Metadata) {
    !HasUserXattrs(meta) || meta.mode.write
  }

  ghost predicate ParentFillable(entries: Entries, p: Path, asRecorded: bool)
    requires p != []
  {
    |p| > 1 ==>
      && IsDirectory(entries, Parent(p))
      && var mode := BuildMode(entries[Parent(p)], asRecorded); mode.write && mode.search
  }

  /** What building needs of the entries: every parent a directory that can be filled; no read-only
      hard-linked file with `user.` attributes, since each later name sets them again; and, where
      directories already have their recorded mode, no read-only directory with them either. */
  ghost predicate Buildable(entries: Entries, asRecorded: bool) {
    && (forall p :: p in entries && p != [] ==> ParentFillable(entries, p, asRecorded))
    && (forall p :: p in entries && entries[p].File? && entries[p].group.Some? ==> Fits(entries[p].meta))
    && (asRecorded ==> forall p :: p in entries && entries[p].Directory? ==> Fits(entries[p].meta))
  }

  /** A symlink's mode is the system's, and it cannot hold `user.` attributes. */
  ghost predicate LinksAsRecorded(entries: Entries) {
    forall p :: p in entries && entries[p].Symlink? ==>
      entries[p].meta.mode == LINK_MODE && !HasUserXattrs(entries[p].meta)
  }

  ghost predicate SourceMatches(entries: Entries, source: map<Path, string>) {
    forall p :: p in entries && entries[p].File? ==> p in source && source[p] == entries[p].content
  }

  /** Members of one group are copied from one tree. */
  ghost predicate Unmixed(entries: Entries, sides: map<Path, Side>) {
    && sides.Keys == entries.Keys
    && forall p, q :: p in entries && q in entries && Linked(entries[p], entries[q]) ==> sides[p] == sides[q]
  }

  predicate Linked(a: Entry, b: Entry) {
    a.File? && b.File? && a.group.Some? && a.group == b.group
  }

  // ----- the tree under construction

  ghost predicate Placed(fs: Fs, p: Path, e: Entry, asRecorded: bool, finished: bool) {
    && Exists(fs, p)
    && match e
       case Directory(meta) =>
         && NodeAt(fs, p).DirNode?
         && (if finished then NodeAt(fs, p).meta == meta
             else NodeAt(fs, p).meta.mode == BuildMode(e, asRecorded) && NodeAt(fs, p).meta.xattrs == map[])
       case File(meta, content, _) =>
         NodeAt(fs, p) == FileNode(meta, content, |Members(fs, fs.names[p])|)
       case Symlink(meta, target) =>
         NodeAt(fs, p) == LinkNode(meta, target)
  }

  /** `done` is on disk and nothing else; `finished` directories have their final metadata; names
      share an inode exactly when their entries share a group; unfinished parents are open. */
  ghost predicate Built(fs: Fs, entries: Entries, done: set<Path>, finished: set<Path>, asRecorded: bool) {
    && Valid(fs) && Open(fs, [])
    && fs.names.Keys == done + {[]}
    && done <= entries.Keys && finished <= done && [] !in done
    && (forall p :: p in done ==> Placed(fs, p, entries[p], asRecorded, p in finished))
    && (forall p, q :: p in done && q in done && p != q ==>
          (fs.names[p] == fs.names[q] <==> Linked(entries[p], entries[q])))
    && (forall p :: p in done && Parent(p) !in finished ==> Open(fs, Parent(p)))
  }

  lemma {:induction false} PrefixExists(fs: Fs, p: Path, k: nat)
    requires Valid(fs) && p in fs.names && k <= |p|
    ensures p[..k] in fs.names
    decreases |p|
  {
    if k < |p| {
      assert IsDir(fs, Parent(p));
      PrefixExists(fs, Parent(p), k);
      assert Parent(p)[..k] == p[..k];
    } else {
      assert p[..k] == p;
    }
  }

  lemma ReachableUnfinished(fs: Fs, entries: Entries, done: set<Path>, finished: set<Path>, asRecorded: bool, p: Path)
    requires Built(fs, entries, done, finished, asRecorded)
    requires p != [] ==> Open(fs, Parent(p))
    requires forall k :: 0 <= k < |p| ==> p[..k] !in finished
    ensures Reachable(fs, p)
  {
    forall k | 0 <= k < |p| ensures IsDir(fs, p[..k]) && NodeAt(fs, p[..k]).meta.mode.search {
      if k == |p| - 1 {
        assert p[..k] == Parent(p);
      } else {
        UnfinishedAbove(fs, entries, done, finished, asRecorded, p, k);
      }
    }
  }

  lemma UnfinishedAbove(fs: Fs, entries: Entries, done: set<Path>, finished: set<Path>, asRecorded: bool, p: Path, k: nat)
    requires Built(fs, entries, done, finished, asRecorded) && k < |p| - 1 && Parent(p) in fs.names && p[..k] !in finished
    ensures IsDir(fs, p[..k]) && NodeAt(fs, p[..k]).meta.mode.search
  {
    PrefixExists(fs, Parent(p), k + 1);
    var q := p[..k + 1];
    assert Parent(p)[..k + 1] == q && q in done && Parent(q) == p[..k];
  }

  /** While nothing is finished, an entry can be created exactly where its parent is open. */
  lemma CanCreateWhereOpen(fs: Fs, entries: Entries, done: set<Path>, asRecorded: bool, p: Path)
    requires Built(fs, entries, done, {}, asRecorded) && ValidPath(p) && p !in done
    ensures CanCreate(fs, p) <==> Open(fs, Parent(p))
    ensures CanCreate(fs, p) ==> Reachable(fs, p)
  {
    if Open(fs, Parent(p)) {
      ReachableUnfinished(fs, entries, done, {}, asRecorded, p);
    }
  }

  /** With every directory that could be the parent in place, it is open exactly when fillable. */
  lemma OpenIsFillable(fs: Fs, entries: Entries, done: set<Path>, asRecorded: bool, p: Path)
    requires Built(fs, entries, done, {}, asRecorded) && ValidPath(p)
    requires |p| > 1 && IsDirectory(entries, Parent(p)) ==> Parent(p) in done
    ensures Open(fs, Parent(p)) <==> ParentFillable(entries, p, asRecorded)
  {
    if |p| == 1 {
      assert Parent(p) == [];
    } else if Parent(p) in done {
      assert Placed(fs, Parent(p), entries[Parent(p)], asRecorded, false);
    }
  }

  // ----- one entry more

  /** Creating `p` leaves every other name where it was, and only its directory's mtime moves. */
  lemma CreateFrame(fs: Fs, p: Path, node: Node, now: int, q: Path)
    requires Valid(fs) && p !in fs.names && p != [] && IsDir(fs, Parent(p)) && q in fs.names
    ensures var after := Create(fs, p, node, now);
            && Exists(after, q) && after.names[q] == fs.names[q] && fs.names[q] != fs.next
            && NodeAt(after, q) == (if q == Parent(p) then Touch(NodeAt(fs, q), now) else NodeAt(fs, q))
            && Members(after, fs.names[q]) == Members(fs, fs.names[q])
  {
    assert fs.names[q] in fs.nodes && fs.names[q] < fs.next;
    assert fs.names[q] == fs.names[Parent(p)] ==> q == Parent(p);
  }

  lemma NewMember(fs: Fs, p: Path, node: Node, now: int)
    requires Valid(fs) && p !in fs.names && p != [] && IsDir(fs, Parent(p))
    ensures Members(Create(fs, p, node, now), fs.next) == {p} && |Members(Create(fs, p, node, now), fs.next)| == 1
  {
    forall q | q in fs.names ensures fs.names[q] != fs.next {
      assert fs.names[q] in fs.nodes;
    }
    assert Members(Create(fs, p, node, now), fs.next) == {p};
  }

  ghost predicate NewNode(node: Node, e: Entry, asRecorded: bool) {
    match e
    case Directory(_) => node.DirNode? && node.meta.mode == BuildMode(e, asRecorded) && node.meta.xattrs == map[]
    case File(meta, content, _) => node == FileNode(meta, content, 1)
    case Symlink(meta, target) => node == LinkNode(meta, target)
  }

  lemma CreatePlaces(fs: Fs, entries: Entries, done: set<Path>, asRecorded: bool, p: Path, node: Node, now: int, q: Path)
    requires Built(fs, entries, done, {}, asRecorded)
    requires p in entries && ValidPath(p) && p !in done && Open(fs, Parent(p)) && NewNode(node, entries[p], asRecorded)
    requires q in done + {p}
    ensures var after := Create(fs, p, node, now);
            Placed(after, q, entries[q], asRecorded, false) && Open(after, Parent(q))
  {
    if q == p {
      NewMember(fs, p, node, now);
    } else {
      assert Placed(fs, q, entries[q], asRecorded, false);
      CreateFrame(fs, p, node, now, q);
    }
    CreateFrame(fs, p, node, now, Parent(q));
  }

  lemma CreateExtends(fs: Fs, entries: Entries, done: set<Path>, asRecorded: bool, p: Path, node: Node, now: int)
    requires Built(fs, entries, done, {}, asRecorded)
    requires p in entries && ValidPath(p) && p !in done && Open(fs, Parent(p)) && NewNode(node, entries[p], asRecorded)
    requires forall q :: q in done ==> !Linked(entries[p], entries[q])
    ensures Built(Create(fs, p, node, now), entries, done + {p}, {}, asRecorded)
  {
    var after := Create(fs, p, node, now);
    CreateKeepsValid(fs, p, node, now);
    CreateFrame(fs, p, node, now, []);
    forall q | q in done + {p}
      ensures Placed(after, q, entries[q], asRecorded, false) && Open(after, Parent(q))
    {
      CreatePlaces(fs, entries, done, asRecorded, p, node, now, q);
    }
    forall q, r | q in done + {p} && r in done + {p} && q != r
      ensures after.names[q] == after.names[r] <==> Linked(entries[q], entries[r])
    {
      if q in done { CreateFrame(fs, p, node, now, q); }
      if r in done { CreateFrame(fs, p, node, now, r); }
    }
  }

  /** A further name for `first` counts one link more, and otherwise only its directory's mtime moves. */
  lemma LinkFrame(fs: Fs, first: Path, p: Path, now: int, q: Path)
    requires Valid(fs) && p !in fs.names && p != [] && IsDir(fs, Parent(p)) && q in fs.names
    requires Exists(fs, first) && NodeAt(fs, first).FileNode?
    ensures var after := HardLink(fs, first, p, now);
            var node := NodeAt(fs, q);
            && Exists(after, q) && after.names[q] == fs.names[q] && Exists(after, p) && after.names[p] == fs.names[first]
            && NodeAt(after, q) == (if fs.names[q] == fs.names[first] then NodeAt(fs, first).(links := NodeAt(fs, first).links + 1)
                                    else if q == Parent(p) then Touch(node, now) else node)
  {
    assert fs.names[q] == fs.names[Parent(p)] ==> q == Parent(p);
    assert fs.names[Parent(p)] != fs.names[first];
  }

  lemma LinkPlaces(fs: Fs, entries: Entries, done: set<Path>, asRecorded: bool, first: Path, p: Path, now: int, q: Path)
    requires Built(fs, entries, done, {}, asRecorded)
    requires p in entries && ValidPath(p) && p !in done && Open(fs, Parent(p))
    requires first in done && Linked(entries[first], entries[p]) && entries[first] == entries[p]
    requires q in done + {p}
    ensures NodeAt(fs, first).FileNode?
    ensures var after := HardLink(fs, first, p, now);
            Placed(after, q, entries[q], asRecorded, false) && Open(after, Parent(q))
  {
    assert Placed(fs, first, entries[first], asRecorded, false);
    LinkMembers(fs, first, p, now);
    LinkFrame(fs, first, p, now, first);
    LinkFrame(fs, first, p, now, Parent(q));
    if q != p {
      assert Placed(fs, q, entries[q], asRecorded, false);
      LinkFrame(fs, first, p, now, q);
    }
  }

  lemma LinkExtends(fs: Fs, entries: Entries, done: set<Path>, asRecorded: bool, first: Path, p: Path, now: int)
    requires Built(fs, entries, done, {}, asRecorded)
    requires p in entries && ValidPath(p) && p !in done && Open(fs, Parent(p))
    requires first in done && Linked(entries[first], entries[p]) && entries[first] == entries[p]
    ensures NodeAt(fs, first).FileNode?
    ensures Built(HardLink(fs, first, p, now), entries, done + {p}, {}, asRecorded)
  {
    LinkPlaces(fs, entries, done, asRecorded, first, p, now, p);
    var after := HardLink(fs, first, p, now);
    HardLinkKeepsValid(fs, first, p, now);
    LinkFrame(fs, first, p, now, []);
    forall q | q in done + {p}
      ensures Placed(after, q, entries[q], asRecorded, false) && Open(after, Parent(q))
    {
      LinkPlaces(fs, entries, done, asRecorded, first, p, now, q);
    }
    forall q, r | q in done + {p} && r in done + {p} && q != r
      ensures after.names[q] == after.names[r] <==> Linked(entries[q], entries[r])
    {
      LinkFrame(fs, first, p, now, if q == p then first else q);
      LinkFrame(fs, first, p, now, if r == p then first else r);
      var q', r' := if q == p then first else q, if r == p then first else r;
      assert q' == r' || (fs.names[q'] == fs.names[r'] <==> Linked(entries[q'], entries[r']));
    }
  }

  lemma LinkMembers(fs: Fs, first: Path, p: Path, now: int)
    requires Valid(fs) && p !in fs.names && p != [] && Exists(fs, Parent(p))
    requires Exists(fs, first) && NodeAt(fs, first).FileNode?
    ensures var after := HardLink(fs, first, p, now);
            var inode := fs.names[first];
            && Members(after, inode) == Members(fs, inode) + {p}
            && |Members(after, inode)| == |Members(fs, inode)| + 1
            && forall i :: i != inode ==> Members(after, i) == Members(fs, i)
  {
    var after := HardLink(fs, first, p, now);
    var inode := fs.names[first];
    assert Members(after, inode) == Members(fs, inode) + {p};
    assert p !in Members(fs, inode);
    forall i | i != inode ensures Members(after, i) == Members(fs, i) {
    }
  }

  /** Metadata set on a file just created replaces what it was created with. */
  lemma SetOnNew(fs: Fs, p: Path, node: Node, now: int, meta: Metadata)
    requires Valid(fs) && p !in fs.names && p != [] && Exists(fs, Parent(p))
    ensures var mode := if node.LinkNode? then node.meta.mode else meta.mode;
            Exists(Create(fs, p, node, now), p) &&
            SetMetadata(Create(fs, p, node, now), p, meta) == Create(fs, p, node.(meta := meta.(mode := mode)), now)
  {
    var mode := if node.LinkNode? then node.meta.mode else meta.mode;
    var a := SetMetadata(Create(fs, p, node, now), p, meta);
    var b := Create(fs, p, node.(meta := meta.(mode := mode)), now);
    assert a.nodes == b.nodes;
  }

  /** Set again on a further name of the same file, it changes nothing. */
  lemma SetOnLinked(fs: Fs, first: Path, p: Path, now: int)
    requires Valid(fs) && p !in fs.names && p != [] && IsDir(fs, Parent(p))
    requires Exists(fs, first) && NodeAt(fs, first).FileNode?
    ensures var after := HardLink(fs, first, p, now);
            Exists(after, p) && SetMetadata(after, p, NodeAt(fs, first).meta) == after
  {
    var after := HardLink(fs, first, p, now);
    var set_ := SetMetadata(after, p, NodeAt(fs, first).meta);
    assert fs.names[Parent(p)] != fs.names[first];
    assert set_.nodes == after.nodes;
  }

  // ----- the phases

  function PathsOf(paths: seq<Path>): set<Path> {
    set p | p in paths
  }

  predicate Before(p: Path, q: Path) {
    |p| < |q| || (|p| == |q| && Less(Spelled(p), Spelled(q)))
  }

  /** The directories, shallowest first: `sorted(..., key=(count(b"/"), path))`. */
  method DirectoriesByDepth(entries: Entries) returns (dirs: seq<Path>)
    requires ValidPaths(entries)
    ensures forall p :: p in dirs <==> IsDirectory(entries, p)
    ensures forall i, j :: 0 <= i < j < |dirs| ==> Before(dirs[i], dirs[j])
  {
    dirs := [];
    var rest := set p | p in entries && entries[p].Directory?;
    while rest != {}
      invariant forall p :: p in rest ==> IsDirectory(entries, p)
      invariant forall p :: IsDirectory(entries, p) <==> p in dirs || p in rest
      invariant forall i, j :: 0 <= i < j < |dirs| ==> Before(dirs[i], dirs[j])
      invariant forall p, q :: p in dirs && q in rest ==> Before(p, q)
      decreases |rest|
    {
      var least := Shallowest(rest);
      dirs := dirs + [least];
      rest := rest - {least};
    }
  }

  method Shallowest(paths: set<Path>) returns (least: Path)
    requires paths != {} && forall p :: p in paths ==> ValidPath(p)
    ensures least in paths
    ensures forall q :: q in paths && q != least ==> Before(least, q)
  {
    least :| least in paths;
    var rest := paths - {least};
    while rest != {}
      invariant rest <= paths && least in paths && least !in rest
      invariant forall q :: q in paths && q !in rest && q != least ==> Before(least, q)
      decreases |rest|
    {
      var p :| p in rest;
      LessTotal(Spelled(p), Spelled(least));
      SpellingIsInjective(p, least);
      if Before(p, least) {
        forall q | q in paths && q !in rest && q != least ensures Before(p, q) {
          if |p| == |least| == |q| {
            LessTransitive(Spelled(p), Spelled(least), Spelled(q));
          }
        }
        least := p;
      }
      rest := rest - {p};
    }
  }

  lemma PathsSnoc(paths: seq<Path>, i: nat)
    requires i < |paths|
    ensures PathsOf(paths[..i + 1]) == PathsOf(paths[..i]) + {paths[i]}
  {
    assert paths[..i + 1] == paths[..i] + [paths[i]];
  }

  method MakeDirectory(disk: Disk, entries: Entries, p: Path, asRecorded: bool, ghost done: set<Path>)
    returns (ok: bool)
    requires Built(disk.fs, entries, done, {}, asRecorded) && ValidPaths(entries)
    requires IsDirectory(entries, p) && p !in done
    requires |p| > 1 && IsDirectory(entries, Parent(p)) ==> Parent(p) in done
    modifies disk
    ensures ok ==> Built(disk.fs, entries, done + {p}, {}, asRecorded)
    ensures !ok ==> !Buildable(entries, asRecorded)
  {
    ghost var before := disk.fs;
    OpenIsFillable(before, entries, done, asRecorded, p);
    CanCreateWhereOpen(before, entries, done, asRecorded, p);
    ghost var now;
    ok, now := disk.Mkdir(p, BuildMode(entries[p], asRecorded));
    if ok {
      CreateExtends(before, entries, done, asRecorded, p,
                    DirNode(Metadata(BuildMode(entries[p], asRecorded), now, map[])), now);
    }
  }

  /** Directories before what they hold, so each parent that is a directory is already there. */
  method MakeDirectories(disk: Disk, entries: Entries, dirs: seq<Path>, asRecorded: bool) returns (error: Option<string>)
    requires ValidPaths(entries) && Built(disk.fs, entries, {}, {}, asRecorded)
    requires forall p :: p in dirs <==> IsDirectory(entries, p)
    requires forall i, j :: 0 <= i < j < |dirs| ==> Before(dirs[i], dirs[j])
    modifies disk
    ensures error.None? ==> Built(disk.fs, entries, PathsOf(dirs), {}, asRecorded)
    ensures error.Some? ==> !Buildable(entries, asRecorded)
  {
    assert PathsOf(dirs[..0]) == {};
    for i := 0 to |dirs|
      invariant Built(disk.fs, entries, PathsOf(dirs[..i]), {}, asRecorded)
    {
      var p := dirs[i];
      DepthOrder(entries, dirs, i);
      PathsSnoc(dirs, i);
      var ok := MakeDirectory(disk, entries, p, asRecorded, PathsOf(dirs[..i]));
      if !ok {
        return Some("OSError");
      }
    }
    assert dirs[..|dirs|] == dirs;
    return None;
  }

  lemma DepthOrder(entries: Entries, dirs: seq<Path>, i: nat)
    requires i < |dirs| && ValidPaths(entries)
    requires forall p :: p in dirs <==> IsDirectory(entries, p)
    requires forall i, j :: 0 <= i < j < |dirs| ==> Before(dirs[i], dirs[j])
    ensures IsDirectory(entries, dirs[i]) && dirs[i] !in PathsOf(dirs[..i])
    ensures |dirs[i]| > 1 && IsDirectory(entries, Parent(dirs[i])) ==> Parent(dirs[i]) in PathsOf(dirs[..i])
  {
    var p := dirs[i];
    LessIrreflexive(Spelled(p));
    assert p in dirs;
    if |p| > 1 && IsDirectory(entries, Parent(p)) {
      var j :| 0 <= j < |dirs| && dirs[j] == Parent(p);
      assert !Before(p, Parent(p)) && j < i;
      assert dirs[..i][j] == Parent(p);
    }
  }

  /** Names of one group beyond the first were given their attributes again, so they fit. */
  ghost predicate LinkedFit(entries: Entries, done: set<Path>) {
    forall p, q :: p in done && q in done && p in entries && q in entries && p != q && Linked(entries[p], entries[q]) ==>
      Fits(entries[p].meta)
  }

  /** Where the first name of each group was put, and the tree it was copied from. */
  ghost predicate FirstNames(entries: Entries, sides: map<Path, Side>, done: set<Path>, first: map<set<Path>, (Path, Side)>) {
    && (forall g :: g in first ==>
          && first[g].0 in done && first[g].0 in entries && first[g].0 in sides
          && entries[first[g].0].File? && entries[first[g].0].group == Some(g)
          && first[g].1 == sides[first[g].0])
    && (forall p :: p in done && p in entries && entries[p].File? && entries[p].group.Some? ==>
          entries[p].group.value in first)
  }

  /** A file, or its further name, is put at `p`: the tree has it, or the entries cannot be built. */
  ghost predicate PutOrUnbuildable(error: Option<string>, fs: Fs, entries: Entries, done: set<Path>, p: Path,
                                   source: map<Path, string>, asRecorded: bool) {
    && (error.None? ==> Built(fs, entries, done + {p}, {}, asRecorded))
    && (error.Some? && SourceMatches(entries, source) ==> !Buildable(entries, asRecorded))
  }

  /** `os.link` to the first name of the group, and the metadata once more. */
  method MakeLink(disk: Disk, entries: Entries, q: Path, p: Path, source: map<Path, string>, asRecorded: bool,
                  ghost done: set<Path>)
    returns (error: Option<string>)
    requires Built(disk.fs, entries, done, {}, asRecorded) && ValidPaths(entries)
    requires p in entries && p !in done && q in done && Linked(entries[q], entries[p]) && entries[q] == entries[p]
    requires |p| > 1 && IsDirectory(entries, Parent(p)) ==> Parent(p) in done
    modifies disk
    ensures PutOrUnbuildable(error, disk.fs, entries, done, p, source, asRecorded)
    ensures error.None? ==> Fits(entries[p].meta)
  {
    ghost var before := disk.fs;
    OpenIsFillable(before, entries, done, asRecorded, p);
    CanCreateWhereOpen(before, entries, done, asRecorded, p);
    assert Placed(before, q, entries[q], asRecorded, false);
    ReachableUnfinished(before, entries, done, {}, asRecorded, q);
    var ok;
    ghost var now;
    ok, now := disk.Link(q, p);
    if !ok {
      return Some("OSError");
    }
    LinkExtends(before, entries, done, asRecorded, q, p, now);
    assert Placed(disk.fs, p, entries[p], asRecorded, false);
    ReachableUnfinished(disk.fs, entries, done + {p}, {}, asRecorded, p);
    SetOnLinked(before, q, p, now);
    ok := disk.ApplyMetadata(p, entries[p].meta);
    if !ok {
      return Some("XATTR_NOT_APPLICABLE");
    }
    return None;
  }

  /** The copy of the recorded content, checked against its hash, and the metadata. */
  method MakeCopy(disk: Disk, entries: Entries, p: Path, source: map<Path, string>, asRecorded: bool, ghost done: set<Path>)
    returns (error: Option<string>)
    requires Built(disk.fs, entries, done, {}, asRecorded) && ValidPaths(entries)
    requires p in entries && entries[p].File? && p !in done
    requires forall q :: q in done ==> !Linked(entries[p], entries[q])
    requires |p| > 1 && IsDirectory(entries, Parent(p)) ==> Parent(p) in done
    modifies disk
    ensures PutOrUnbuildable(error, disk.fs, entries, done, p, source, asRecorded)
  {
    ghost var before := disk.fs;
    OpenIsFillable(before, entries, done, asRecorded, p);
    CanCreateWhereOpen(before, entries, done, asRecorded, p);
    if p !in source {
      return Some("OSError");
    }
    var ok;
    ghost var now;
    ok, now := disk.WriteNew(p, source[p]);
    if !ok {
      return Some("OSError");
    }
    if source[p] != entries[p].content {
      return Some("COPY_VERIFICATION_FAILED");
    }
    ghost var node := FileNode(Metadata(NEW_FILE_MODE, now, map[]), source[p], 1);
    NewEntryReachable(before, entries, done, asRecorded, p, node, now);
    SetOnNew(before, p, node, now, entries[p].meta);
    CreateExtends(before, entries, done, asRecorded, p, FileNode(entries[p].meta, source[p], 1), now);
    ok := disk.ApplyMetadata(p, entries[p].meta);
    if !ok {
      return Some("XATTR_NOT_APPLICABLE");
    }
    return None;
  }

  ghost predicate FilesPlaced(fs: Fs, entries: Entries, sides: map<Path, Side>, done: set<Path>,
                              first: map<set<Path>, (Path, Side)>, asRecorded: bool) {
    && Built(fs, entries, done, {}, asRecorded)
    && FirstNames(entries, sides, done, first)
    && LinkedFit(entries, done)
  }

  /** The group is known: `p` is a further name of its first file. */
  lemma FurtherName(entries: Entries, sides: map<Path, Side>, done: set<Path>,
                    first: map<set<Path>, (Path, Side)>, p: Path)
    requires Unmixed(entries, sides) && FirstNames(entries, sides, done, first)
    requires p in entries && entries[p].File? && p !in done
    requires entries[p].group.Some? && entries[p].group.value in first
    requires GroupAt(entries, p)
    requires GroupsWellFormed(entries)
    ensures var (q, side) := first[entries[p].group.value];
            q in done && Linked(entries[q], entries[p]) && entries[q] == entries[p] && side == sides[p]
    ensures FirstNames(entries, sides, done + {p}, first)
  {
    var q := first[entries[p].group.value].0;
    assert GroupAt(entries, q);
  }

  lemma FurtherNameFits(entries: Entries, done: set<Path>, p: Path)
    requires LinkedFit(entries, done) && p in entries && entries[p].File? && entries[p].group.Some?
    requires GroupAt(entries, p) && Fits(entries[p].meta)
    requires forall q :: q in done && q in entries && Linked(entries[q], entries[p]) ==> entries[q] == entries[p]
    ensures LinkedFit(entries, done + {p})
  {
  }

  /** No file yet shares `p`'s group. */
  lemma NewName(entries: Entries, sides: map<Path, Side>, done: set<Path>,
                first: map<set<Path>, (Path, Side)>, p: Path)
    requires FirstNames(entries, sides, done, first) && LinkedFit(entries, done)
    requires p in entries && p in sides && entries[p].File? && p !in done
    requires entries[p].group.Some? ==> entries[p].group.value !in first
    ensures forall q :: q in done && q in entries ==> !Linked(entries[p], entries[q])
    ensures LinkedFit(entries, done + {p})
    ensures FirstNames(entries, sides, done + {p},
              if entries[p].group.Some? then first[entries[p].group.value := (p, sides[p])] else first)
  {
    forall q | q in done && q in entries ensures !Linked(entries[p], entries[q]) && !Linked(entries[q], entries[p]) {
    }
  }

  lemma GroupMatesAgree(entries: Entries, p: Path)
    requires GroupsWellFormed(entries) && p in entries && entries[p].File? && entries[p].group.Some?
    ensures GroupAt(entries, p)
    ensures forall q :: q in entries && Linked(entries[q], entries[p]) ==> entries[q] == entries[p]
  {
    forall q | q in entries && Linked(entries[q], entries[p]) ensures entries[q] == entries[p] {
      assert GroupAt(entries, q);
    }
  }

  method MakeFile(disk: Disk, entries: Entries, p: Path, source: map<Path, string>, sides: map<Path, Side>,
                  first: map<set<Path>, (Path, Side)>, asRecorded: bool, ghost done: set<Path>)
    returns (error: Option<string>, first': map<set<Path>, (Path, Side)>)
    requires FilesPlaced(disk.fs, entries, sides, done, first, asRecorded)
    requires ValidPaths(entries) && GroupsWellFormed(entries) && Unmixed(entries, sides)
    requires p in entries && entries[p].File? && p !in done
    requires |p| > 1 && IsDirectory(entries, Parent(p)) ==> Parent(p) in done
    modifies disk
    ensures error.None? ==> FilesPlaced(disk.fs, entries, sides, done + {p}, first', asRecorded)
    ensures error.Some? && SourceMatches(entries, source) ==> !Buildable(entries, asRecorded)
  {
    first' := first;
    var group := entries[p].group;
    if group.Some? && group.value in first {
      var (q, side) := first[group.value];
      GroupMatesAgree(entries, p);
      FurtherName(entries, sides, done, first, p);
      if side != sides[p] {
        return Some("HARDLINK_GROUP_MIXED"), first;
      }
      error := MakeLink(disk, entries, q, p, source, asRecorded, done);
      if error.None? {
        FurtherNameFits(entries, done, p);
      }
    } else {
      NewName(entries, sides, done, first, p);
      error := MakeCopy(disk, entries, p, source, asRecorded, done);
      if group.Some? {
        first' := first[group.value := (p, sides[p])];
      }
    }
  }

  /** Creating an entry takes nothing away from the way to it. */
  lemma NewEntryReachable(fs: Fs, entries: Entries, done: set<Path>, asRecorded: bool, p: Path, node: Node, now: int)
    requires Built(fs, entries, done, {}, asRecorded) && ValidPath(p) && p !in done && Open(fs, Parent(p))
    ensures Reachable(Create(fs, p, node, now), p)
  {
    ReachableUnfinished(fs, entries, done, {}, asRecorded, p);
    forall k | 0 <= k < |p|
      ensures IsDir(Create(fs, p, node, now), p[..k]) && NodeAt(Create(fs, p, node, now), p[..k]).meta.mode.search
    {
      CreateFrame(fs, p, node, now, p[..k]);
    }
  }

  /** The distinct paths of one kind, none on disk yet, every directory there. */
  ghost predicate Pending(entries: Entries, paths: seq<Path>, done: set<Path>) {
    && (forall p :: p in paths ==> p in entries && p !in done)
    && (forall i, j :: 0 <= i < j < |paths| ==> paths[i] != paths[j])
    && forall q :: IsDirectory(entries, q) ==> q in done
  }

  lemma NextPending(entries: Entries, paths: seq<Path>, done: set<Path>, i: nat)
    requires Pending(entries, paths, done) && i < |paths|
    ensures paths[i] in entries && paths[i] !in done + PathsOf(paths[..i])
    ensures done + PathsOf(paths[..i + 1]) == (done + PathsOf(paths[..i])) + {paths[i]}
  {
    assert paths[i] in paths;
    PathsSnoc(paths, i);
  }

  method MakeFiles(disk: Disk, entries: Entries, files: seq<Path>, source: map<Path, string>, sides: map<Path, Side>,
                   asRecorded: bool, ghost done: set<Path>)
    returns (error: Option<string>)
    requires FilesPlaced(disk.fs, entries, sides, done, map[], asRecorded) && Pending(entries, files, done)
    requires ValidPaths(entries) && GroupsWellFormed(entries) && Unmixed(entries, sides)
    requires forall p :: p in files ==> p in entries && entries[p].File?
    modifies disk
    ensures error.None? ==> Built(disk.fs, entries, done + PathsOf(files), {}, asRecorded)
                            && LinkedFit(entries, done + PathsOf(files))
    ensures error.Some? && SourceMatches(entries, source) ==> !Buildable(entries, asRecorded)
  {
    var first: map<set<Path>, (Path, Side)> := map[];
    ghost var placed := done;
    assert placed == done + PathsOf(files[..0]);
    for i := 0 to |files|
      invariant placed == done + PathsOf(files[..i])
      invariant FilesPlaced(disk.fs, entries, sides, placed, first, asRecorded)
    {
      NextPending(entries, files, done, i);
      assert files[i] in files;
      error, first := MakeFile(disk, entries, files[i], source, sides, first, asRecorded, placed);
      if error.Some? {
        return;
      }
      placed := placed + {files[i]};
    }
    assert files[..|files|] == files;
    return None;
  }

  method MakeSymlink(disk: Disk, entries: Entries, p: Path, checked: bool, asRecorded: bool, ghost done: set<Path>)
    returns (error: Option<string>)
    requires Built(disk.fs, entries, done, {}, asRecorded)
    requires ValidPaths(entries) && LinksAsRecorded(entries)
    requires p in entries && entries[p].Symlink? && p !in done
    requires |p| > 1 && IsDirectory(entries, Parent(p)) ==> Parent(p) in done
    modifies disk
    ensures error.None? ==> Built(disk.fs, entries, done + {p}, {}, asRecorded)
    ensures error.Some? ==> !Buildable(entries, asRecorded) || (checked && !SafeTarget(p, entries[p].target))
  {
    ghost var before := disk.fs;
    OpenIsFillable(before, entries, done, asRecorded, p);
    CanCreateWhereOpen(before, entries, done, asRecorded, p);
    var target := entries[p].target;
    if checked && !SafeTarget(p, target) {
      return Some("EXTERNAL_SYMLINK");
    }
    var ok;
    ghost var now;
    ok, now := disk.Symlink(p, target);
    if !ok {
      return Some("OSError");
    }
    ghost var node := LinkNode(Metadata(LINK_MODE, now, map[]), target);
    NewEntryReachable(before, entries, done, asRecorded, p, node, now);
    SetOnNew(before, p, node, now, entries[p].meta);
    CreateExtends(before, entries, done, asRecorded, p, LinkNode(entries[p].meta, target), now);
    ok := disk.ApplyMetadata(p, entries[p].meta);
    if !ok {
      return Some("XATTR_NOT_APPLICABLE");
    }
    return None;
  }

  ghost predicate TargetsSafe(entries: Entries) {
    forall p :: p in entries && entries[p].Symlink? ==> p != [] && SafeTarget(p, entries[p].target)
  }

  method MakeSymlinks(disk: Disk, entries: Entries, links: seq<Path>, checked: bool, asRecorded: bool, ghost done: set<Path>)
    returns (error: Option<string>)
    requires Built(disk.fs, entries, done, {}, asRecorded) && Pending(entries, links, done)
    requires ValidPaths(entries) && LinksAsRecorded(entries)
    requires forall p :: p in links ==> p in entries && entries[p].Symlink?
    modifies disk
    ensures error.None? ==> Built(disk.fs, entries, done + PathsOf(links), {}, asRecorded)
    ensures error.Some? ==> !Buildable(entries, asRecorded) || (checked && !TargetsSafe(entries))
  {
    assert done + PathsOf(links[..0]) == done;
    for i := 0 to |links|
      invariant Built(disk.fs, entries, done + PathsOf(links[..i]), {}, asRecorded)
    {
      NextPending(entries, links, done, i);
      assert links[i] in links;
      error := MakeSymlink(disk, entries, links[i], checked, asRecorded, done + PathsOf(links[..i]));
      if error.Some? {
        return;
      }
    }
    assert links[..|links|] == links;
    return None;
  }

  /** Setting a directory's metadata leaves every other entry alone. */
  lemma SetFrame(fs: Fs, p: Path, meta: Metadata, q: Path)
    requires Valid(fs) && IsDir(fs, p) && q in fs.names
    ensures var after := SetMetadata(fs, p, meta);
            && Exists(after, q) && after.names == fs.names
            && Members(after, fs.names[q]) == Members(fs, fs.names[q])
            && NodeAt(after, q) == (if q == p then DirNode(meta) else NodeAt(fs, q))
  {
    assert fs.names[q] == fs.names[p] ==> q == p;
  }

  lemma FinishExtends(fs: Fs, entries: Entries, done: set<Path>, finished: set<Path>, asRecorded: bool, p: Path)
    requires Built(fs, entries, done, finished, asRecorded)
    requires p in done && entries[p].Directory?
    ensures IsDir(fs, p) && Built(SetMetadata(fs, p, entries[p].meta), entries, done, finished + {p}, asRecorded)
  {
    assert Placed(fs, p, entries[p], asRecorded, p in finished);
    var meta := entries[p].meta;
    var after := SetMetadata(fs, p, meta);
    SetMetadataKeepsValid(fs, p, meta);
    SetFrame(fs, p, meta, []);
    forall q | q in done ensures Placed(after, q, entries[q], asRecorded, q in finished + {p}) {
      SetFrame(fs, p, meta, q);
      assert Placed(fs, q, entries[q], asRecorded, q in finished);
    }
    forall q | q in done && Parent(q) !in finished + {p} ensures Open(after, Parent(q)) {
      SetFrame(fs, p, meta, Parent(q));
    }
  }

  /** The recorded metadata, deepest directory first: a directory's own way there is still open. */
  method FinishDirectories(disk: Disk, entries: Entries, dirs: seq<Path>, asRecorded: bool) returns (error: Option<string>)
    requires Built(disk.fs, entries, entries.Keys, {}, asRecorded) && ValidPaths(entries)
    requires forall p :: p in dirs <==> IsDirectory(entries, p)
    requires forall i, j :: 0 <= i < j < |dirs| ==> Before(dirs[i], dirs[j])
    modifies disk
    ensures error.None? ==> Built(disk.fs, entries, entries.Keys, PathsOf(dirs), asRecorded)
                            && (asRecorded ==> forall p :: p in dirs ==> Fits(entries[p].meta))
    ensures error.Some? ==> !Buildable(entries, asRecorded)
  {
    var i := |dirs|;
    assert PathsOf(dirs[i..]) == {};
    while i > 0
      invariant 0 <= i <= |dirs|
      invariant Built(disk.fs, entries, entries.Keys, PathsOf(dirs[i..]), asRecorded)
      invariant asRecorded ==> forall p :: p in dirs[i..] ==> Fits(entries[p].meta)
    {
      i := i - 1;
      DeeperFinished(entries, dirs, i);
      var ok := FinishDirectory(disk, entries, dirs[i], PathsOf(dirs[i + 1..]), asRecorded);
      if !ok {
        return Some("XATTR_NOT_APPLICABLE");
      }
      PathsCons(dirs, i);
    }
    assert dirs[0..] == dirs;
    return None;
  }

  lemma PathsCons(paths: seq<Path>, i: nat)
    requires i < |paths|
    ensures PathsOf(paths[i..]) == PathsOf(paths[i + 1..]) + {paths[i]}
    ensures forall p :: p in paths[i..] <==> p == paths[i] || p in paths[i + 1..]
  {
    assert paths[i..] == [paths[i]] + paths[i + 1..];
  }

  lemma DeeperFinished(entries: Entries, dirs: seq<Path>, i: nat)
    requires i < |dirs|
    requires forall p :: p in dirs <==> IsDirectory(entries, p)
    requires forall i, j :: 0 <= i < j < |dirs| ==> Before(dirs[i], dirs[j])
    ensures IsDirectory(entries, dirs[i])
    ensures forall k :: 0 <= k <= |dirs[i]| ==> dirs[i][..k] !in PathsOf(dirs[i + 1..])
  {
    var p := dirs[i];
    assert p in dirs;
    LessIrreflexive(Spelled(p));
    forall k | 0 <= k <= |p| ensures p[..k] !in PathsOf(dirs[i + 1..]) {
      assert k == |p| ==> p[..k] == p;
      assert !Before(p, p[..k]);
    }
  }

  method FinishDirectory(disk: Disk, entries: Entries, p: Path, ghost finished: set<Path>, asRecorded: bool)
    returns (ok: bool)
    requires Built(disk.fs, entries, entries.Keys, finished, asRecorded) && ValidPaths(entries)
    requires IsDirectory(entries, p)
    requires forall k :: 0 <= k <= |p| ==> p[..k] !in finished
    modifies disk
    ensures ok ==> Built(disk.fs, entries, entries.Keys, finished + {p}, asRecorded)
                   && (asRecorded ==> Fits(entries[p].meta))
    ensures !ok ==> !Buildable(entries, asRecorded)
  {
    ghost var before := disk.fs;
    assert p[..|p|] == p && p !in finished;
    assert Placed(before, p, entries[p], asRecorded, false);
    assert Parent(p) !in finished by { assert Parent(p) == p[..|p| - 1]; }
    ReachableUnfinished(before, entries, entries.Keys, finished, asRecorded, p);
    FinishExtends(before, entries, entries.Keys, finished, asRecorded, p);
    ok := disk.ApplyMetadata(p, entries[p].meta);
  }

  // ----- the finished tree

  function RootMetadata(fs: Fs): Metadata
    requires Exists(fs, [])
  {
    NodeAt(fs, []).meta
  }

  lemma MembersAreGroup(fs: Fs, entries: Entries, finished: set<Path>, asRecorded: bool, p: Path)
    requires Built(fs, entries, entries.Keys, finished, asRecorded) && GroupsWellFormed(entries)
    requires p in entries && entries[p].File?
    ensures Members(fs, fs.names[p]) == if entries[p].group.Some? then entries[p].group.value else {p}
    ensures |Members(fs, fs.names[p])| > 1 <==> entries[p].group.Some?
  {
    assert Placed(fs, p, entries[p], asRecorded, p in finished);
    var group := if entries[p].group.Some? then entries[p].group.value else {p};
    if entries[p].group.Some? {
      GroupMatesAgree(entries, p);
    }
    forall q ensures q in Members(fs, fs.names[p]) <==> q in group {
      if q in Members(fs, fs.names[p]) && q != p {
        assert q != [];
        assert Linked(entries[p], entries[q]);
        GroupMatesAgree(entries, q);
      }
      if q in group && q != p {
        assert Linked(entries[p], entries[q]);
      }
    }
  }

  /** What is on disk when every directory is finished is what the entries say. */
  lemma BuiltIsRecorded(fs: Fs, entries: Entries, finished: set<Path>, asRecorded: bool)
    requires Built(fs, entries, entries.Keys, finished, asRecorded) && GroupsWellFormed(entries)
    requires forall p :: p in finished <==> IsDirectory(entries, p)
    ensures Snapshot(fs) == entries
  {
    forall p | p in entries ensures Exists(fs, p) && EntryOf(fs, p) == entries[p] {
      EntryIsRecorded(fs, entries, finished, asRecorded, p);
    }
    forall p ensures Lookup(Snapshot(fs), p) == Lookup(entries, p) {
      assert p in entries <==> p in fs.names && p != [];
    }
    EqualLookups(Snapshot(fs), entries);
  }

  lemma EntryIsRecorded(fs: Fs, entries: Entries, finished: set<Path>, asRecorded: bool, p: Path)
    requires Built(fs, entries, entries.Keys, finished, asRecorded) && GroupsWellFormed(entries)
    requires p in entries && (entries[p].Directory? ==> p in finished)
    ensures Exists(fs, p) && EntryOf(fs, p) == entries[p]
  {
    assert Placed(fs, p, entries[p], asRecorded, p in finished);
    if entries[p].File? {
      MembersAreGroup(fs, entries, finished, asRecorded, p);
    }
    PlacedIsEntry(fs, p, entries[p], asRecorded);
  }

  lemma PlacedIsEntry(fs: Fs, p: Path, e: Entry, asRecorded: bool)
    requires Placed(fs, p, e, asRecorded, true)
    requires e.File? ==>
               && Members(fs, fs.names[p]) == (if e.group.Some? then e.group.value else {p})
               && (|Members(fs, fs.names[p])| > 1 <==> e.group.Some?)
    ensures EntryOf(fs, p) == e
  {
  }

  /** What this account must be able to read for the tree to be captured again. */
  ghost predicate Capturable(entries: Entries, root: Metadata) {
    && TargetsSafe(entries)
    && (forall p :: p in entries && !entries[p].Symlink? ==> entries[p].meta.mode.read)
    && (forall p :: p in entries && |p| > 1 && Parent(p) in entries ==> entries[Parent(p)].meta.mode.search)
    && RootListable(entries, root)
  }

  predicate RootListable(entries: Entries, root: Metadata) {
    root.mode.read && (entries != map[] ==> root.mode.search)
  }

  /** Setting the root's metadata last changes nothing below it. */
  lemma RootLast(fs: Fs, root: Metadata)
    requires Valid(fs)
    ensures var after := SetMetadata(fs, [], root);
            && Valid(after) && RootMetadata(after) == root && after.names == fs.names
            && Snapshot(after) == Snapshot(fs)
            && forall p :: p in fs.names && p != [] ==>
                 Exists(after, p) && NodeAt(after, p) == NodeAt(fs, p) && (Recordable(after, p) <==> Recordable(fs, p))
  {
    SetMetadataKeepsValid(fs, [], root);
    var after := SetMetadata(fs, [], root);
    forall p | p in fs.names && p != []
      ensures Exists(after, p) && NodeAt(after, p) == NodeAt(fs, p)
      ensures EntryOf(after, p) == EntryOf(fs, p) && (Recordable(after, p) <==> Recordable(fs, p))
    {
      SetRootFrame(fs, root, p);
    }
    forall p ensures Lookup(Snapshot(after), p) == Lookup(Snapshot(fs), p) {
      assert p in fs.names ==> Exists(fs, p);
    }
    EqualLookups(Snapshot(after), Snapshot(fs));
  }

  lemma SetRootFrame(fs: Fs, root: Metadata, p: Path)
    requires Valid(fs) && p in fs.names && p != []
    ensures var after := SetMetadata(fs, [], root);
            && Exists(after, p) && NodeAt(after, p) == NodeAt(fs, p)
            && EntryOf(after, p) == EntryOf(fs, p) && (Recordable(after, p) <==> Recordable(fs, p))
  {
    var after := SetMetadata(fs, [], root);
    SetFrame(fs, [], root, p);
    assert Children(after, p) == Children(fs, p);
  }

  /** The built tree with its root's metadata: what a capture of it gives, and when it succeeds. */
  ghost predicate Rebuilt(fs: Fs, entries: Entries, root: Metadata) {
    && Valid(fs) && Snapshot(fs) == entries && RootMetadata(fs) == root
    && (Capturable(entries, root) ==> AllRecordable(fs))
    && (!RootListable(entries, root) ==> !AllRecordable(fs))
  }

  lemma RootMakesRebuilt(fs: Fs, entries: Entries, root: Metadata, finished: set<Path>, asRecorded: bool)
    requires Built(fs, entries, entries.Keys, finished, asRecorded) && GroupsWellFormed(entries)
    requires ValidPaths(entries) && ParentClosed(entries)
    requires forall p :: p in finished <==> IsDirectory(entries, p)
    ensures Rebuilt(SetMetadata(fs, [], root), entries, root)
  {
    var after := SetMetadata(fs, [], root);
    BuiltIsRecorded(fs, entries, finished, asRecorded);
    RootLast(fs, root);
    RootChildren(after, entries);
    if Capturable(entries, root) {
      forall p | p in after.names && Exists(after, p) ensures Recordable(after, p) {
        if p != [] {
          RecordableUnderRoot(fs, entries, root, finished, asRecorded, p);
        }
      }
    }
    if !RootListable(entries, root) {
      assert !Recordable(after, []);
    }
  }

  lemma RecordableUnderRoot(fs: Fs, entries: Entries, root: Metadata, finished: set<Path>, asRecorded: bool, p: Path)
    requires Built(fs, entries, entries.Keys, finished, asRecorded) && GroupsWellFormed(entries)
    requires forall q :: q in finished <==> IsDirectory(entries, q)
    requires Capturable(entries, root) && p in entries
    ensures Exists(fs, p) && Recordable(fs, p)
  {
    assert Placed(fs, p, entries[p], asRecorded, p in finished);
    if entries[p].Directory? && Children(fs, p) != {} {
      var q :| q in Children(fs, p);
      assert q in entries && Parent(q) == p && |q| > 1;
    }
  }

  lemma RootChildren(fs: Fs, entries: Entries)
    requires Valid(fs) && fs.names.Keys == entries.Keys + {[]} && [] !in entries
    ensures Children(fs, []) != {} <==> entries != map[]
  {
    if entries != map[] {
      var p :| p in entries;
      PrefixExists(fs, p, 1);
      var top := p[..1];
      assert top != [] && Parent(top) == [] && top in fs.names;
      assert top in Children(fs, []);
    }
  }

  // ----- the two callers

  method FilesOf(entries: Entries) returns (files: seq<Path>, links: seq<Path>)
    requires ValidPaths(entries)
    ensures forall p :: p in files <==> p in entries && entries[p].File?
    ensures forall p :: p in links <==> p in entries && entries[p].Symlink?
    ensures forall i, j :: 0 <= i < j < |files| ==> files[i] != files[j]
    ensures forall i, j :: 0 <= i < j < |links| ==> links[i] != links[j]
  {
    files := Sorted(set p | p in entries && entries[p].File?);
    links := Sorted(set p | p in entries && entries[p].Symlink?);
    forall i, j | 0 <= i < j < |files| ensures files[i] != files[j] {
      LessIrreflexive(Spelled(files[i]));
    }
    forall i, j | 0 <= i < j < |links| ensures links[i] != links[j] {
      LessIrreflexive(Spelled(links[i]));
    }
  }

  ghost predicate Empty(fs: Fs) {
    Valid(fs) && Open(fs, []) && fs.names.Keys == {[]}
  }

  /** Directories, files and symlinks, in this order. */
  method Fill(disk: Disk, entries: Entries, dirs: seq<Path>, source: map<Path, string>, sides: map<Path, Side>,
              asRecorded: bool)
    returns (error: Option<string>, ghost files: set<Path>)
    requires Empty(disk.fs)
    requires ValidPaths(entries) && GroupsWellFormed(entries) && LinksAsRecorded(entries) && Unmixed(entries, sides)
    requires forall p :: p in dirs <==> IsDirectory(entries, p)
    requires forall i, j :: 0 <= i < j < |dirs| ==> Before(dirs[i], dirs[j])
    modifies disk
    ensures error.None? ==> Built(disk.fs, entries, entries.Keys, {}, asRecorded) && LinkedFit(entries, files)
    ensures forall p :: p in entries && entries[p].File? ==> p in files
    ensures error.Some? && SourceMatches(entries, source) ==>
              !Buildable(entries, asRecorded) || (!asRecorded && !TargetsSafe(entries))
  {
    var fileList, links := FilesOf(entries);
    ghost var done := PathsOf(dirs);
    files := done + PathsOf(fileList);
    NothingBuilt(disk.fs, entries, asRecorded);
    ByKind(entries, sides, dirs, fileList, links);
    error := MakeDirectories(disk, entries, dirs, asRecorded);
    if error.Some? { return; }
    error := MakeFiles(disk, entries, fileList, source, sides, asRecorded, done);
    if error.Some? { return; }
    error := MakeSymlinks(disk, entries, links, !asRecorded, asRecorded, files);
  }

  lemma ByKind(entries: Entries, sides: map<Path, Side>, dirs: seq<Path>, files: seq<Path>, links: seq<Path>)
    requires forall p :: p in dirs <==> IsDirectory(entries, p)
    requires forall p :: p in files <==> p in entries && entries[p].File?
    requires forall p :: p in links <==> p in entries && entries[p].Symlink?
    requires forall i, j :: 0 <= i < j < |files| ==> files[i] != files[j]
    requires forall i, j :: 0 <= i < j < |links| ==> links[i] != links[j]
    ensures Pending(entries, files, PathsOf(dirs)) && Pending(entries, links, PathsOf(dirs) + PathsOf(files))
    ensures FirstNames(entries, sides, PathsOf(dirs), map[]) && LinkedFit(entries, PathsOf(dirs))
    ensures PathsOf(dirs) + PathsOf(files) + PathsOf(links) == entries.Keys
  {
  }

  /** The phases into an empty directory, and the root's metadata: `Manifest.materialize` with
      owner-writable directories and checked links, `Delta._materialize_merged` with neither. */
  method Build(disk: Disk, entries: Entries, root: Metadata, source: map<Path, string>, sides: map<Path, Side>,
               asRecorded: bool)
    returns (error: Option<string>)
    requires Empty(disk.fs)
    requires ValidPaths(entries) && GroupsWellFormed(entries) && LinksAsRecorded(entries) && Unmixed(entries, sides)
    modifies disk
    ensures error.None? ==> Rebuilt(disk.fs, entries, root) && Buildable(entries, asRecorded)
    ensures error.Some? && SourceMatches(entries, source) ==>
              !Buildable(entries, asRecorded) || (!asRecorded && !TargetsSafe(entries))
  {
    var dirs := DirectoriesByDepth(entries);
    ghost var files;
    error, files := Fill(disk, entries, dirs, source, sides, asRecorded);
    if error.Some? { return; }
    ghost var placed := disk.fs;
    error := FinishDirectories(disk, entries, dirs, asRecorded);
    if error.Some? { return; }
    WasBuildable(placed, entries, files, asRecorded);
    BuildableIsClosed(entries, asRecorded);
    RootMakesRebuilt(disk.fs, entries, root, PathsOf(dirs), asRecorded);
    var ok := disk.ApplyMetadata([], root);
    if !ok {
      return Some("XATTR_NOT_APPLICABLE");
    }
  }

  lemma NothingBuilt(fs: Fs, entries: Entries, asRecorded: bool)
    requires Empty(fs)
    ensures Built(fs, entries, {}, {}, asRecorded)
  {
  }

  lemma BuildableIsClosed(entries: Entries, asRecorded: bool)
    requires ValidPaths(entries) && Buildable(entries, asRecorded)
    ensures ParentClosed(entries)
  {
    forall p | p in entries && |p| > 1 ensures IsDirectory(entries, Parent(p)) {
      assert ParentFillable(entries, p, asRecorded);
    }
  }

  lemma WasBuildable(fs: Fs, entries: Entries, files: set<Path>, asRecorded: bool)
    requires Built(fs, entries, entries.Keys, {}, asRecorded) && ValidPaths(entries) && GroupsWellFormed(entries)
    requires LinkedFit(entries, files) && forall p :: p in entries && entries[p].File? ==> p in files
    requires asRecorded ==> forall p :: p in entries && entries[p].Directory? ==> Fits(entries[p].meta)
    ensures Buildable(entries, asRecorded)
  {
    forall p | p in entries && p != [] ensures ParentFillable(entries, p, asRecorded) {
      OpenIsFillable(fs, entries, entries.Keys, asRecorded, p);
    }
    forall p | p in entries && entries[p].File? && entries[p].group.Some? ensures Fits(entries[p].meta) {
      assert GroupAt(entries, p);
      var group := entries[p].group.value;
      AnotherMember(group, p);
      var q :| q in group && q != p;
      assert Linked(entries[p], entries[q]);
    }
  }

  lemma AnotherMember(group: set<Path>, p: Path)
    requires p in group && |group| > 1
    ensures exists q :: q in group && q != p
  {
    assert |group - {p}| > 0;
    var q :| q in group - {p};
  }

  /** No hard-linked file is both read-only and marked with `user.` attributes. */
  ghost predicate LinkedFilesFit(entries: Entries) {
    forall p :: p in entries && entries[p].File? && entries[p].group.Some? ==> Fits(entries[p].meta)
  }

  /** `Manifest.materialize`. Into an empty directory, from a source that still has the recorded
      contents, a captured manifest is rebuilt so that capturing it again gives the manifest itself
      - content, links, groups, modes and times - exactly when its hard-linked files fit; the final
      comparison then never refuses. */
  method MaterializeManifest(disk: Disk, m: Manifest, source: map<Path, string>) returns (r: Result<Manifest>)
    requires Valid(disk.fs) && Open(disk.fs, [])
    requires WellFormed(m.entries) && LinksAsRecorded(m.entries)
    modifies disk
    ensures old(disk.fs).names.Keys != {[]} ==> r == Refused("DESTINATION_NOT_EMPTY") && disk.fs == old(disk.fs)
    ensures r.Ok? ==> r.value == m && Valid(disk.fs) && Snapshot(disk.fs) == m.entries && RootMetadata(disk.fs) == m.root
    ensures old(disk.fs).names.Keys == {[]} && SourceMatches(m.entries, source) && Capturable(m.entries, m.root) ==>
              (r.Ok? <==> LinkedFilesFit(m.entries))
  {
    if disk.fs.names.Keys != {[]} {
      return Refused("DESTINATION_NOT_EMPTY");
    }
    var sides: map<Path, Side> := map p | p in m.entries :: FromCurrent;
    var error := Build(disk, m.entries, m.root, source, sides, false);
    FitIsBuildable(m.entries);
    if error.Some? {
      return Refused(error.value);
    }
    var captured := Capture(disk.fs);
    if captured.Refused? {
      return Refused(captured.code);
    }
    var again := Manifest(m.rootKey, RootMetadata(disk.fs), captured.value);
    if again != m {
      return Refused("COPY_VERIFICATION_FAILED");
    }
    return Ok(again);
  }

  lemma FitIsBuildable(entries: Entries)
    requires ValidPaths(entries) && ParentClosed(entries)
    ensures Buildable(entries, false) <==> LinkedFilesFit(entries)
  {
  }
}
