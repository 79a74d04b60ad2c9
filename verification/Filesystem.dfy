/** A filesystem below one root, as one unprivileged account uses it: names lead to inodes,
    creating an entry touches its directory, and every access needs the directories above. */
module Filesystem {
  import opened Trees

  datatype Node =
    | FileNode(meta: Metadata, content: string, links: nat)
    | DirNode(meta: Metadata)
    | LinkNode(meta: Metadata, target: string)
    | SpecialNode(meta: Metadata)

  /** Inodes in use are below `next`. */
  datatype Fs = Fs(names: map<Path, nat>, nodes: map<nat, Node>, next: nat)

  const OPEN_MODE := Mode(true, true, true, 0)        // 0700
  const NEW_FILE_MODE := Mode(true, true, false, 0)
  const LINK_MODE := Mode(true, true, true, 0)        // a symlink's mode is never set

  ghost predicate Valid(fs: Fs) {
    && IsDir(fs, [])
    && (forall i :: i in fs.nodes ==> i < fs.next)
    && (forall p :: p in fs.names ==> fs.names[p] in fs.nodes)
    && (forall p :: p in fs.names && p != [] ==> ValidPath(p) && IsDir(fs, Parent(p)))
    && (forall p, q :: p in fs.names && q in fs.names && fs.names[p] == fs.names[q] && IsDir(fs, p) ==> p == q)
  }

  predicate Exists(fs: Fs, p: Path) {
    p in fs.names && fs.names[p] in fs.nodes
  }

  function NodeAt(fs: Fs, p: Path): Node
    requires Exists(fs, p)
  {
    fs.nodes[fs.names[p]]
  }

  predicate IsDir(fs: Fs, p: Path) {
    Exists(fs, p) && NodeAt(fs, p).DirNode?
  }

  /** A directory this account can add entries to, given that it can get there. */
  predicate Open(fs: Fs, p: Path) {
    IsDir(fs, p) && NodeAt(fs, p).meta.mode.write && NodeAt(fs, p).meta.mode.search
  }

  /** Every directory above `p` can be searched. */
  predicate Reachable(fs: Fs, p: Path) {
    forall k | 0 <= k < |p| :: IsDir(fs, p[..k]) && NodeAt(fs, p[..k]).meta.mode.search
  }

  predicate CanCreate(fs: Fs, p: Path) {
    p != [] && p !in fs.names && Reachable(fs, p) && Open(fs, Parent(p))
  }

  /** The names of one inode. */
  function Members(fs: Fs, inode: nat): set<Path> {
    set p | p in fs.names && fs.names[p] == inode
  }

  // ----- extended attributes

  /** Setting an attribute of the `user.` class needs write permission on the inode itself. */
  predicate HasUserXattrs(meta: Metadata) {
    exists name | name in meta.xattrs :: "user." <= name
  }

  predicate CanSetXattrs(node: Node, meta: Metadata) {
    !HasUserXattrs(meta) || (!node.LinkNode? && node.meta.mode.write)
  }

  // ----- what the calls do

  function Touch(node: Node, now: int): Node {
    node.(meta := node.meta.(mtime := now))
  }

  function TouchParent(fs: Fs, p: Path, now: int): map<nat, Node>
    requires p != [] && Exists(fs, Parent(p))
  {
    fs.nodes[fs.names[Parent(p)] := Touch(NodeAt(fs, Parent(p)), now)]
  }

  /** A new inode at `p`. */
  function Create(fs: Fs, p: Path, node: Node, now: int): Fs
    requires p != [] && Exists(fs, Parent(p))
  {
    Fs(fs.names[p := fs.next], TouchParent(fs, p, now)[fs.next := node], fs.next + 1)
  }

  /** A second name `p` for the file at `first`. */
  function HardLink(fs: Fs, first: Path, p: Path, now: int): Fs
    requires p != [] && Exists(fs, Parent(p)) && Exists(fs, first) && NodeAt(fs, first).FileNode?
  {
    var inode := fs.names[first];
    var node := fs.nodes[inode];
    Fs(fs.names[p := inode], TouchParent(fs, p, now)[inode := node.(links := node.links + 1)], fs.next)
  }

  /** Attributes, then the mode (not a symlink's), then the times. */
  function SetMetadata(fs: Fs, p: Path, meta: Metadata): Fs
    requires Exists(fs, p)
  {
    var node := NodeAt(fs, p);
    var mode := if node.LinkNode? then node.meta.mode else meta.mode;
    fs.(nodes := fs.nodes[fs.names[p] := node.(meta := meta.(mode := mode))])
  }

  /** In a valid tree whose directories in use are open, a parent that is open is all a new entry needs. */
  lemma {:induction false} ReachableThroughOpen(fs: Fs, p: Path)
    requires Valid(fs)
    requires forall q :: q in fs.names && q != [] ==> NodeAt(fs, Parent(q)).meta.mode.search
    requires p != [] ==> IsDir(fs, Parent(p)) && NodeAt(fs, Parent(p)).meta.mode.search
    ensures Reachable(fs, p)
  {
    if p != [] {
      var up := Parent(p);
      ReachableThroughOpen(fs, up);
      forall k | 0 <= k < |p| ensures IsDir(fs, p[..k]) && NodeAt(fs, p[..k]).meta.mode.search {
        if k < |up| {
          assert p[..k] == up[..k];
        } else {
          assert p[..k] == up;
        }
      }
    }
  }

  lemma CreateKeepsValid(fs: Fs, p: Path, node: Node, now: int)
    requires Valid(fs) && ValidPath(p) && p !in fs.names && IsDir(fs, Parent(p))
    ensures Valid(Create(fs, p, node, now))
  {
    var after := Create(fs, p, node, now);
    forall q | q in fs.names
      ensures fs.names[q] < fs.next && after.names[q] == fs.names[q]
      ensures Exists(after, q) && (IsDir(after, q) <==> IsDir(fs, q))
    {
      assert fs.names[q] in fs.nodes;
    }
    forall q | q in after.names && q != [] ensures ValidPath(q) && IsDir(after, Parent(q)) {
      assert q in fs.names || q == p;
      assert Parent(q) in fs.names;
    }
    forall q, r | q in after.names && r in after.names && after.names[q] == after.names[r] && IsDir(after, q)
      ensures q == r
    {
      assert (q in fs.names || q == p) && (r in fs.names || r == p);
    }
  }

  lemma HardLinkKeepsValid(fs: Fs, first: Path, p: Path, now: int)
    requires Valid(fs) && ValidPath(p) && p !in fs.names && IsDir(fs, Parent(p))
    requires Exists(fs, first) && NodeAt(fs, first).FileNode?
    ensures Valid(HardLink(fs, first, p, now))
  {
    var after := HardLink(fs, first, p, now);
    assert forall q :: q in fs.names ==> after.names[q] == fs.names[q];
    forall q ensures IsDir(after, q) <==> IsDir(fs, q) {
    }
    forall q | q in after.names && q != [] ensures ValidPath(q) && IsDir(after, Parent(q)) {
      assert q in fs.names || q == p;
    }
  }

  lemma SetMetadataKeepsValid(fs: Fs, p: Path, meta: Metadata)
    requires Valid(fs) && Exists(fs, p)
    ensures Valid(SetMetadata(fs, p, meta))
  {
    var after := SetMetadata(fs, p, meta);
    assert forall q :: IsDir(after, q) <==> IsDir(fs, q);
  }

  // ----- what is found afterwards

  /** What differs at `q` is only the time its directory was changed at. */
  ghost predicate Touched(before: Node, after: Node, now: int) {
    after == before.(meta := Metadata(before.meta.mode, now, before.meta.xattrs))
  }

  /** A new entry is found with what it was made of, and is no other's inode; every other name finds what
      it found, its directory changed now. */
  ghost predicate EntryMade(fs: Fs, after: Fs, p: Path, node: Node, now: int) {
    && p != [] && after.names.Keys == fs.names.Keys + {p} && Exists(after, p) && NodeAt(after, p) == node
    && (forall q :: q in fs.names ==> Exists(fs, q) && Exists(after, q) && after.names[q] == fs.names[q] != after.names[p])
    && (forall q :: q in fs.names ==>
          if q == Parent(p) then Touched(NodeAt(fs, q), NodeAt(after, q), now) else NodeAt(after, q) == NodeAt(fs, q))
  }

  lemma CreateMeaning(fs: Fs, p: Path, node: Node, now: int)
    requires Valid(fs) && p != [] && p !in fs.names && IsDir(fs, Parent(p))
    ensures EntryMade(fs, Create(fs, p, node, now), p, node, now)
  {
    var after := Create(fs, p, node, now);
    forall q | q in fs.names
      ensures Exists(after, q) && after.names[q] == fs.names[q] != fs.next
      ensures if q == Parent(p) then Touched(NodeAt(fs, q), NodeAt(after, q), now) else NodeAt(after, q) == NodeAt(fs, q)
    {
      assert fs.names[q] in fs.nodes;
      assert IsDir(fs, Parent(p));
    }
  }

  /** A second name finds the same inode, which counts one name more; no other file is touched. */
  ghost predicate LinkMade(fs: Fs, after: Fs, first: Path, p: Path, now: int) {
    && p != [] && after.names.Keys == fs.names.Keys + {p}
    && Exists(fs, first) && NodeAt(fs, first).FileNode?
    && Exists(after, first) && Exists(after, p) && after.names[p] == after.names[first]
    && NodeAt(after, p) == NodeAt(fs, first).(links := NodeAt(fs, first).links + 1)
    && (forall q :: q in fs.names ==> Exists(fs, q) && Exists(after, q) && after.names[q] == fs.names[q])
    && forall q :: q in fs.names && fs.names[q] != fs.names[first] ==>
         if q == Parent(p) then Touched(NodeAt(fs, q), NodeAt(after, q), now) else NodeAt(after, q) == NodeAt(fs, q)
  }

  lemma HardLinkMeaning(fs: Fs, first: Path, p: Path, now: int)
    requires Valid(fs) && p != [] && p !in fs.names && IsDir(fs, Parent(p))
    requires Exists(fs, first) && NodeAt(fs, first).FileNode?
    ensures LinkMade(fs, HardLink(fs, first, p, now), first, p, now)
  {
    var after := HardLink(fs, first, p, now);
    forall q | q in fs.names ensures Exists(fs, q) && Exists(after, q) && after.names[q] == fs.names[q] {
      assert fs.names[q] in fs.nodes;
    }
    forall q | q in fs.names && fs.names[q] != fs.names[first]
      ensures if q == Parent(p) then Touched(NodeAt(fs, q), NodeAt(after, q), now) else NodeAt(after, q) == NodeAt(fs, q)
    {
      assert fs.names[q] in fs.nodes;
      assert IsDir(fs, Parent(p));
    }
  }

  // ----- the disk

  /** The calls of the operating system. A refused call changes nothing. Times are the clock's. */
  class Disk {
    var fs: Fs

    constructor (fs: Fs)
      ensures this.fs == fs
    {
      this.fs := fs;
    }

    method Mkdir(p: Path, mode: Mode) returns (ok: bool, ghost now: int)
      requires Valid(fs) && (p != [] ==> ValidPath(p))
      modifies this
      ensures Valid(fs)
      ensures ok <==> CanCreate(old(fs), p)
      ensures fs == if ok then Create(old(fs), p, DirNode(Metadata(mode, now, map[])), now) else old(fs)
    {
      var time: int := *;
      now := time;
      ok := CanCreate(fs, p);
      if ok {
        var node := DirNode(Metadata(mode, time, map[]));
        CreateKeepsValid(fs, p, node, time);
        fs := Create(fs, p, node, time);
      }
    }

    /** `open(p, "xb")` and the copy of `content` into it. */
    method WriteNew(p: Path, content: string) returns (ok: bool, ghost now: int)
      requires Valid(fs) && (p != [] ==> ValidPath(p))
      modifies this
      ensures Valid(fs)
      ensures ok <==> CanCreate(old(fs), p)
      ensures fs == if ok then Create(old(fs), p, FileNode(Metadata(NEW_FILE_MODE, now, map[]), content, 1), now)
                    else old(fs)
    {
      var time: int := *;
      now := time;
      ok := CanCreate(fs, p);
      if ok {
        var node := FileNode(Metadata(NEW_FILE_MODE, time, map[]), content, 1);
        CreateKeepsValid(fs, p, node, time);
        fs := Create(fs, p, node, time);
      }
    }

    method Symlink(p: Path, target: string) returns (ok: bool, ghost now: int)
      requires Valid(fs) && (p != [] ==> ValidPath(p))
      modifies this
      ensures Valid(fs)
      ensures ok <==> CanCreate(old(fs), p)
      ensures fs == if ok then Create(old(fs), p, LinkNode(Metadata(LINK_MODE, now, map[]), target), now)
                    else old(fs)
    {
      var time: int := *;
      now := time;
      ok := CanCreate(fs, p);
      if ok {
        var node := LinkNode(Metadata(LINK_MODE, time, map[]), target);
        CreateKeepsValid(fs, p, node, time);
        fs := Create(fs, p, node, time);
      }
    }

    method Link(first: Path, p: Path) returns (ok: bool, ghost now: int)
      requires Valid(fs) && (p != [] ==> ValidPath(p))
      modifies this
      ensures Valid(fs)
      ensures ok <==> Exists(old(fs), first) && NodeAt(old(fs), first).FileNode?
                      && Reachable(old(fs), first) && CanCreate(old(fs), p)
      ensures ok ==> fs == HardLink(old(fs), first, p, now)
      ensures !ok ==> fs == old(fs)
    {
      var time: int := *;
      now := time;
      ok := Exists(fs, first) && NodeAt(fs, first).FileNode? && Reachable(fs, first) && CanCreate(fs, p);
      if ok {
        HardLinkKeepsValid(fs, first, p, time);
        fs := HardLink(fs, first, p, time);
      }
    }

    /** `Manifest._apply_metadata`. */
    method ApplyMetadata(p: Path, meta: Metadata) returns (ok: bool)
      requires Valid(fs)
      modifies this
      ensures Valid(fs)
      ensures ok <==> Exists(old(fs), p) && Reachable(old(fs), p) && CanSetXattrs(NodeAt(old(fs), p), meta)
      ensures ok ==> fs == SetMetadata(old(fs), p, meta)
      ensures !ok ==> fs == old(fs)
    {
      ok := Exists(fs, p) && Reachable(fs, p) && CanSetXattrs(NodeAt(fs, p), meta);
      if ok {
        SetMetadataKeepsValid(fs, p, meta);
        fs := SetMetadata(fs, p, meta);
      }
    }
  }
}
