/** `Manifest.verify_content`: whether a payload still holds what its manifest records, and what that
    check does not see. */
module Verifying {
  import opened Wrappers
  import opened Trees
  import opened Filesystem
  import opened Capturing

  /** The walk lists a directory it may read, and passes over one it may not. */
  predicate IsListed(fs: Fs, dir: Path) {
    IsDir(fs, dir) && NodeAt(fs, dir).meta.mode.read
  }

  /** What the walk observes: the entries whose directories, up to the root, are all listed. */
  predicate Seen(fs: Fs, p: Path) {
    p != [] && p in fs.names && forall k | 0 <= k < |p| :: IsListed(fs, p[..k])
  }

  function Observed(fs: Fs): set<Path> {
    set p | p in fs.names && Seen(fs, p)
  }

  /** Each entry observed is also stat'ed, which needs its directory searchable. */
  predicate Statable(fs: Fs) {
    forall p | p in Observed(fs) :: IsListed(fs, Parent(p)) && NodeAt(fs, Parent(p)).meta.mode.search
  }

  predicate EntryMatches(fs: Fs, p: Path, e: Entry) {
    Exists(fs, p) &&
    match e
    case File(_, content, _) => NodeAt(fs, p).FileNode? && NodeAt(fs, p).meta.mode.read && NodeAt(fs, p).content == content
    case Directory(_) => NodeAt(fs, p).DirNode?
    case Symlink(_, target) => NodeAt(fs, p).LinkNode? && NodeAt(fs, p).target == target
  }

  predicate InGroup(entries: Entries, p: Path, group: set<Path>) {
    p in entries && entries[p].File? && entries[p].group == Some(group)
  }

  /** What the check accepts: the same paths, types, contents and targets, and no group broken up. */
  ghost predicate ContentMatches(entries: Entries, fs: Fs) {
    && Statable(fs) && Observed(fs) == entries.Keys
    && (forall p :: p in entries ==> EntryMatches(fs, p, entries[p]))
    && (forall p, q, g :: InGroup(entries, p, g) && InGroup(entries, q, g) ==> fs.names[p] == fs.names[q])
  }

  /** The groups met among `done`, each with the inode of its members. */
  ghost predicate GroupsMet(entries: Entries, fs: Fs, done: set<Path>, groups: map<set<Path>, nat>) {
    && (forall p, g :: p in done && InGroup(entries, p, g) ==>
          g in groups && p in fs.names && groups[g] == fs.names[p])
    && (forall g :: g in groups ==> exists p :: p in done && InGroup(entries, p, g))
  }

  lemma GroupsMetMore(entries: Entries, fs: Fs, done: set<Path>, groups: map<set<Path>, nat>, p: Path, g: set<Path>)
    requires GroupsMet(entries, fs, done, groups) && InGroup(entries, p, g) && p in fs.names
    requires g in groups ==> groups[g] == fs.names[p]
    ensures GroupsMet(entries, fs, done + {p}, groups[g := fs.names[p]])
  {
    var after := groups[g := fs.names[p]];
    forall h | h in after ensures exists q :: q in done + {p} && InGroup(entries, q, h) {
      if h == g {
        assert p in done + {p};
      } else {
        var q :| q in done && InGroup(entries, q, h);
        assert q in done + {p};
      }
    }
  }

  lemma GroupsMetSame(entries: Entries, fs: Fs, done: set<Path>, groups: map<set<Path>, nat>, p: Path)
    requires GroupsMet(entries, fs, done, groups) && forall g :: !InGroup(entries, p, g)
    ensures GroupsMet(entries, fs, done + {p}, groups)
  {
    forall h | h in groups ensures exists q :: q in done + {p} && InGroup(entries, q, h) {
      var q :| q in done && InGroup(entries, q, h);
      assert q in done + {p};
    }
  }

  /** One entry of the manifest against what was observed. */
  method CheckEntry(entries: Entries, fs: Fs, p: Path, groups: map<set<Path>, nat>, ghost done: set<Path>)
    returns (ok: bool, after: map<set<Path>, nat>)
    requires p in entries && GroupsMet(entries, fs, done, groups)
    ensures ok ==> EntryMatches(fs, p, entries[p]) && GroupsMet(entries, fs, done + {p}, after)
    ensures !ok ==> !ContentMatches(entries, fs)
  {
    after := groups;
    if !EntryMatches(fs, p, entries[p]) {
      return false, groups;
    }
    if entries[p].File? && entries[p].group.Some? {
      var group, inode := entries[p].group.value, fs.names[p];
      if group in groups && groups[group] != inode {
        return false, groups;
      }
      GroupsMetMore(entries, fs, done, groups, p, group);
      return true, groups[group := inode];
    }
    GroupsMetSame(entries, fs, done, groups, p);
    return true, groups;
  }

  /** `verify_content`. */
  method VerifyContent(entries: Entries, fs: Fs) returns (ok: bool)
    ensures ok <==> ContentMatches(entries, fs)
  {
    if !Statable(fs) || Observed(fs) != entries.Keys {
      return false;
    }
    var groups: map<set<Path>, nat> := map[];
    var rest := entries.Keys;
    while rest != {}
      invariant rest <= entries.Keys
      invariant forall p :: p in entries && p !in rest ==> EntryMatches(fs, p, entries[p])
      invariant GroupsMet(entries, fs, entries.Keys - rest, groups)
      decreases |rest|
    {
      var p :| p in rest;
      assert entries.Keys - rest + {p} == entries.Keys - (rest - {p});
      ok, groups := CheckEntry(entries, fs, p, groups, entries.Keys - rest);
      if !ok {
        return false;
      }
      rest := rest - {p};
    }
    assert entries.Keys - rest == entries.Keys;
    return true;
  }

  // ----- what acceptance means

  /** Every directory in the tree is listed. */
  ghost predicate AllListed(fs: Fs) {
    forall d :: d in fs.names && IsDir(fs, d) ==> IsListed(fs, d)
  }

  lemma {:induction false} SeenWhenListed(fs: Fs, p: Path)
    requires Valid(fs) && AllListed(fs) && p in fs.names && p != []
    ensures Seen(fs, p)
    decreases |p|
  {
    var up := Parent(p);
    assert IsDir(fs, up);
    if up != [] { SeenWhenListed(fs, up); }
    forall k | 0 <= k < |p| ensures IsListed(fs, p[..k]) {
      if k < |up| {
        assert p[..k] == up[..k];
      } else {
        assert p[..k] == up;
      }
    }
  }

  /** The walk observes everything exactly when no directory that holds something is passed over. */
  lemma EverythingIsObserved(fs: Fs)
    requires Valid(fs)
    ensures Observed(fs) == NonRoot(fs) <==> forall p :: p in NonRoot(fs) ==> IsListed(fs, Parent(p))
  {
    if Observed(fs) == NonRoot(fs) {
      forall p | p in NonRoot(fs) ensures IsListed(fs, Parent(p)) {
        assert p in Observed(fs);
      }
    }
    if forall p :: p in NonRoot(fs) ==> IsListed(fs, Parent(p)) {
      forall p | p in NonRoot(fs) ensures p in Observed(fs) {
        SeenUnderListed(fs, p);
      }
    }
  }

  lemma {:induction false} SeenUnderListed(fs: Fs, p: Path)
    requires Valid(fs) && p in NonRoot(fs)
    requires forall q :: q in NonRoot(fs) ==> IsListed(fs, Parent(q))
    ensures Seen(fs, p)
    decreases |p|
  {
    var up := Parent(p);
    if up != [] { SeenUnderListed(fs, up); }
    forall k | 0 <= k < |p| ensures IsListed(fs, p[..k]) {
      if k < |up| {
        assert p[..k] == up[..k];
      } else {
        assert p[..k] == up;
      }
    }
  }

  /** Another tree that agrees on the names of this one, on their inodes, and on all but their times. */
  ghost predicate Extends(fs: Fs, after: Fs) {
    forall q :: q in fs.names && Exists(fs, q) ==>
      && Exists(after, q) && after.names[q] == fs.names[q]
      && NodeAt(after, q).(meta := NodeAt(fs, q).meta) == NodeAt(fs, q)
      && NodeAt(after, q).meta.mode == NodeAt(fs, q).meta.mode
  }

  lemma CreateExtends(fs: Fs, p: Path, node: Node, now: int)
    requires Valid(fs) && p !in fs.names && p != [] && IsDir(fs, Parent(p))
    ensures Extends(fs, Create(fs, p, node, now))
  {
    var after := Create(fs, p, node, now);
    forall q | q in fs.names && Exists(fs, q)
      ensures Exists(after, q) && after.names[q] == fs.names[q]
      ensures NodeAt(after, q).(meta := NodeAt(fs, q).meta) == NodeAt(fs, q)
      ensures NodeAt(after, q).meta.mode == NodeAt(fs, q).meta.mode
    {
      assert fs.names[q] < fs.next;
    }
  }

  lemma ExtensionIsSeen(fs: Fs, after: Fs, p: Path)
    requires Valid(fs) && Extends(fs, after) && after.names.Keys == fs.names.Keys + {p}
    requires p != [] && p !in fs.names && IsDir(fs, Parent(p)) && !IsListed(fs, Parent(p))
    ensures Observed(after) == Observed(fs) && (Statable(fs) ==> Statable(after))
  {
    assert p[..|p| - 1] == Parent(p);
    assert !Seen(after, p);
    forall q | q in fs.names ensures Seen(after, q) == Seen(fs, q) {
      SeenThroughExisting(fs, after, q);
    }
    if Statable(fs) { ExtensionIsStatable(fs, after); }
  }

  lemma ExtensionIsStatable(fs: Fs, after: Fs)
    requires Valid(fs) && Extends(fs, after) && Observed(after) == Observed(fs) && Statable(fs)
    ensures Statable(after)
  {
    forall q | q in Observed(after) ensures IsListed(after, Parent(q)) && NodeAt(after, Parent(q)).meta.mode.search {
      assert IsListed(fs, Parent(q)) && NodeAt(fs, Parent(q)).meta.mode.search;
    }
  }

  /** What a directory the account may not list holds goes unseen: an accepted payload can hold more
      than its manifest records, below such a directory. */
  lemma AddingUnseen(entries: Entries, fs: Fs, p: Path, node: Node, now: int)
    requires Valid(fs) && ContentMatches(entries, fs) && p !in fs.names && ValidPath(p)
    requires IsDir(fs, Parent(p)) && !IsListed(fs, Parent(p))
    ensures Valid(Create(fs, p, node, now)) && ContentMatches(entries, Create(fs, p, node, now))
    ensures p in NonRoot(Create(fs, p, node, now)) && p !in entries
  {
    var after := Create(fs, p, node, now);
    CreateKeepsValid(fs, p, node, now);
    CreateExtends(fs, p, node, now);
    ExtensionIsSeen(fs, after, p);
    forall q | q in entries ensures EntryMatches(after, q, entries[q]) && after.names[q] == fs.names[q] {
      assert EntryMatches(fs, q, entries[q]);
    }
  }

  lemma {:induction false} Ancestors(fs: Fs, q: Path, k: nat)
    requires Valid(fs) && q in fs.names && k <= |q|
    ensures q[..k] in fs.names
    decreases |q|
  {
    if k < |q| {
      assert IsDir(fs, Parent(q));
      Ancestors(fs, Parent(q), k);
      assert Parent(q)[..k] == q[..k];
    } else {
      assert q[..k] == q;
    }
  }

  lemma SeenThroughExisting(fs: Fs, after: Fs, q: Path)
    requires Valid(fs) && Extends(fs, after) && q in fs.names
    ensures Seen(after, q) == Seen(fs, q)
  {
    forall k | 0 <= k < |q| ensures IsListed(after, q[..k]) == IsListed(fs, q[..k]) {
      Ancestors(fs, q, k);
    }
  }

  predicate SameContent(a: Entry, b: Entry) {
    match (a, b)
    case (File(_, x, _), File(_, y, _)) => x == y
    case (Directory(_), Directory(_)) => true
    case (Symlink(_, x), Symlink(_, y)) => x == y
    case _ => false
  }

  /** An accepted payload that can be captured holds what the manifest records, but for metadata and
      for links between files the manifest does not link; so its capture is the manifest's entries
      exactly when those agree as well. */
  lemma AcceptedMeansSame(entries: Entries, fs: Fs)
    requires Valid(fs) && AllRecordable(fs) && WellFormed(entries) && ContentMatches(entries, fs)
    ensures var found := Snapshot(fs);
            && found.Keys == entries.Keys
            && (forall p :: p in entries ==> SameContent(entries[p], found[p]) && GroupWithin(entries, fs, p))
            && (found == entries <==> forall p :: p in entries ==>
                  && entries[p].meta == found[p].meta
                  && (entries[p].File? ==> entries[p].group == found[p].group))
  {
    var found := Snapshot(fs);
    AcceptedKeys(entries, fs);
    forall p | p in entries ensures SameContent(entries[p], found[p]) && GroupWithin(entries, fs, p) {
      assert EntryMatches(fs, p, entries[p]);
      GroupIsWithin(entries, fs, p);
    }
    SameUpToMetadata(entries, found);
  }

  lemma AcceptedKeys(entries: Entries, fs: Fs)
    requires Valid(fs) && AllRecordable(fs) && ContentMatches(entries, fs)
    ensures Snapshot(fs).Keys == entries.Keys
  {
    assert AllListed(fs) by {
      forall d | d in fs.names && IsDir(fs, d) ensures IsListed(fs, d) {
        assert Recordable(fs, d);
      }
    }
    forall p | p in NonRoot(fs) ensures p in Observed(fs) {
      SeenWhenListed(fs, p);
    }
  }

  lemma SameUpToMetadata(entries: Entries, found: Entries)
    requires found.Keys == entries.Keys
    requires forall p :: p in entries ==> SameContent(entries[p], found[p]) && entries[p].File? == found[p].File?
    ensures found == entries <==> forall p :: p in entries ==>
              entries[p].meta == found[p].meta && (entries[p].File? ==> entries[p].group == found[p].group)
  {
    if forall p :: p in entries ==>
         entries[p].meta == found[p].meta && (entries[p].File? ==> entries[p].group == found[p].group)
    {
      forall p | p in entries ensures found[p] == entries[p] {
        assert SameContent(entries[p], found[p]);
      }
    }
  }

  /** The files a manifest links are one file in the tree. */
  ghost predicate GroupWithin(entries: Entries, fs: Fs, p: Path)
    requires p in entries && p in fs.names
  {
    entries[p].File? && entries[p].group.Some? ==> entries[p].group.value <= Members(fs, fs.names[p])
  }

  lemma GroupIsWithin(entries: Entries, fs: Fs, p: Path)
    requires ContentMatches(entries, fs) && GroupsWellFormed(entries) && p in entries && p in fs.names
    ensures GroupWithin(entries, fs, p)
  {
    if entries[p].File? && entries[p].group.Some? {
      var g := entries[p].group.value;
      assert GroupAt(entries, p);
      forall q | q in g ensures q in Members(fs, fs.names[p]) {
        assert InGroup(entries, p, g) && InGroup(entries, q, g);
        assert EntryMatches(fs, q, entries[q]);
      }
    }
  }

  /** What a capture recorded, the check accepts of the same tree. */
  lemma CapturedIsAccepted(fs: Fs)
    requires Valid(fs) && AllRecordable(fs)
    ensures ContentMatches(Snapshot(fs), fs)
  {
    var entries := Snapshot(fs);
    assert AllListed(fs) by {
      forall d | d in fs.names && IsDir(fs, d) ensures IsListed(fs, d) {
        assert Recordable(fs, d);
      }
    }
    forall p | p in NonRoot(fs) ensures p in Observed(fs) && NodeAt(fs, Parent(p)).meta.mode.search {
      SeenWhenListed(fs, p);
      assert Recordable(fs, Parent(p)) && p in Children(fs, Parent(p));
    }
    forall p | p in entries ensures EntryMatches(fs, p, entries[p]) {
      assert Recordable(fs, p);
    }
    forall p, q, g | InGroup(entries, p, g) && InGroup(entries, q, g) ensures fs.names[p] == fs.names[q] {
      assert g == Members(fs, fs.names[p]) && g == Members(fs, fs.names[q]);
      assert p in g;
    }
  }
}
