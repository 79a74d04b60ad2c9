/** Captured trees end to end: what was captured can be rebuilt, and `Delta.merge` down to the disk. */
module Staging {
  import opened Wrappers
  import opened Trees
  import opened Symlinks
  import opened Filesystem
  import opened Capturing
  import opened Merge
  import opened Delta
  import opened Materialize

  /** Symlinks as the system makes them: a fixed mode, no `user.` attributes. */
  ghost predicate SystemLinks(fs: Fs) {
    forall p :: Exists(fs, p) && NodeAt(fs, p).LinkNode? ==>
      NodeAt(fs, p).meta.mode == LINK_MODE && !HasUserXattrs(NodeAt(fs, p).meta)
  }

  function Contents(fs: Fs): map<Path, string> {
    map p | p in fs.names && Exists(fs, p) && NodeAt(fs, p).FileNode? :: NodeAt(fs, p).content
  }

  /** Everything the materializer asks of a manifest holds of a captured one. */
  lemma CapturedTreesMaterialize(fs: Fs)
    requires Valid(fs) && SystemLinks(fs) && AllRecordable(fs)
    ensures var entries := Snapshot(fs);
            && WellFormed(entries) && LinksAsRecorded(entries)
            && Capturable(entries, RootMetadata(fs)) && SourceMatches(entries, Contents(fs))
  {
    SnapshotIsWellFormed(fs);
    CapturedContents(fs);
    CapturedModes(fs);
  }

  lemma CapturedContents(fs: Fs)
    requires Valid(fs) && SystemLinks(fs) && AllRecordable(fs)
    ensures LinksAsRecorded(Snapshot(fs)) && SourceMatches(Snapshot(fs), Contents(fs)) && TargetsSafe(Snapshot(fs))
  {
    var entries := Snapshot(fs);
    forall p | p in entries
      ensures entries[p].Symlink? ==> SafeTarget(p, entries[p].target)
      ensures entries[p].Symlink? ==> entries[p].meta.mode == LINK_MODE && !HasUserXattrs(entries[p].meta)
      ensures entries[p].File? ==> p in Contents(fs) && Contents(fs)[p] == entries[p].content
    {
      CapturedEntry(fs, p);
    }
  }

  lemma CapturedModes(fs: Fs)
    requires Valid(fs) && SystemLinks(fs) && AllRecordable(fs) && TargetsSafe(Snapshot(fs))
    ensures Capturable(Snapshot(fs), RootMetadata(fs))
  {
    var entries := Snapshot(fs);
    forall p | p in entries
      ensures !entries[p].Symlink? ==> entries[p].meta.mode.read
      ensures |p| > 1 && Parent(p) in entries ==> entries[Parent(p)].meta.mode.search
    {
      CapturedEntry(fs, p);
    }
    CapturedRoot(fs);
  }

  lemma CapturedRoot(fs: Fs)
    requires Valid(fs) && AllRecordable(fs)
    ensures RootListable(Snapshot(fs), RootMetadata(fs))
  {
    var entries := Snapshot(fs);
    assert forall p :: p in fs.names <==> p in entries || p == [];
    assert fs.names.Keys == entries.Keys + {[]};
    RootChildren(fs, entries);
    assert Recordable(fs, []);
  }

  lemma CapturedEntry(fs: Fs, p: Path)
    requires Valid(fs) && SystemLinks(fs) && AllRecordable(fs)
    requires p in fs.names && p != []
    ensures var e := EntryOf(fs, p);
            && (e.Symlink? ==> SafeTarget(p, e.target) && e.meta.mode == LINK_MODE && !HasUserXattrs(e.meta))
            && (!e.Symlink? ==> e.meta.mode.read)
            && (e.File? ==> p in Contents(fs) && Contents(fs)[p] == e.content)
    ensures IsDir(fs, Parent(p)) && NodeAt(fs, Parent(p)).meta.mode.search
  {
    assert Recordable(fs, p);
    assert Recordable(fs, Parent(p)) && p in Children(fs, Parent(p));
  }

  /** Capture, materialize, capture again: the copy of a captured tree is captured as the same
      manifest, exactly when the tree has no hard-linked file that is read-only and carries `user.`
      attributes. */
  method Copy(source: Fs, disk: Disk, rootKey: string) returns (r: Result<Manifest>)
    requires Valid(source) && SystemLinks(source) && AllRecordable(source)
    requires Empty(disk.fs)
    modifies disk
    ensures r.Ok? <==> LinkedFilesFit(Snapshot(source))
    ensures r.Ok? ==> Valid(disk.fs) && Snapshot(disk.fs) == Snapshot(source)
                      && RootMetadata(disk.fs) == RootMetadata(source)
  {
    CapturedTreesMaterialize(source);
    var entries := Capture(source);
    r := MaterializeManifest(disk, Manifest(rootKey, RootMetadata(source), entries.value), Contents(source));
  }

  /** There are such trees: two names of a read-only file with a `user.` attribute, in a directory. They
      are captured, and their manifest is refused when it is materialized. */
  lemma LinkedReadOnlyFile(fs: Fs, a: string, b: string, root: Metadata, meta: Metadata, name: string, content: string)
    requires PlainName(a) && PlainName(b) && a != b
    requires root.mode.read && root.mode.search && meta.mode.read && !meta.mode.write
    requires name in meta.xattrs && "user." <= name
    requires fs == Fs(map[[] := 0, [a] := 1, [b] := 1], map[0 := DirNode(root), 1 := FileNode(meta, content, 2)], 2)
    ensures Valid(fs) && SystemLinks(fs) && AllRecordable(fs) && !LinkedFilesFit(Snapshot(fs))
  {
    assert [a][0] != [b][0];
    assert forall p :: p in fs.names <==> p == [] || p == [a] || p == [b];
    assert Parent([a]) == [] && Parent([b]) == [];
    assert Members(fs, 1) == {[a], [b]};
    assert EntryOf(fs, [a]) == File(meta, content, Some({[a], [b]}));
    assert !Fits(Snapshot(fs)[[a]].meta);
  }

  datatype MergeResult =
    | Conflicted(paths: seq<Path>)
    | StagedTree(tree: Manifest, applied: seq<Operation>)

  /** A manifest this account captured, with its files where the manifest says. */
  ghost predicate CapturedAt(m: Manifest, source: map<Path, string>) {
    && WellFormed(m.entries) && LinksAsRecorded(m.entries) && Capturable(m.entries, m.root)
    && SourceMatches(m.entries, source)
  }

  /** What staging a conflict-free merge needs beyond the absence of conflict: no orphan, directories
      that can be filled with their recorded modes, attributes that fit, and a root that can be listed. */
  ghost predicate Stageable(merged: Manifest) {
    Buildable(merged.entries, true) && RootListable(merged.entries, merged.root)
  }

  /** `Delta.merge`: conflicts, and then nothing is written; or the staged tree, captured from disk,
      is the merged tree exactly. It is staged exactly when it is stageable. */
  method MergeOnto(disk: Disk, base: Manifest, current: Manifest, candidate: Manifest,
                   currentSource: map<Path, string>, candidateSource: map<Path, string>)
    returns (r: Result<MergeResult>)
    requires Empty(disk.fs)
    requires WellFormed(base.entries)
    requires CapturedAt(current, currentSource) && CapturedAt(candidate, candidateSource)
    requires base.rootKey == current.rootKey == candidate.rootKey
    modifies disk
    ensures !ConflictFree(base, current, candidate) ==> r.Ok? && r.value.Conflicted? && disk.fs == old(disk.fs)
    ensures ConflictFree(base, current, candidate) ==>
              (r.Ok? <==> Stageable(Merged(base, current, candidate)))
    ensures ConflictFree(base, current, candidate) && r.Ok? ==>
              r.value.StagedTree? && r.value.tree == Merged(base, current, candidate)
    ensures r.Ok? && r.value.Conflicted? ==>
              r.value.paths != [] && forall p :: p in r.value.paths <==> BothChanged(base, current, candidate, p)
    ensures r.Ok? && r.value.StagedTree? ==>
              && (forall p :: !BothChanged(base, current, candidate, p))
              && FromTheChanged(base, current, candidate, r.value.tree.entries, r.value.tree.root)
              && forall i :: 0 <= i < |r.value.applied| ==> SaysWhatChanged(base, candidate, r.value.applied[i])
  {
    var outcome := MergeEntries(base, current, candidate);
    if outcome.value.Conflicts? {
      return Ok(Conflicted(outcome.value.paths));
    }
    var staged := outcome.value.staged;
    DeltaSaysWhatChanged(base, candidate, outcome.value.applied);
    MergedIsCaptured(base, current, candidate, currentSource, candidateSource, staged);
    var source := SourceOf(staged, currentSource, candidateSource);
    var error := Build(disk, staged.entries, staged.root, source, staged.sources, true);
    if error.Some? {
      return Refused(error.value);
    }
    var captured := Capture(disk.fs);
    if captured.Refused? {
      return Refused(captured.code);
    }
    return Ok(StagedTree(Manifest(current.rootKey, RootMetadata(disk.fs), captured.value), outcome.value.applied));
  }

  /** Where each staged file is copied from. */
  function SourceOf(staged: Staged, current: map<Path, string>, candidate: map<Path, string>): map<Path, string> {
    map p | p in staged.sources && (if staged.sources[p].FromCandidate? then p in candidate else p in current)
      :: if staged.sources[p].FromCandidate? then candidate[p] else current[p]
  }

  lemma MergedIsCaptured(base: Manifest, current: Manifest, candidate: Manifest,
                         currentSource: map<Path, string>, candidateSource: map<Path, string>, staged: Staged)
    requires WellFormed(base.entries)
    requires CapturedAt(current, currentSource) && CapturedAt(candidate, candidateSource)
    requires ConflictFree(base, current, candidate) && IsStaged(base, current, candidate, staged)
    ensures ValidPaths(staged.entries) && GroupsWellFormed(staged.entries) && LinksAsRecorded(staged.entries)
    ensures Unmixed(staged.entries, staged.sources)
    ensures SourceMatches(staged.entries, SourceOf(staged, currentSource, candidateSource))
    ensures TargetsSafe(staged.entries)
    ensures Stageable(Merged(base, current, candidate)) ==> Capturable(staged.entries, staged.root)
  {
    HardLinksSurviveMerge(base, current, candidate);
    var m := staged.entries;
    var source := SourceOf(staged, currentSource, candidateSource);
    forall p | p in m
      ensures ValidPath(p)
      ensures m[p].Symlink? ==> SafeTarget(p, m[p].target) && m[p].meta.mode == LINK_MODE && !HasUserXattrs(m[p].meta)
      ensures !m[p].Symlink? ==> m[p].meta.mode.read
      ensures m[p].File? ==> p in source && source[p] == m[p].content
    {
      if staged.sources[p].FromCandidate? {
        StagedEntry(base, current, candidate, staged, p);
        KeptEntry(candidate, candidateSource, p);
      } else {
        StagedEntry(base, current, candidate, staged, p);
        KeptEntry(current, currentSource, p);
      }
    }
    forall p, q | p in m && q in m && Linked(m[p], m[q]) ensures staged.sources[p] == staged.sources[q] {
      StagedGroupsAreUnmixed(base, current, candidate, staged, p, q);
    }
    if Stageable(Merged(base, current, candidate)) {
      forall p | p in m && |p| > 1 && Parent(p) in m ensures m[Parent(p)].meta.mode.search {
        assert ParentFillable(m, p, true);
      }
    }
  }

  lemma StagedEntry(base: Manifest, current: Manifest, candidate: Manifest, staged: Staged, p: Path)
    requires IsStaged(base, current, candidate, staged) && p in staged.entries
    ensures p in staged.sources
    ensures staged.sources[p].FromCandidate? ==> p in candidate.entries && candidate.entries[p] == staged.entries[p]
    ensures staged.sources[p].FromCurrent? ==> p in current.entries && current.entries[p] == staged.entries[p]
  {
    assert Lookup(staged.entries, p) == Some(staged.entries[p]);
  }

  lemma KeptEntry(m: Manifest, source: map<Path, string>, p: Path)
    requires CapturedAt(m, source) && p in m.entries
    ensures var e := m.entries[p];
            && ValidPath(p)
            && (e.Symlink? ==> SafeTarget(p, e.target) && e.meta.mode == LINK_MODE && !HasUserXattrs(e.meta))
            && (!e.Symlink? ==> e.meta.mode.read)
            && (e.File? ==> p in source && source[p] == e.content)
  {
  }

  /** A merge reported free of conflict still cannot be staged where one side added an entry under a
      directory the other side removed. */
  lemma OrphansAreNotStageable(base: Manifest, current: Manifest, candidate: Manifest)
    requires WellFormed(base.entries) && WellFormed(current.entries) && WellFormed(candidate.entries)
    requires ConflictFree(base, current, candidate) && Orphaned(base.entries, current.entries, candidate.entries)
    ensures !Stageable(Merged(base, current, candidate))
  {
    ParentClosureOfMerge(base, current, candidate);
    var m := Merged(base, current, candidate).entries;
    MergedPathsValid(base, current, candidate);
    if Stageable(Merged(base, current, candidate)) {
      BuildableIsClosed(m, true);
    }
  }

  lemma MergedPathsValid(base: Manifest, current: Manifest, candidate: Manifest)
    requires ValidPaths(current.entries) && ValidPaths(candidate.entries)
    ensures ValidPaths(Merged(base, current, candidate).entries)
  {
    var m := Merged(base, current, candidate).entries;
    forall p | p in m ensures ValidPath(p) {
      assert Lookup(m, p) == Lookup(candidate.entries, p) || Lookup(m, p) == Lookup(current.entries, p);
    }
  }

  /** Nor where a directory that keeps an entry is recorded read-only, though the same tree can be
      materialized from its own manifest: there the mode is set only after the directory is filled. */
  lemma ReadOnlyDirectoryIsNotStageable(entries: Entries, root: Metadata, dir: string, name: string, ro: Metadata, file: Metadata)
    requires PlainName(dir) && PlainName(name) && !ro.mode.write
    requires entries.Keys == {[dir], [dir, name]}
    requires entries[[dir]] == Directory(ro) && entries[[dir, name]] == File(file, "", None)
    ensures WellFormed(entries) && Buildable(entries, false) && !Buildable(entries, true)
  {
    var p := [dir, name];
    assert Parent(p) == [dir];
    assert forall q :: q in entries ==> q == [dir] || q == p;
    assert !ParentFillable(entries, p, true);
  }
}
