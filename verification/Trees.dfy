/** What a manifest records of a root: entries by path, with the relations the delta rests on. */
module Trees {
  import opened Wrappers

  /** A root-relative path as its list of names; the root itself is []. */
  type Path = seq<string>

  /** Permission bits. The owner's decide what this account may do; the rest are carried along. */
  datatype Mode = Mode(read: bool, write: bool, search: bool, rest: nat)

  datatype Metadata = Metadata(mode: Mode, mtime: int, xattrs: map<string, string>)

  /** A recorded content hash stands for the content, a recorded hard-link group for the set of
      member paths it hashes: both hashes are taken to be injective. */
  datatype Entry =
    | File(meta: Metadata, content: string, group: Option<set<Path>>)
    | Directory(meta: Metadata)
    | Symlink(meta: Metadata, target: string)

  type Entries = map<Path, Entry>

  datatype Manifest = Manifest(rootKey: string, root: Metadata, entries: Entries)

  predicate PlainName(name: string) {
    name != "" && name != "." && name != ".." && '/' !in name && '\0' !in name
  }

  predicate ValidPath(p: Path) {
    p != [] && forall k :: 0 <= k < |p| ==> PlainName(p[k])
  }

  function Parent(p: Path): Path
    requires p != []
  {
    p[..|p| - 1]
  }

  function Lookup(entries: Entries, p: Path): Option<Entry> {
    if p in entries then Some(entries[p]) else None
  }

  predicate IsDirectory(entries: Entries, p: Path) {
    p in entries && entries[p].Directory?
  }

  // ----- the state two entries are compared by

  datatype MetadataValue =
    | FileValue(mode: Mode, xattrs: map<string, string>, mtime: int, group: Option<set<Path>>)
    | SymlinkValue(mode: Mode, xattrs: map<string, string>, mtime: int)
    | DirectoryValue(mode: Mode, xattrs: map<string, string>)
    | RootValue(mode: Mode, xattrs: map<string, string>)

  datatype State = State(content: Option<string>, metadata: Option<MetadataValue>)

  function ContentHash(e: Option<Entry>): Option<string> {
    match e
    case Some(File(_, content, _)) => Some(content)
    case Some(Symlink(_, target)) => Some(target)
    case _ => None
  }

  function MetadataValueOf(e: Option<Entry>): Option<MetadataValue> {
    match e
    case None => None
    case Some(File(m, _, group)) => Some(FileValue(m.mode, m.xattrs, m.mtime, group))
    case Some(Symlink(m, _)) => Some(SymlinkValue(m.mode, m.xattrs, m.mtime))
    case Some(Directory(m)) => Some(DirectoryValue(m.mode, m.xattrs))
  }

  function StateOf(e: Option<Entry>): State {
    State(ContentHash(e), MetadataValueOf(e))
  }

  function RootState(m: Metadata): State {
    State(None, Some(RootValue(m.mode, m.xattrs)))
  }

  predicate Same(a: Option<Entry>, b: Option<Entry>) {
    StateOf(a) == StateOf(b)
  }

  predicate SameRoot(a: Metadata, b: Metadata) {
    RootState(a) == RootState(b)
  }

  /** The state compared at a path, which is the root's own metadata at []. */
  function StateIn(m: Manifest, p: Path): State {
    if p == [] then RootState(m.root) else StateOf(Lookup(m.entries, p))
  }

  /** An entry with the one thing comparison ignores, a directory's mtime, set to zero. */
  function Comparable(e: Option<Entry>): Option<Entry> {
    match e
    case Some(Directory(m)) => Some(Directory(m.(mtime := 0)))
    case _ => e
  }

  /** What comparison sees: everything about an entry, or a root, but a directory's mtime. */
  lemma SameIsEqualityUpToDirectoryMtime(a: Option<Entry>, b: Option<Entry>)
    ensures Same(a, b) <==> Comparable(a) == Comparable(b)
    ensures a.Some? && a.value.Directory? && b.Some? && b.value.Directory? ==>
              (SameRoot(a.value.meta, b.value.meta) <==> Same(a, b))
  {
    match (a, b) {
      case (Some(Directory(m)), Some(Directory(n))) =>
        assert m.(mtime := 0) == n.(mtime := 0) <==> m.mode == n.mode && m.xattrs == n.xattrs;
      case _ =>
    }
  }

  /** Equal up to directory mtimes, at every path. */
  ghost predicate SameEntries(a: Entries, b: Entries) {
    forall p :: Same(Lookup(a, p), Lookup(b, p))
  }

  // ----- what a captured manifest satisfies

  /** A hard-link group is named by its exact member set (two or more), and its members, being one
      inode, share content and metadata. */
  ghost predicate GroupsWellFormed(entries: Entries) {
    forall p :: p in entries && entries[p].File? && entries[p].group.Some? ==>
      GroupAt(entries, p)
  }

  ghost predicate GroupAt(entries: Entries, p: Path)
    requires p in entries && entries[p].File? && entries[p].group.Some?
  {
    var group := entries[p].group.value;
    && p in group
    && |group| > 1
    && forall q :: q in group ==> q in entries && entries[q] == entries[p]
  }

  ghost predicate ParentClosed(entries: Entries) {
    forall p :: p in entries && |p| > 1 ==> IsDirectory(entries, Parent(p))
  }

  ghost predicate ValidPaths(entries: Entries) {
    forall p :: p in entries ==> ValidPath(p)
  }

  ghost predicate WellFormed(entries: Entries) {
    ValidPaths(entries) && ParentClosed(entries) && GroupsWellFormed(entries)
  }
}
