/** Which link targets can lead out of a tree whose other links all pass the check. */
module Containment {
  import opened Text
  import opened Trees
  import opened Symlinks

  /** A tree with this link, all of whose other links pass the check. */
  ghost predicate TreeWith(entries: Entries, relative: Path, target: string) {
    && ValidPaths(entries) && ParentClosed(entries)
    && relative in entries && entries[relative].Symlink? && entries[relative].target == target
    && forall p :: p in entries && p != relative && entries[p].Symlink? ==> SafeTarget(p, entries[p].target)
  }

  /** Opening the link, in so many steps, leads out of the root. */
  predicate Escapes(entries: Entries, relative: Path, steps: nat)
    requires relative != []
  {
    Run(entries, At(Parent(relative), [relative[|relative| - 1]]), steps) == Escaped
  }

  /** Opening the link leaves the root of no such tree. */
  ghost predicate NeverEscapes(relative: Path, target: string)
    requires relative != []
  {
    forall entries, steps :: TreeWith(entries, relative, target) ==> !Escapes(entries, relative, steps)
  }

  /** Followed from a directory on the link's own path, the components stay within the root whatever else
      the tree holds: on that path there are only real directories and, at its end, the link, which then
      leads to itself for ever; a name off the path can be a link to the root, so no climb may follow it. */
  predicate StaysIn(relative: Path, dir: Path, pending: seq<string>)
    requires relative != []
    decreases |pending|
  {
    if pending == [] then true
    else if pending[0] == "" || pending[0] == "." then StaysIn(relative, dir, pending[1..])
    else if pending[0] == ".." then dir != [] && StaysIn(relative, Parent(dir), pending[1..])
    else if dir + [pending[0]] == relative then true
    else if dir + [pending[0]] <= relative then StaysIn(relative, dir + [pending[0]], pending[1..])
    else NoClimb(pending[1..])
  }

  /** The components, so followed, come to the link itself. */
  predicate ComesBack(relative: Path, dir: Path, pending: seq<string>)
    requires relative != []
    decreases |pending|
  {
    if pending == [] then false
    else if pending[0] == "" || pending[0] == "." then ComesBack(relative, dir, pending[1..])
    else if pending[0] == ".." then dir != [] && ComesBack(relative, Parent(dir), pending[1..])
    else if dir + [pending[0]] == relative then true
    else dir + [pending[0]] <= relative && ComesBack(relative, dir + [pending[0]], pending[1..])
  }

  /** How far the components lead along the link's own path, and what is left from there on. */
  function Lead(relative: Path, dir: Path, pending: seq<string>): (Path, seq<string>)
    decreases |pending|
  {
    if pending == [] then (dir, [])
    else if pending[0] == "" || pending[0] == "." then Lead(relative, dir, pending[1..])
    else if pending[0] == ".." then (if dir == [] then (dir, pending) else Lead(relative, Parent(dir), pending[1..]))
    else if dir + [pending[0]] < relative then Lead(relative, dir + [pending[0]], pending[1..])
    else (dir, pending)
  }

  // ----- walking

  lemma {:induction false} RunAdds(entries: Entries, walk: Walk, a: nat, b: nat)
    ensures Run(entries, walk, a + b) == Run(entries, Run(entries, walk, a), b)
    decreases a
  {
    if a > 0 { RunAdds(entries, Step(entries, walk), a - 1, b); }
  }

  lemma {:induction false} LeadFacts(relative: Path, dir: Path, pending: seq<string>)
    requires relative != [] && dir <= Parent(relative) && !StaysIn(relative, dir, pending)
    ensures var (at, rest) := Lead(relative, dir, pending);
            && at <= Parent(relative) && rest != [] && (forall part :: part in rest ==> part in pending)
            && (rest[0] == ".." ==> at == [])
            && (rest[0] != ".." ==>
                  rest[0] != "" && rest[0] != "." && !(at + [rest[0]] <= relative) && !NoClimb(rest[1..]))
    decreases |pending|
  {
    if pending[0] == "" || pending[0] == "." {
      LeadFacts(relative, dir, pending[1..]);
    } else if pending[0] == ".." {
      if dir != [] { LeadFacts(relative, Parent(dir), pending[1..]); }
    } else if dir + [pending[0]] < relative {
      LeadFacts(relative, dir + [pending[0]], pending[1..]);
    }
  }

  lemma {:induction false} LeadRuns(entries: Entries, relative: Path, target: string, dir: Path, pending: seq<string>)
    returns (steps: nat)
    requires relative != [] && TreeWith(entries, relative, target) && dir <= Parent(relative)
    ensures var (at, rest) := Lead(relative, dir, pending); Run(entries, At(dir, pending), steps) == At(at, rest)
    decreases |pending|
  {
    steps := 0;
    if pending != [] {
      if pending[0] == "" || pending[0] == "." {
        steps := LeadRuns(entries, relative, target, dir, pending[1..]);
        steps := steps + 1;
      } else if pending[0] == ".." {
        if dir != [] {
          steps := LeadRuns(entries, relative, target, Parent(dir), pending[1..]);
          steps := steps + 1;
        }
      } else if dir + [pending[0]] < relative {
        OwnPath(entries, relative, target, dir + [pending[0]]);
        steps := LeadRuns(entries, relative, target, dir + [pending[0]], pending[1..]);
        steps := steps + 1;
      }
    }
  }

  /** The directories on the link's path are real ones. */
  lemma {:induction false} OwnPath(entries: Entries, relative: Path, target: string, p: Path)
    requires relative != [] && TreeWith(entries, relative, target) && p < relative && p != []
    ensures IsDirectory(entries, p)
    decreases |relative| - |p|
  {
    var next := relative[..|p| + 1];
    assert Parent(next) == p;
    if next != relative {
      OwnPath(entries, relative, target, next);
    }
  }

  /** So many climbs. */
  function Ups(n: nat): (r: seq<string>)
    ensures |r| == n && forall k :: 0 <= k < n ==> r[k] == ".."
  {
    if n == 0 then [] else [".."] + Ups(n - 1)
  }

  /** A target that climbs from depth `n` to the root. */
  function UpTarget(n: nat): string {
    if n == 0 then "." else Join(Ups(n), '/')
  }

  function UpParts(n: nat): seq<string> {
    if n == 0 then ["."] else Ups(n)
  }

  lemma UpSplits(n: nat)
    ensures Split(UpTarget(n), '/') == UpParts(n)
    ensures !("/" <= UpTarget(n)) && '\0' !in UpTarget(n)
  {
    var dot, dots := ".", "..";
    if n == 0 {
      SplitPlain(dot, '/');
      assert dot[0] == '.' && "/"[0] == '/';
    } else {
      assert forall k :: 0 <= k < n ==> '/' !in Ups(n)[k] by { assert dots[0] == '.' && dots[1] == '.'; }
      SplitJoin(Ups(n), '/');
      assert Ups(n)[0] == dots;
      UpText(Ups(n));
      assert UpTarget(n)[0] == '.' && "/"[0] == '/';
    }
  }

  lemma {:induction false} UpText(ups: seq<string>)
    requires ups != [] && forall k :: 0 <= k < |ups| ==> ups[k] == ".."
    ensures Join(ups, '/') != "" && Join(ups, '/')[0] == '.'
    ensures '\0' !in Join(ups, '/')
  {
    if |ups| > 1 { UpText(ups[1..]); }
  }

  lemma {:induction false} UpsContained(n: nat)
    ensures Contained(Ups(n), n)
  {
    if n > 0 { UpsContained(n - 1); }
  }

  lemma UpIsSafe(p: Path)
    requires ValidPath(p)
    ensures SafeTarget(p, UpTarget(|p| - 1))
  {
    var n := |p| - 1;
    UpSplits(n);
    UpsContained(n);
    assert Contained(UpParts(n), n) by {
      if n == 0 { assert ["."][1..] == []; }
    }
    SafeTargetMeaning(p, UpTarget(n));
  }

  /** The rest of a path after such climbs starts at the root. */
  lemma {:induction false} ClimbsToRoot(entries: Entries, dir: Path, rest: seq<string>) returns (steps: nat)
    ensures Run(entries, At(dir, Ups(|dir|) + rest), steps) == At([], rest)
    decreases |dir|
  {
    if dir == [] {
      steps := 0;
      assert Ups(0) + rest == rest;
    } else {
      steps := ClimbsToRoot(entries, Parent(dir), rest);
      var pending := Ups(|dir|) + rest;
      assert pending[0] == ".." && pending[1..] == Ups(|dir| - 1) + rest;
      steps := steps + 1;
    }
  }

  // ----- the way out

  /** The names before the next climb. */
  function NamesBeforeClimb(pending: seq<string>): (names: seq<string>)
    ensures forall name :: name in names ==> name in pending && name != "" && name != "." && name != ".."
  {
    if pending == [] || pending[0] == ".." then []
    else if pending[0] == "" || pending[0] == "." then NamesBeforeClimb(pending[1..])
    else [pending[0]] + NamesBeforeClimb(pending[1..])
  }

  /** Directories for all names but the last, which is a link to the root. */
  ghost predicate Trapped(entries: Entries, dir: Path, names: seq<string>) {
    && names != []
    && (forall j :: 0 < j < |names| ==> IsDirectory(entries, dir + names[..j]))
    && dir + names in entries && entries[dir + names].Symlink?
    && entries[dir + names].target == UpTarget(|dir| + |names| - 1)
  }

  lemma {:induction false} OutByClimb(entries: Entries, pending: seq<string>) returns (steps: nat)
    requires !NoClimb(pending) && NamesBeforeClimb(pending) == []
    ensures Run(entries, At([], pending), steps) == Escaped
    decreases |pending|
  {
    if pending[0] == ".." {
      steps := 1;
      assert Run(entries, Step(entries, At([], pending)), 0) == Escaped;
    } else {
      steps := OutByClimb(entries, pending[1..]);
      steps := steps + 1;
    }
  }

  /** From where the names start, through the link to the root, and out by the climb after them. */
  lemma {:induction false} OutByNames(entries: Entries, dir: Path, pending: seq<string>) returns (steps: nat)
    requires !NoClimb(pending) && Trapped(entries, dir, NamesBeforeClimb(pending))
    ensures Run(entries, At(dir, pending), steps) == Escaped
    decreases |pending|
  {
    var names, rest := NamesBeforeClimb(pending), pending[1..];
    if pending[0] == "" || pending[0] == "." {
      steps := OutByNames(entries, dir, rest);
      steps := steps + 1;
    } else if |names| == 1 {
      steps := OutByLastName(entries, dir, pending);
    } else {
      FirstName(pending);
      TrappedBelow(entries, dir, names);
      steps := OutByNames(entries, dir + [pending[0]], rest);
      steps := steps + 1;
    }
  }

  lemma FirstName(pending: seq<string>)
    requires pending != [] && pending[0] != "" && pending[0] != "." && pending[0] != ".."
    ensures NamesBeforeClimb(pending)[0] == pending[0] && NamesBeforeClimb(pending)[1..] == NamesBeforeClimb(pending[1..])
  {
  }

  lemma OutByLastName(entries: Entries, dir: Path, pending: seq<string>) returns (steps: nat)
    requires !NoClimb(pending) && Trapped(entries, dir, NamesBeforeClimb(pending))
    requires pending[0] != "" && pending[0] != "." && |NamesBeforeClimb(pending)| == 1
    ensures Run(entries, At(dir, pending), steps) == Escaped
  {
    FirstName(pending);
    assert NamesBeforeClimb(pending) == [pending[0]];
    LinkToRoot(entries, dir, pending);
    steps := OutByLink(entries, dir, pending[1..]);
    steps := steps + 1;
  }

  lemma LinkToRoot(entries: Entries, dir: Path, pending: seq<string>)
    requires pending != [] && pending[0] != "" && pending[0] != "." && pending[0] != ".."
    requires dir + [pending[0]] in entries && entries[dir + [pending[0]]].Symlink?
    requires entries[dir + [pending[0]]].target == UpTarget(|dir|)
    ensures Step(entries, At(dir, pending)) == At(dir, UpParts(|dir|) + pending[1..])
  {
    UpSplits(|dir|);
  }

  lemma TrappedBelow(entries: Entries, dir: Path, names: seq<string>)
    requires Trapped(entries, dir, names) && |names| > 1
    ensures IsDirectory(entries, dir + [names[0]]) && Trapped(entries, dir + [names[0]], names[1..])
  {
    var below, more := dir + [names[0]], names[1..];
    assert names[..1] == [names[0]];
    AllBelow(dir, names);
    forall j | 0 < j < |more| ensures IsDirectory(entries, below + more[..j]) {
      TakeBelow(dir, names, j);
    }
  }

  lemma AllBelow(dir: Path, names: seq<string>)
    requires names != []
    ensures dir + [names[0]] + names[1..] == dir + names
  {
  }

  lemma TakeBelow(dir: Path, names: seq<string>, j: nat)
    requires j < |names|
    ensures dir + [names[0]] + names[1..][..j] == dir + names[..j + 1]
  {
  }

  lemma OutByLink(entries: Entries, dir: Path, rest: seq<string>) returns (steps: nat)
    requires !NoClimb(rest) && NamesBeforeClimb(rest) == []
    ensures Run(entries, At(dir, UpParts(|dir|) + rest), steps) == Escaped
  {
    var out := OutByClimb(entries, rest);
    if dir == [] {
      assert (["."] + rest)[1..] == rest;
      steps := out + 1;
    } else {
      var up := ClimbsToRoot(entries, dir, rest);
      RunAdds(entries, At(dir, Ups(|dir|) + rest), up, out);
      steps := up + out;
    }
  }

  // ----- the tree

  const PLAIN := Metadata(Mode(true, true, true, 0), 0, map[])

  function Below(dir: Path, names: seq<string>): set<Path> {
    set j | 0 < j <= |names| :: dir + names[..j]
  }

  /** The link on its own path, and the trap beside it. */
  ghost function TrapTree(relative: Path, target: string, dir: Path, names: seq<string>): Entries
    requires relative != []
  {
    map p | p in Below([], relative) + Below(dir, names) ::
      if p == relative then Symlink(PLAIN, target)
      else if p == dir + names then Symlink(PLAIN, UpTarget(if |p| > 0 then |p| - 1 else 0))
      else Directory(PLAIN)
  }

  lemma OffPath(relative: Path, dir: Path, names: seq<string>, j: nat)
    requires names != [] && !(dir + [names[0]] <= relative) && 0 < j <= |names|
    ensures !(dir + names[..j] <= relative)
  {
    var p := dir + names[..j];
    assert p[..|dir| + 1] == dir + [names[0]];
  }

  lemma PrefixOf(relative: Path, p: Path)
    requires p in Below([], relative)
    ensures p <= relative && p != []
  {
    var j :| 0 < j <= |relative| && p == [] + relative[..j];
    assert p == relative[..j];
  }

  ghost predicate TrapFits(relative: Path, dir: Path, names: seq<string>) {
    && ValidPath(relative) && dir <= Parent(relative) && names != []
    && (forall k :: 0 <= k < |names| ==> PlainName(names[k]))
    && !(dir + [names[0]] <= relative)
  }

  lemma TrapIsTree(relative: Path, target: string, dir: Path, names: seq<string>)
    requires TrapFits(relative, dir, names)
    ensures TreeWith(TrapTree(relative, target, dir, names), relative, target)
    ensures Trapped(TrapTree(relative, target, dir, names), dir, names)
  {
    var entries := TrapTree(relative, target, dir, names);
    assert relative == [] + relative[..|relative|];
    assert relative in Below([], relative);
    forall p | p in entries
      ensures ValidPath(p) && (|p| > 1 ==> IsDirectory(entries, Parent(p)))
      ensures p != relative && entries[p].Symlink? ==> SafeTarget(p, entries[p].target)
    {
      TrapEntry(relative, target, dir, names, p);
      UpIsSafe(p);
    }
    TrapIsSet(relative, target, dir, names);
  }

  lemma TrapIsSet(relative: Path, target: string, dir: Path, names: seq<string>)
    requires TrapFits(relative, dir, names)
    ensures Trapped(TrapTree(relative, target, dir, names), dir, names)
  {
    var entries := TrapTree(relative, target, dir, names);
    TrapLink(relative, target, dir, names);
    forall j | 0 < j < |names| ensures IsDirectory(entries, dir + names[..j]) {
      TrapDirectory(relative, target, dir, names, j);
    }
  }

  lemma TrapLink(relative: Path, target: string, dir: Path, names: seq<string>)
    requires TrapFits(relative, dir, names)
    ensures var entries := TrapTree(relative, target, dir, names);
            dir + names in entries && entries[dir + names] == Symlink(PLAIN, UpTarget(|dir| + |names| - 1))
  {
    assert names[..|names|] == names;
    OffPath(relative, dir, names, |names|);
    assert dir + names in Below(dir, names);
  }

  lemma TrapDirectory(relative: Path, target: string, dir: Path, names: seq<string>, j: nat)
    requires TrapFits(relative, dir, names) && 0 < j < |names|
    ensures IsDirectory(TrapTree(relative, target, dir, names), dir + names[..j])
  {
    OffPath(relative, dir, names, j);
    var p := dir + names[..j];
    assert p in Below(dir, names);
    assert |p| < |dir + names|;
  }

  lemma TrapEntry(relative: Path, target: string, dir: Path, names: seq<string>, p: Path)
    requires TrapFits(relative, dir, names) && p in TrapTree(relative, target, dir, names)
    ensures ValidPath(p) && (|p| > 1 ==> IsDirectory(TrapTree(relative, target, dir, names), Parent(p)))
  {
    if p in Below([], relative) {
      PrefixOf(relative, p);
      if |p| > 1 { OwnPathIsDirectory(relative, target, dir, names, Parent(p)); }
    } else {
      var j :| 0 < j <= |names| && p == dir + names[..j];
      BesidePath(relative, target, dir, names, j);
    }
  }

  lemma BesidePath(relative: Path, target: string, dir: Path, names: seq<string>, j: nat)
    requires TrapFits(relative, dir, names) && 0 < j <= |names|
    ensures var p := dir + names[..j];
            ValidPath(p) && (|p| > 1 ==> IsDirectory(TrapTree(relative, target, dir, names), Parent(p)))
  {
    var p := dir + names[..j];
    assert forall k :: 0 <= k < |dir| ==> dir[k] == relative[k];
    if j > 1 {
      assert Parent(p) == dir + names[..j - 1];
      TrapDirectory(relative, target, dir, names, j - 1);
    } else if dir != [] {
      assert Parent(p) == dir;
      OwnPathIsDirectory(relative, target, dir, names, dir);
    }
  }

  lemma OwnPathIsDirectory(relative: Path, target: string, dir: Path, names: seq<string>, p: Path)
    requires relative != [] && names != [] && !(dir + [names[0]] <= relative)
    requires p < relative && p != []
    ensures IsDirectory(TrapTree(relative, target, dir, names), p)
  {
    assert p == [] + relative[..|p|];
    assert p in Below([], relative);
    OffPath(relative, dir, names, |names|);
    assert names[..|names|] == names;
  }

  // ----- exactness

  lemma Refuted(entries: Entries, relative: Path, target: string, steps: nat)
    requires relative != [] && TreeWith(entries, relative, target)
    requires Run(entries, At(Parent(relative), [relative[|relative| - 1]]), steps) == Escaped
    ensures !NeverEscapes(relative, target)
  {
    assert Escapes(entries, relative, steps);
  }

  /** Opening a relative link is walking its target from its own directory. */
  lemma Opens(entries: Entries, relative: Path, target: string)
    requires relative != [] && TreeWith(entries, relative, target)
    ensures Step(entries, At(Parent(relative), [relative[|relative| - 1]])) ==
              if "/" <= target then Escaped else At(Parent(relative), Split(target, '/'))
  {
    var name := relative[|relative| - 1];
    assert Parent(relative) + [name] == relative;
    LastIsName(entries, relative);
    OpensAt(entries, Parent(relative), name, [name], target);
  }

  lemma LastIsName(entries: Entries, relative: Path)
    requires ValidPaths(entries) && relative in entries && relative != []
    ensures PlainName(relative[|relative| - 1])
  {
    assert ValidPath(relative);
  }

  lemma OpensAt(entries: Entries, dir: Path, name: string, pending: seq<string>, target: string)
    requires PlainName(name) && pending == [name]
    requires dir + [name] in entries && entries[dir + [name]].Symlink? && entries[dir + [name]].target == target
    ensures Step(entries, At(dir, pending)) == if "/" <= target then Escaped else At(dir, Split(target, '/'))
  {
    var parts := Split(target, '/');
    NothingMore(pending, parts);
    assert pending[0] == name && parts + pending[1..] == parts;
  }

  lemma NothingMore(one: seq<string>, parts: seq<string>)
    requires |one| == 1
    ensures parts + one[1..] == parts
  {
  }

  /** What does not stay in leads out of some tree whose other links all pass the check. */
  lemma OthersCanEscape(relative: Path, target: string)
    requires ValidPath(relative) && '\0' !in target
    requires "/" <= target || !StaysIn(relative, Parent(relative), Split(target, '/'))
    ensures !NeverEscapes(relative, target)
  {
    if "/" <= target {
      AbsoluteEscapes(relative, target);
    } else {
      LeadFacts(relative, Parent(relative), Split(target, '/'));
      if Lead(relative, Parent(relative), Split(target, '/')).1[0] == ".." {
        ClimbEscapes(relative, target);
      } else {
        LateClimbEscapes(relative, target);
      }
    }
  }

  lemma AbsoluteEscapes(relative: Path, target: string)
    requires ValidPath(relative) && "/" <= target
    ensures !NeverEscapes(relative, target)
  {
    var unused := FreshName(relative);
    var entries := TrapTree(relative, target, [], [unused]);
    TrapIsTree(relative, target, [], [unused]);
    Opens(entries, relative, target);
    assert Run(entries, Step(entries, At(Parent(relative), [relative[|relative| - 1]])), 0) == Escaped;
    Refuted(entries, relative, target, 1);
  }

  lemma ClimbEscapes(relative: Path, target: string)
    requires ValidPath(relative) && !("/" <= target)
    requires var (at, rest) := Lead(relative, Parent(relative), Split(target, '/')); at == [] && rest != [] && rest[0] == ".."
    ensures !NeverEscapes(relative, target)
  {
    var unused := FreshName(relative);
    var entries := TrapTree(relative, target, [], [unused]);
    TrapIsTree(relative, target, [], [unused]);
    ClimbIsOut(entries, Lead(relative, Parent(relative), Split(target, '/')).1);
    EscapesAfterLead(entries, relative, target, 1);
  }

  lemma ClimbIsOut(entries: Entries, rest: seq<string>)
    requires rest != [] && rest[0] == ".."
    ensures Run(entries, At([], rest), 1) == Escaped
  {
    assert Run(entries, Step(entries, At([], rest)), 0) == Escaped;
  }

  lemma FirstIsName(rest: seq<string>)
    requires rest != [] && rest[0] != ".." && rest[0] != "" && rest[0] != "." && !NoClimb(rest[1..])
    ensures NamesBeforeClimb(rest) != [] && NamesBeforeClimb(rest)[0] == rest[0] && !NoClimb(rest)
  {
    var k :| 0 <= k < |rest[1..]| && rest[1..][k] == "..";
    assert rest[k + 1] == "..";
  }

  lemma LateClimbEscapes(relative: Path, target: string)
    requires ValidPath(relative) && !("/" <= target) && '\0' !in target
    requires var (at, rest) := Lead(relative, Parent(relative), Split(target, '/'));
             && at <= Parent(relative) && rest != [] && (forall part :: part in rest ==> part in Split(target, '/'))
             && rest[0] != ".." && rest[0] != "" && rest[0] != "." && !NoClimb(rest[1..])
             && !(at + [rest[0]] <= relative)
    ensures !NeverEscapes(relative, target)
  {
    var (at, rest) := Lead(relative, Parent(relative), Split(target, '/'));
    var names := NamesBeforeClimb(rest);
    FirstIsName(rest);
    PartsArePlain(target, names);
    var entries := TrapTree(relative, target, at, names);
    TrapIsTree(relative, target, at, names);
    var out := OutByNames(entries, at, rest);
    EscapesAfterLead(entries, relative, target, out);
  }

  lemma EscapesAfterLead(entries: Entries, relative: Path, target: string, out: nat)
    requires relative != [] && TreeWith(entries, relative, target) && !("/" <= target)
    requires var (at, rest) := Lead(relative, Parent(relative), Split(target, '/')); Run(entries, At(at, rest), out) == Escaped
    ensures !NeverEscapes(relative, target)
  {
    var dir, parts := Parent(relative), Split(target, '/');
    Opens(entries, relative, target);
    var lead := LeadRuns(entries, relative, target, dir, parts);
    RunAdds(entries, At(dir, parts), lead, out);
    assert Run(entries, At(dir, [relative[|relative| - 1]]), 1 + lead + out) == Escaped;
    Refuted(entries, relative, target, 1 + lead + out);
  }

  /** A name other than the first on the link's path. */
  function FreshName(relative: Path): (name: string)
    requires relative != []
    ensures PlainName(name) && !([] + [name] <= relative)
  {
    if relative[0] == "a" then "b" else "a"
  }

  lemma PartsArePlain(target: string, names: seq<string>)
    requires '\0' !in target
    requires forall name :: name in names ==> name in Split(target, '/') && name != "" && name != "." && name != ".."
    ensures forall k :: 0 <= k < |names| ==> PlainName(names[k])
  {
    forall k | 0 <= k < |names| ensures PlainName(names[k]) {
      assert names[k] in names;
      SplitHolds(target, '/', names[k]);
    }
  }

  lemma {:induction false} SplitHolds(s: string, sep: char, part: string)
    requires part in Split(s, sep)
    ensures sep !in part && forall c :: c in part ==> c in s
  {
    if s != "" {
      var rest := Split(s[1..], sep);
      assert forall c :: c in s[1..] ==> c in s;
      if part in rest {
        SplitHolds(s[1..], sep, part);
      } else if s[0] != sep {
        assert part == [s[0]] + rest[0];
        SplitHolds(s[1..], sep, rest[0]);
      }
    }
  }

  // ----- staying in

  /** Once the walk along the link's own path comes back to the link, it does so for ever. */
  ghost predicate Circling(relative: Path, walk: Walk)
    requires relative != []
  {
    walk.At? && walk.dir <= Parent(relative) && ComesBack(relative, walk.dir, walk.pending)
  }

  lemma {:induction false} ComesBackAnyway(relative: Path, dir: Path, pending: seq<string>, rest: seq<string>)
    requires relative != [] && ComesBack(relative, dir, pending)
    ensures ComesBack(relative, dir, pending + rest)
    decreases |pending|
  {
    assert (pending + rest)[0] == pending[0] && (pending + rest)[1..] == pending[1..] + rest;
    if pending[0] == "" || pending[0] == "." {
      ComesBackAnyway(relative, dir, pending[1..], rest);
    } else if pending[0] == ".." {
      ComesBackAnyway(relative, Parent(dir), pending[1..], rest);
    } else if dir + [pending[0]] != relative {
      ComesBackAnyway(relative, dir + [pending[0]], pending[1..], rest);
    }
  }

  /** Opening the link, whatever is left to walk. */
  lemma OpensWith(entries: Entries, relative: Path, target: string, dir: Path, pending: seq<string>)
    requires relative != [] && TreeWith(entries, relative, target) && !("/" <= target)
    requires pending != [] && dir + [pending[0]] == relative
    ensures Step(entries, At(dir, pending)) == At(Parent(relative), Split(target, '/') + pending[1..])
  {
    assert Parent(relative) == dir;
    assert ValidPath(relative) && relative[|dir|] == pending[0];
  }

  lemma CirclingStays(entries: Entries, relative: Path, target: string, walk: Walk)
    requires relative != [] && TreeWith(entries, relative, target) && !("/" <= target)
    requires ComesBack(relative, Parent(relative), Split(target, '/')) && Circling(relative, walk)
    ensures Circling(relative, Step(entries, walk))
  {
    var dir, name, rest := walk.dir, walk.pending[0], walk.pending[1..];
    if name != "" && name != "." && name != ".." {
      if dir + [name] == relative {
        OpensWith(entries, relative, target, dir, walk.pending);
        ComesBackAnyway(relative, Parent(relative), Split(target, '/'), rest);
      } else {
        OwnPath(entries, relative, target, dir + [name]);
      }
    }
  }

  /** On the link's own path and staying in, with no climb left when the link itself is opened. */
  predicate StaysInOnce(relative: Path, dir: Path, pending: seq<string>)
    requires relative != []
    decreases |pending|
  {
    if pending == [] then true
    else if pending[0] == "" || pending[0] == "." then StaysInOnce(relative, dir, pending[1..])
    else if pending[0] == ".." then dir != [] && StaysInOnce(relative, Parent(dir), pending[1..])
    else if dir + [pending[0]] < relative then StaysInOnce(relative, dir + [pending[0]], pending[1..])
    else NoClimb(pending[1..])
  }

  lemma {:induction false} NamesStayIn(relative: Path, dir: Path, pending: seq<string>)
    requires relative != [] && NoClimb(pending)
    ensures StaysInOnce(relative, dir, pending)
    decreases |pending|
  {
    if pending != [] {
      if pending[0] == "" || pending[0] == "." {
        NamesStayIn(relative, dir, pending[1..]);
      } else if dir + [pending[0]] < relative {
        NamesStayIn(relative, dir + [pending[0]], pending[1..]);
      }
    }
  }

  lemma {:induction false} StaysInWithNames(relative: Path, dir: Path, pending: seq<string>, rest: seq<string>)
    requires relative != [] && StaysIn(relative, dir, pending) && !ComesBack(relative, dir, pending) && NoClimb(rest)
    ensures StaysInOnce(relative, dir, pending + rest)
    decreases |pending|
  {
    if pending == [] {
      assert pending + rest == rest;
      NamesStayIn(relative, dir, rest);
    } else {
      assert (pending + rest)[0] == pending[0] && (pending + rest)[1..] == pending[1..] + rest;
      if pending[0] == "" || pending[0] == "." {
        StaysInWithNames(relative, dir, pending[1..], rest);
      } else if pending[0] == ".." {
        StaysInWithNames(relative, Parent(dir), pending[1..], rest);
      } else if dir + [pending[0]] <= relative {
        StaysInWithNames(relative, dir + [pending[0]], pending[1..], rest);
      }
    }
  }

  /** What every step of a walk keeps: at most as many climbs as directories, or still on the own path. */
  ghost predicate Harmless(relative: Path, walk: Walk)
    requires relative != []
  {
    match walk
    case At(dir, pending) =>
      Contained(pending, |dir|) || (dir <= Parent(relative) && StaysInOnce(relative, dir, pending))
    case Stopped => true
    case Escaped => false
  }

  lemma HarmlessStays(entries: Entries, relative: Path, target: string, walk: Walk)
    requires relative != [] && TreeWith(entries, relative, target) && !("/" <= target)
    requires StaysIn(relative, Parent(relative), Split(target, '/'))
    requires !ComesBack(relative, Parent(relative), Split(target, '/'))
    requires Harmless(relative, walk)
    ensures Harmless(relative, Step(entries, walk))
  {
    if walk.At? && walk.pending != [] {
      var dir, name := walk.dir, walk.pending[0];
      if name != "" && name != "." && name != ".." {
        if Contained(walk.pending, |dir|) || !(dir + [name] < relative) {
          NameWithoutClimb(entries, relative, target, dir, walk.pending);
        } else {
          OwnName(entries, relative, target, dir, walk.pending);
        }
      }
    }
  }

  lemma OwnName(entries: Entries, relative: Path, target: string, dir: Path, pending: seq<string>)
    requires relative != [] && TreeWith(entries, relative, target)
    requires pending != [] && pending[0] != "" && pending[0] != "." && pending[0] != ".."
    requires dir + [pending[0]] < relative && StaysInOnce(relative, dir, pending)
    ensures Harmless(relative, Step(entries, At(dir, pending)))
  {
    OwnPath(entries, relative, target, dir + [pending[0]]);
  }

  lemma NameWithoutClimb(entries: Entries, relative: Path, target: string, dir: Path, pending: seq<string>)
    requires relative != [] && TreeWith(entries, relative, target) && !("/" <= target)
    requires StaysIn(relative, Parent(relative), Split(target, '/'))
    requires !ComesBack(relative, Parent(relative), Split(target, '/'))
    requires pending != [] && pending[0] != "" && pending[0] != "." && pending[0] != ".." && NoClimb(pending[1..])
    ensures Harmless(relative, Step(entries, At(dir, pending)))
  {
    if dir + [pending[0]] == relative {
      OpensWith(entries, relative, target, dir, pending);
      StaysInWithNames(relative, Parent(relative), Split(target, '/'), pending[1..]);
    } else {
      OtherName(entries, relative, target, dir, pending);
    }
  }

  /** A name other than the link's, with no climb after it. */
  lemma OtherName(entries: Entries, relative: Path, target: string, dir: Path, pending: seq<string>)
    requires relative != [] && TreeWith(entries, relative, target)
    requires pending != [] && pending[0] != "" && pending[0] != "." && pending[0] != ".." && NoClimb(pending[1..])
    requires dir + [pending[0]] != relative
    ensures InsideWalk(Step(entries, At(dir, pending)))
  {
    var p, rest := dir + [pending[0]], pending[1..];
    NoClimbIsContained(rest, |p|);
    if p in entries && entries[p].Symlink? {
      SafeTargetMeaning(p, entries[p].target);
      assert Parent(p) == dir;
      ContainedAppend(Split(entries[p].target, '/'), rest, |dir|);
    }
  }

  lemma {:induction false} CirclingForEver(entries: Entries, relative: Path, target: string, walk: Walk, steps: nat)
    requires relative != [] && TreeWith(entries, relative, target) && !("/" <= target)
    requires ComesBack(relative, Parent(relative), Split(target, '/')) && Circling(relative, walk)
    ensures Run(entries, walk, steps) != Escaped
    decreases steps
  {
    if steps > 0 {
      CirclingStays(entries, relative, target, walk);
      CirclingForEver(entries, relative, target, Step(entries, walk), steps - 1);
    }
  }

  lemma {:induction false} HarmlessForEver(entries: Entries, relative: Path, target: string, walk: Walk, steps: nat)
    requires relative != [] && TreeWith(entries, relative, target) && !("/" <= target)
    requires StaysIn(relative, Parent(relative), Split(target, '/'))
    requires !ComesBack(relative, Parent(relative), Split(target, '/'))
    requires Harmless(relative, walk)
    ensures Run(entries, walk, steps) != Escaped
    decreases steps
  {
    if steps > 0 {
      HarmlessStays(entries, relative, target, walk);
      HarmlessForEver(entries, relative, target, Step(entries, walk), steps - 1);
    }
  }

  lemma StaysInNeverEscapes(relative: Path, target: string)
    requires ValidPath(relative) && !("/" <= target) && StaysIn(relative, Parent(relative), Split(target, '/'))
    ensures NeverEscapes(relative, target)
  {
    var dir, name := Parent(relative), relative[|relative| - 1];
    assert dir + [name] == relative && PlainName(name);
    forall entries, steps: nat | TreeWith(entries, relative, target) ensures !Escapes(entries, relative, steps) {
      if ComesBack(relative, dir, Split(target, '/')) {
        CirclingForEver(entries, relative, target, At(dir, [name]), steps);
      } else {
        HarmlessForEver(entries, relative, target, At(dir, [name]), steps);
      }
    }
  }

  /** For every target a link can have: it leads out of no tree whose other links pass the check exactly
      if it is relative and stays in as above. */
  lemma NeverEscapesMeaning(relative: Path, target: string)
    requires ValidPath(relative) && '\0' !in target
    ensures NeverEscapes(relative, target) <==>
              !("/" <= target) && StaysIn(relative, Parent(relative), Split(target, '/'))
  {
    if "/" <= target || !StaysIn(relative, Parent(relative), Split(target, '/')) {
      OthersCanEscape(relative, target);
    } else {
      StaysInNeverEscapes(relative, target);
    }
  }

  lemma {:induction false} ContainedStaysIn(relative: Path, dir: Path, pending: seq<string>)
    requires relative != [] && Contained(pending, |dir|)
    ensures StaysIn(relative, dir, pending)
    decreases |pending|
  {
    if pending != [] {
      var rest := pending[1..];
      if pending[0] == "" || pending[0] == "." {
        ContainedStaysIn(relative, dir, rest);
      } else if pending[0] == ".." {
        ContainedStaysIn(relative, Parent(dir), rest);
      } else if dir + [pending[0]] < relative {
        NoClimbIsContained(rest, |dir| + 1);
        ContainedStaysIn(relative, dir + [pending[0]], rest);
      }
    }
  }

  /** So the check accepts nothing that can lead out, and refuses, of what cannot, exactly the targets
      that go back along the link's own path and climb again. */
  lemma CheckIsExact(relative: Path, target: string)
    requires ValidPath(relative) && '\0' !in target
    ensures SafeTarget(relative, target) ==> NeverEscapes(relative, target)
    ensures !SafeTarget(relative, target) && NeverEscapes(relative, target) <==>
              var parts := Split(target, '/');
              && !("/" <= target) && StaysIn(relative, Parent(relative), parts)
              && !Contained(parts, |Parent(relative)|)
  {
    NeverEscapesMeaning(relative, target);
    SafeTargetMeaning(relative, target);
    if SafeTarget(relative, target) { ContainedStaysIn(relative, Parent(relative), Split(target, '/')); }
  }

  /** `a/l -> ../a/..` is refused and ends at the root; `a/l -> ../a/../..` is refused and can lead out. */
  lemma OwnPathTargets(a: string, l: string, once: string, twice: string)
    requires PlainName(a) && PlainName(l) && once == "../" + a + "/.." && twice == once + "/.."
    ensures !SafeTarget([a, l], once) && NeverEscapes([a, l], once)
    ensures !SafeTarget([a, l], twice) && !NeverEscapes([a, l], twice)
  {
    OwnParts(a, once, twice);
    OwnWalks(a, l, ["..", a, ".."], ["..", a, "..", ".."]);
    CheckIsExact([a, l], once);
    CheckIsExact([a, l], twice);
    NeverEscapesMeaning([a, l], twice);
    assert !("/" <= once) by { assert once[0] == '.' && "/"[0] == '/'; }
    assert Parent([a, l]) == [a];
  }

  lemma OwnWalks(a: string, l: string, once: seq<string>, twice: seq<string>)
    requires PlainName(a) && once == ["..", a, ".."] && twice == ["..", a, "..", ".."]
    ensures StaysIn([a, l], [a], once) && !Contained(once, 1) && !StaysIn([a, l], [a], twice)
  {
    var up := "..";
    assert once[1..] == [a, up] && twice[1..] == [a, up, up];
    OwnWalk(a, l, [up]);
    OwnWalk(a, l, [up, up]);
    assert Parent([a]) == [];
    LateClimb(a, up);
    TwoClimbs([a, l], a, up);
  }

  /** From the root into the link's directory. */
  lemma OwnWalk(a: string, l: string, rest: seq<string>)
    requires PlainName(a)
    ensures StaysIn([a, l], [], [a] + rest) == StaysIn([a, l], [a], rest)
  {
    assert ([a] + rest)[1..] == rest && [] + [a] == [a] && [a] <= [a, l] && [a] != [a, l];
  }

  lemma LateClimb(a: string, up: string)
    requires PlainName(a) && up == ".."
    ensures !Contained([a, up], 0)
  {
    assert [a, up][1..] == [up] && [up][0] == "..";
  }

  lemma TwoClimbs(relative: Path, a: string, up: string)
    requires relative != [] && up == ".."
    ensures StaysIn(relative, [a], [up]) && !StaysIn(relative, [a], [up, up])
  {
    assert [up, up][1..] == [up] && [up][1..] == [] && Parent([a]) == [];
    assert !StaysIn(relative, [], [up]);
  }

  lemma OwnParts(a: string, once: string, twice: string)
    requires PlainName(a) && once == "../" + a + "/.." && twice == once + "/.."
    ensures Split(once, '/') == ["..", a, ".."] && Split(twice, '/') == ["..", a, "..", ".."]
    ensures '\0' !in once && '\0' !in twice
  {
    var up := "..";
    assert up[0] == '.' && up[1] == '.';
    SplitPlain(up, '/');
    SplitPlain(a, '/');
    SplitConcat(a, up, '/');
    SplitConcat(up, a + ['/'] + up, '/');
    assert once == up + ['/'] + (a + ['/'] + up);
    SplitConcat(once, up, '/');
    assert twice == once + ['/'] + up;
  }
}
