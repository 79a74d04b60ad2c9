/** Symlink containment: the check a recorded target passes, and the kernel's walk through links. */
module Symlinks {
  import opened Text
  import opened PosixPath
  import opened Trees

  /** Target components as the check counts them: the empty ones and "." are dropped. */
  function Parts(target: seq<string>): seq<string> {
    if target == [] then []
    else if target[0] == "" || target[0] == "." then Parts(target[1..])
    else [target[0]] + Parts(target[1..])
  }

  /** `".." in parts[first_name:]`. */
  predicate ClimbsAfterName(parts: seq<string>) {
    exists i, j :: 0 <= i < j < |parts| && parts[i] != ".." && parts[j] == ".."
  }

  /** The check without the rule against climbing after a name. */
  predicate StaysLexically(relative: Path, target: string)
    requires relative != []
  {
    && '\0' !in target && !("/" <= target)
    && var resolved := Normpath(JoinPath(Join(Parent(relative), '/'), target));
       resolved != ".." && !("../" <= resolved) && !("/" <= resolved)
  }

  /** `_safe_symlink_target`: true where the source raises nothing. */
  predicate SafeTarget(relative: Path, target: string)
    requires relative != []
  {
    && '\0' !in target && !("/" <= target)
    && !ClimbsAfterName(Parts(Split(target, '/')))
    && StaysLexically(relative, target)
  }

  // ----- what the check means

  predicate NoClimb(pending: seq<string>) {
    forall k :: 0 <= k < |pending| ==> pending[k] != ".."
  }

  /** From `depth` directories below the root: at most that many climbs, then names only. */
  predicate Contained(pending: seq<string>, depth: nat) {
    if pending == [] then true
    else if pending[0] == "" || pending[0] == "." then Contained(pending[1..], depth)
    else if pending[0] == ".." then depth > 0 && Contained(pending[1..], depth - 1)
    else NoClimb(pending[1..])
  }

  lemma {:induction false} PartsKeep(target: seq<string>)
    ensures forall part :: part in Parts(target) <==> part in target && part != "" && part != "."
  {
    if target != [] {
      PartsKeep(target[1..]);
      assert target == [target[0]] + target[1..];
    }
  }

  lemma {:induction false} CollapseParts(stack: seq<string>, target: seq<string>)
    ensures Collapse(stack, target) == Collapse(stack, Parts(target))
    decreases |target|
  {
    if target != [] {
      var part := target[0];
      if part == "" || part == "." {
        CollapseParts(stack, target[1..]);
      } else {
        var rest := Parts(target[1..]);
        assert Parts(target)[0] == part && Parts(target)[1..] == rest;
        if part != ".." || stack == [] || stack[|stack| - 1] == ".." {
          CollapseParts(stack + [part], target[1..]);
        } else {
          CollapseParts(stack[..|stack| - 1], target[1..]);
        }
      }
    }
  }

  /** Once climbed out, a collapsed path stays out. */
  lemma {:induction false} CollapseStaysOut(stack: seq<string>, parts: seq<string>)
    requires stack != [] && stack[0] == ".."
    ensures var r := Collapse(stack, parts); r != [] && r[0] == ".."
    decreases |parts|
  {
    if parts != [] {
      var part := parts[0];
      if part == "" || part == "." {
        CollapseStaysOut(stack, parts[1..]);
      } else if part != ".." || stack[|stack| - 1] == ".." {
        CollapseStaysOut(stack + [part], parts[1..]);
      } else {
        CollapseStaysOut(stack[..|stack| - 1], parts[1..]);
      }
    }
  }

  /** Over climbs-then-names, collapsing leaves the directory exactly when it climbs past the root. */
  lemma {:induction false} CollapseContained(dir: seq<string>, target: seq<string>)
    requires forall k :: 0 <= k < |dir| ==> IsName(dir[k])
    requires forall k :: 0 <= k < |target| ==> '/' !in target[k]
    requires !ClimbsAfterName(Parts(target))
    ensures var r := Collapse(dir, target);
            Contained(target, |dir|) <==> !(r != [] && r[0] == "..")
    decreases |target|
  {
    if target != [] {
      var part := target[0];
      var rest := target[1..];
      if part == "" || part == "." {
        CollapseContained(dir, rest);
      } else {
        assert Parts(target) == [part] + Parts(rest);
        ShorterClimb(part, Parts(rest));
        if part == ".." {
          if dir == [] {
            CollapseStaysOut([] + [".."], rest);
          } else {
            assert dir[|dir| - 1] != "..";
            CollapseContained(dir[..|dir| - 1], rest);
          }
        } else {
          NamesOnly(part, rest);
          CollapseNames(dir, [part]);
          CollapseParts(dir + [part], rest);
          PartsKeep(rest);
          forall k | 0 <= k < |Parts(rest)| ensures IsName(Parts(rest)[k]) {
            assert Parts(rest)[k] in Parts(rest);
          }
          CollapseNames(dir + [part], Parts(rest));
          assert (dir + [part])[0] != "..";
        }
      }
    }
  }

  lemma ShorterClimb(part: string, parts: seq<string>)
    requires !ClimbsAfterName([part] + parts)
    ensures !ClimbsAfterName(parts)
  {
    var more := [part] + parts;
    forall i, j | 0 <= i < j < |parts| && parts[i] != ".." ensures parts[j] != ".." {
      assert more[i + 1] == parts[i] && more[j + 1] == parts[j];
    }
  }

  lemma NamesOnly(part: string, rest: seq<string>)
    requires part != ".." && !ClimbsAfterName([part] + Parts(rest))
    ensures NoClimb(rest) && NoClimb(Parts(rest))
  {
    var more := [part] + Parts(rest);
    forall k | 0 <= k < |Parts(rest)| ensures Parts(rest)[k] != ".." {
      assert more[0] == part && more[k + 1] == Parts(rest)[k];
    }
    PartsKeep(rest);
    assert ".." !in Parts(rest);
    assert ".." !in rest;
  }

  lemma {:induction false} ContainedMeansNoLateClimb(target: seq<string>, depth: nat)
    requires Contained(target, depth)
    ensures !ClimbsAfterName(Parts(target))
  {
    if target != [] {
      var rest := target[1..];
      if target[0] == "" || target[0] == "." {
        ContainedMeansNoLateClimb(rest, depth);
      } else {
        assert Parts(target) == [target[0]] + Parts(rest);
        if target[0] == ".." {
          ContainedMeansNoLateClimb(rest, depth - 1);
          var more := [target[0]] + Parts(rest);
          forall i, j | 0 <= i < j < |more| && more[i] != ".." ensures more[j] != ".." {
            assert more[i] == Parts(rest)[i - 1] && more[j] == Parts(rest)[j - 1];
          }
        } else {
          PartsKeep(rest);
          assert ".." !in rest;
        }
      }
    }
  }

  /** The check, in terms of the walk: a relative target that climbs no further than the link's
      own directory lies below the root, and never climbs after a name. */
  lemma SafeTargetMeaning(relative: Path, target: string)
    requires ValidPath(relative)
    ensures SafeTarget(relative, target) <==>
              '\0' !in target && !("/" <= target) && Contained(Split(target, '/'), |Parent(relative)|)
  {
    if '\0' !in target && !("/" <= target) {
      var dir, parts := Parent(relative), Split(target, '/');
      if Contained(parts, |dir|) {
        ContainedMeansNoLateClimb(parts, |dir|);
      }
      if !ClimbsAfterName(Parts(parts)) {
        CollapseContained(dir, parts);
        LexicalMeaning(relative, target);
      }
    }
  }

  /** The lexical rule, in terms of components. */
  lemma LexicalMeaning(relative: Path, target: string)
    requires ValidPath(relative)
    requires '\0' !in target && !("/" <= target)
    ensures var r := Collapse(Parent(relative), Split(target, '/'));
            StaysLexically(relative, target) <==> !(r != [] && r[0] == "..")
  {
    var dir, parts := Parent(relative), Split(target, '/');
    SplitJoinPath(dir, target);
    CollapseIsCollapsed(dir, parts);
    TextClimbs(Collapse(dir, parts));
    JoinedIsRelative(dir, target);
  }

  lemma JoinedIsRelative(dir: seq<string>, target: string)
    requires forall k :: 0 <= k < |dir| ==> IsName(dir[k])
    requires !("/" <= target)
    ensures var path := JoinPath(Join(dir, '/'), target);
            !("/" <= path) && Normpath(path) == OrDot(Join(Collapse([], Split(path, '/')), '/'))
  {
    var path := JoinPath(Join(dir, '/'), target);
    if dir != [] {
      assert dir[0][0] in dir[0];
      assert Join(dir, '/')[0] == dir[0][0];
      assert path[0] == dir[0][0] && "/"[0] == '/';
    } else {
      assert path == target;
    }
  }

  // ----- the kernel's walk

  /** Section 4.13 of POSIX.1-2017: `dir` is the physical directory reached so far. */
  datatype Walk =
    | At(dir: Path, pending: seq<string>)
    | Stopped
    | Escaped

  function Step(entries: Entries, walk: Walk): Walk {
    match walk
    case At(dir, pending) =>
      if pending == [] then walk
      else
        var part, rest := pending[0], pending[1..];
        if part == "" || part == "." then At(dir, rest)
        else if part == ".." then (if dir == [] then Escaped else At(Parent(dir), rest))
        else
          (match Lookup(entries, dir + [part])
           case Some(Directory(_)) => At(dir + [part], rest)
           case Some(Symlink(_, target)) =>
             if "/" <= target then Escaped else At(dir, Split(target, '/') + rest)
           case _ => Stopped)
    case _ => walk
  }

  function Run(entries: Entries, walk: Walk, steps: nat): Walk
    decreases steps
  {
    if steps == 0 then walk else Run(entries, Step(entries, walk), steps - 1)
  }

  ghost predicate LinksSafe(entries: Entries) {
    forall p :: p in entries && entries[p].Symlink? ==> p != [] && SafeTarget(p, entries[p].target)
  }

  predicate InsideWalk(walk: Walk) {
    match walk
    case At(dir, pending) => Contained(pending, |dir|)
    case Stopped => true
    case Escaped => false
  }

  lemma {:induction false} NoClimbIsContained(pending: seq<string>, depth: nat)
    requires NoClimb(pending)
    ensures Contained(pending, depth)
  {
    if pending != [] {
      NoClimbIsContained(pending[1..], depth);
    }
  }

  lemma {:induction false} ContainedAppend(target: seq<string>, rest: seq<string>, depth: nat)
    requires Contained(target, depth) && NoClimb(rest)
    ensures Contained(target + rest, depth)
    decreases |target|
  {
    if target == [] {
      assert target + rest == rest;
      NoClimbIsContained(rest, depth);
    } else {
      assert (target + rest)[0] == target[0] && (target + rest)[1..] == target[1..] + rest;
      if target[0] == "" || target[0] == "." {
        ContainedAppend(target[1..], rest, depth);
      } else if target[0] == ".." {
        ContainedAppend(target[1..], rest, depth - 1);
      }
    }
  }

  lemma StepStaysInside(entries: Entries, walk: Walk)
    requires ValidPaths(entries) && LinksSafe(entries)
    requires InsideWalk(walk)
    ensures InsideWalk(Step(entries, walk))
  {
    if walk.At? && walk.pending != [] {
      var dir, part, rest := walk.dir, walk.pending[0], walk.pending[1..];
      if part != "" && part != "." && part != ".." {
        var p := dir + [part];
        NoClimbIsContained(rest, |p|);
        if p in entries && entries[p].Symlink? {
          SafeTargetMeaning(p, entries[p].target);
          assert Parent(p) == dir;
          ContainedAppend(Split(entries[p].target, '/'), rest, |dir|);
        }
      }
    }
  }

  lemma {:induction false} RunStaysInside(entries: Entries, walk: Walk, steps: nat)
    requires ValidPaths(entries) && LinksSafe(entries)
    requires InsideWalk(walk)
    ensures InsideWalk(Run(entries, walk, steps))
    decreases steps
  {
    if steps > 0 {
      StepStaysInside(entries, walk);
      RunStaysInside(entries, Step(entries, walk), steps - 1);
    }
  }

  /** Where every recorded link passes the check, following any of them from its own directory,
      through any chain of the others and for any number of steps, never leaves the root. */
  lemma LinksNeverEscape(entries: Entries, link: Path, steps: nat)
    requires ValidPaths(entries) && LinksSafe(entries)
    requires link in entries && entries[link].Symlink?
    ensures Run(entries, At(Parent(link), Split(entries[link].target, '/')), steps) != Escaped
  {
    SafeTargetMeaning(link, entries[link].target);
    RunStaysInside(entries, At(Parent(link), Split(entries[link].target, '/')), steps);
  }

  /** Nor does opening any path that climbs no further than its starting directory. */
  lemma PathsNeverEscape(entries: Entries, dir: Path, parts: seq<string>, steps: nat)
    requires ValidPaths(entries) && LinksSafe(entries)
    requires Contained(parts, |dir|)
    ensures Run(entries, At(dir, parts), steps) != Escaped
  {
    RunStaysInside(entries, At(dir, parts), steps);
  }

  /** A target that fails the check by climbing too far, without climbing after a name, does escape. */
  lemma {:induction false} UncontainedClimbEscapes(entries: Entries, dir: Path, parts: seq<string>) returns (steps: nat)
    requires !ClimbsAfterName(Parts(parts)) && !Contained(parts, |dir|)
    ensures Run(entries, At(dir, parts), steps) == Escaped
    decreases |parts|
  {
    var rest := parts[1..];
    if parts[0] == "" || parts[0] == "." {
      steps := UncontainedClimbEscapes(entries, dir, rest);
      steps := steps + 1;
    } else {
      assert Parts(parts) == [parts[0]] + Parts(rest);
      if parts[0] == ".." {
        if dir == [] {
          steps := 1;
          assert Run(entries, Step(entries, At(dir, parts)), 0) == Escaped;
        } else {
          ShorterClimb(parts[0], Parts(rest));
          steps := UncontainedClimbEscapes(entries, Parent(dir), rest);
          steps := steps + 1;
        }
      } else {
        NamesOnly(parts[0], rest);
        assert false;
      }
    }
  }

  /** The rule against climbing after a name is needed: in this tree every link stays below the
      root lexically, and `a/evil` still leads out, because `a/d` stands for its own directory. */
  lemma LexicalCheckIsNotEnough(entries: Entries, meta: Metadata, a: string, d: string, evil: string, target: string)
    requires PlainName(a) && PlainName(d) && PlainName(evil) && d != evil && target == d + "/" + "../.."
    requires entries.Keys == {[a], [a, d], [a, evil]}
    requires entries[[a]] == Directory(meta)
    requires entries[[a, d]] == Symlink(meta, ".") && entries[[a, evil]] == Symlink(meta, target)
    ensures ValidPaths(entries) && ParentClosed(entries)
    ensures StaysLexically([a, d], ".") && StaysLexically([a, evil], target)
    ensures Run(entries, At([a], Split(target, '/')), 4) == Escaped
    ensures !SafeTarget([a, evil], target)
  {
    EvilSplits(d);
    EvilEscapes(entries, a, d);
    EvilStaysLexically(a, d, evil);
    EvilIsUnsafe(a, d, evil);
    EvilTree(entries, a, d, evil);
  }

  lemma EvilTree(entries: Entries, a: string, d: string, evil: string)
    requires PlainName(a) && PlainName(d) && PlainName(evil)
    requires entries.Keys == {[a], [a, d], [a, evil]} && entries[[a]].Directory?
    ensures ValidPaths(entries) && ParentClosed(entries)
  {
    assert Parent([a, d]) == [a] && Parent([a, evil]) == [a];
  }

  lemma EvilSplits(d: string)
    requires PlainName(d)
    ensures Split(d + "/" + "../..", '/') == [d, "..", ".."] && Split(".", '/') == ["."]
  {
    SplitConcat(d, "../..", '/');
    SplitPlain(d, '/');
    SplitPlain("..", '/');
    SplitConcat("..", "..", '/');
    assert ".." + ['/'] + ".." == "../..";
    SplitPlain(".", '/');
  }

  lemma EvilEscapes(entries: Entries, a: string, d: string)
    requires PlainName(d)
    requires [a, d] in entries && entries[[a, d]].Symlink? && entries[[a, d]].target == "."
    ensures Run(entries, At([a], [d, "..", ".."]), 4) == Escaped
  {
    EvilSplits(d);
    var parts := [d, "..", ".."];
    var tail := ["..", ".."];
    assert [a] + [d] == [a, d];
    assert parts[1..] == tail && (["."] + tail)[1..] == tail && tail[1..] == [".."] && Parent([a]) == [];
    assert Step(entries, At([a], parts)) == At([a], ["."] + tail);
    assert Step(entries, At([a], ["."] + tail)) == At([a], tail);
    assert Step(entries, At([a], tail)) == At([], [".."]);
    assert Run(entries, Escaped, 0) == Escaped;
    assert Run(entries, At([], [".."]), 1) == Escaped;
    assert Run(entries, At([a], tail), 2) == Escaped;
    assert Run(entries, At([a], ["."] + tail), 3) == Escaped;
  }

  lemma EvilIsUnsafe(a: string, d: string, evil: string)
    requires PlainName(d)
    ensures !SafeTarget([a, evil], d + "/" + "../..")
  {
    EvilSplits(d);
    var parts := [d, "..", ".."];
    assert parts[1..] == ["..", ".."] && ["..", ".."][1..] == [".."] && [".."][1..] == [];
    assert Parts([".."]) == [".."] + Parts([]);
    assert Parts(["..", ".."]) == [".."] + Parts([".."]);
    assert Parts(parts) == parts;
    assert parts[0] != ".." && parts[1] == "..";
  }

  lemma EvilStaysLexically(a: string, d: string, evil: string)
    requires PlainName(a) && PlainName(d) && PlainName(evil)
    ensures StaysLexically([a, d], ".") && StaysLexically([a, evil], d + "/" + "../..")
  {
    var dir := [a];
    assert Parent([a, d]) == dir && Parent([a, evil]) == dir;
    EvilSplits(d);
    LexicalMeaning([a, d], ".");
    LexicalMeaning([a, evil], d + "/" + "../..");
    assert ["."][1..] == [] && Collapse(dir, ["."]) == Collapse(dir, []) == dir;
    var parts := [d, "..", ".."];
    var tail := ["..", ".."];
    assert dir + [d] == [a, d] && [a, d][..1] == dir && dir[..0] == [];
    assert parts[1..] == tail && tail[1..] == [".."] && [".."][1..] == [];
    assert Collapse(dir, parts) == Collapse([a, d], tail);
    assert Collapse([a, d], tail) == Collapse(dir, [".."]);
    assert Collapse(dir, [".."]) == Collapse([], []) == [];
  }
}
