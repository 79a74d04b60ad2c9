/** Python's posixpath on strings: join and normpath, and what they do to components. */
module PosixPath {
  import opened Text

  /** `posixpath.join(a, b)`. */
  function JoinPath(a: string, b: string): string {
    if "/" <= b then b
    else if a == "" || a[|a| - 1] == '/' then a + b
    else a + "/" + b
  }

  /** The component loop of `normpath` on a path without a leading slash, from a stack so far. */
  function Collapse(stack: seq<string>, parts: seq<string>): (r: seq<string>)
    decreases |parts|
  {
    if parts == [] then stack
    else
      var part := parts[0];
      if part == "" || part == "." then Collapse(stack, parts[1..])
      else if part != ".." || stack == [] || stack[|stack| - 1] == ".." then Collapse(stack + [part], parts[1..])
      else Collapse(stack[..|stack| - 1], parts[1..])
  }

  /** The same loop on an absolute path, where ".." at the top is dropped. */
  function CollapseRooted(stack: seq<string>, parts: seq<string>): (r: seq<string>)
    decreases |parts|
  {
    if parts == [] then stack
    else
      var part := parts[0];
      if part == "" || part == "." then CollapseRooted(stack, parts[1..])
      else if part != ".." || (stack != [] && stack[|stack| - 1] == "..") then CollapseRooted(stack + [part], parts[1..])
      else if stack != [] then CollapseRooted(stack[..|stack| - 1], parts[1..])
      else CollapseRooted(stack, parts[1..])
  }

  function OrDot(path: string): string {
    if path == "" then "." else path
  }

  /** `posixpath.normpath`. */
  function Normpath(path: string): string {
    if path == "" then "."
    else if "/" <= path then
      (if "//" <= path && !("///" <= path) then "//" else "/") + Join(CollapseRooted([], Split(path, '/')), '/')
    else OrDot(Join(Collapse([], Split(path, '/')), '/'))
  }

  // ----- components

  predicate Component(part: string) {
    part != "" && part != "." && '/' !in part
  }

  predicate IsName(part: string) {
    Component(part) && part != ".."
  }

  /** Collapsed form: climbs first, then names. */
  predicate Collapsed(parts: seq<string>) {
    && (forall k :: 0 <= k < |parts| ==> Component(parts[k]))
    && forall k :: 0 < k < |parts| && parts[k] == ".." ==> parts[k - 1] == ".."
  }

  lemma {:induction false} CollapseIsCollapsed(stack: seq<string>, parts: seq<string>)
    requires Collapsed(stack)
    requires forall k :: 0 <= k < |parts| ==> '/' !in parts[k]
    ensures Collapsed(Collapse(stack, parts))
    decreases |parts|
  {
    if parts != [] {
      var part := parts[0];
      if part == "" || part == "." {
        CollapseIsCollapsed(stack, parts[1..]);
      } else if part != ".." || stack == [] || stack[|stack| - 1] == ".." {
        CollapseIsCollapsed(stack + [part], parts[1..]);
      } else {
        CollapseIsCollapsed(stack[..|stack| - 1], parts[1..]);
      }
    }
  }

  lemma {:induction false} CollapseConcat(stack: seq<string>, a: seq<string>, b: seq<string>)
    ensures Collapse(stack, a + b) == Collapse(Collapse(stack, a), b)
    decreases |a|
  {
    if a == [] {
      assert a + b == b;
    } else {
      var part := a[0];
      assert (a + b)[0] == part && (a + b)[1..] == a[1..] + b;
      if part == "" || part == "." {
        CollapseConcat(stack, a[1..], b);
      } else if part != ".." || stack == [] || stack[|stack| - 1] == ".." {
        CollapseConcat(stack + [part], a[1..], b);
      } else {
        CollapseConcat(stack[..|stack| - 1], a[1..], b);
      }
    }
  }

  /** Names are pushed as they stand. */
  lemma {:induction false} CollapseNames(stack: seq<string>, names: seq<string>)
    requires forall k :: 0 <= k < |names| ==> IsName(names[k])
    ensures Collapse(stack, names) == stack + names
    decreases |names|
  {
    if names != [] {
      CollapseNames(stack + [names[0]], names[1..]);
      assert stack + [names[0]] + names[1..] == stack + names;
    }
  }

  /** The text of a collapsed relative path climbs out exactly when its first component does. */
  lemma TextClimbs(parts: seq<string>)
    requires Collapsed(parts)
    ensures var text := OrDot(Join(parts, '/'));
            (text == ".." || "../" <= text <==> parts != [] && parts[0] == "..") && !("/" <= text)
  {
    if parts != [] {
      SplitJoin(parts, '/');
      var text := Join(parts, '/');
      assert parts[0] != "";
      if |parts| > 1 {
        assert text == parts[0] + ['/'] + Join(parts[1..], '/');
        assert text[0] == parts[0][0];
        if parts[0] == ".." {
          assert text[..3] == "../";
        }
      }
      if "../" <= text {
        assert text == ".." + ['/'] + text[3..];
        SplitConcat("..", text[3..], '/');
        SplitPlain("..", '/');
      }
      if text == ".." {
        SplitPlain("..", '/');
      }
      assert text[0] == parts[0][0] && parts[0][0] in parts[0];
      assert text[0] != '/' && "/"[0] == '/';
    } else {
      assert Join(parts, '/') == "" && "."[0] == '.';
    }
  }

  /** Splitting a join of a directory and a relative target. */
  lemma SplitJoinPath(names: seq<string>, target: string)
    requires forall k :: 0 <= k < |names| ==> IsName(names[k])
    requires !("/" <= target)
    ensures Collapse([], Split(JoinPath(Join(names, '/'), target), '/')) == Collapse(names, Split(target, '/'))
  {
    if names == [] {
      assert "" + target == target;
    } else {
      var dir := Join(names, '/');
      SplitJoin(names, '/');
      JoinEndsInName(names);
      assert JoinPath(dir, target) == dir + ['/'] + target;
      SplitConcat(dir, target, '/');
      CollapseConcat([], names, Split(target, '/'));
      CollapseNames([], names);
      assert [] + names == names;
    }
  }

  lemma {:induction false} JoinEndsInName(names: seq<string>)
    requires names != [] && forall k :: 0 <= k < |names| ==> IsName(names[k])
    ensures var s := Join(names, '/'); s != "" && s[|s| - 1] != '/'
  {
    if |names| == 1 {
      assert names[0][|names[0]| - 1] in names[0];
    } else {
      JoinEndsInName(names[1..]);
    }
  }

  // ----- absolute paths in normal form

  /** One slash or two, and names: none empty, none "." or "..". */
  ghost predicate AbsoluteNames(path: string) {
    exists names: seq<string> ::
      && (path == "/" + Join(names, '/') || path == "//" + Join(names, '/'))
      && forall k :: 0 <= k < |names| ==> IsName(names[k])
  }

  /** An absolute path is left as it is exactly if it is of this form. */
  lemma NormalFormOfAbsolute(path: string)
    ensures "/" <= path && Normpath(path) == path <==> AbsoluteNames(path)
  {
    if "/" <= path && Normpath(path) == path {
      RootedAreNames([], Split(path, '/'));
      var names := CollapseRooted([], Split(path, '/'));
      assert path == "/" + Join(names, '/') || path == "//" + Join(names, '/');
    }
    if AbsoluteNames(path) {
      var names: seq<string> :|
        && (path == "/" + Join(names, '/') || path == "//" + Join(names, '/'))
        && forall k :: 0 <= k < |names| ==> IsName(names[k]);
      if path == "/" + Join(names, '/') {
        OneSlash(names);
      } else {
        TwoSlashes(names);
      }
    }
  }

  lemma {:induction false} RootedAreNames(stack: seq<string>, parts: seq<string>)
    requires forall k :: 0 <= k < |stack| ==> IsName(stack[k])
    requires forall k :: 0 <= k < |parts| ==> '/' !in parts[k]
    ensures forall k :: 0 <= k < |CollapseRooted(stack, parts)| ==> IsName(CollapseRooted(stack, parts)[k])
    decreases |parts|
  {
    if parts != [] {
      var part := parts[0];
      if part == "" || part == "." {
        RootedAreNames(stack, parts[1..]);
      } else if part != ".." {
        RootedAreNames(stack + [part], parts[1..]);
      } else if stack != [] {
        RootedAreNames(stack[..|stack| - 1], parts[1..]);
      } else {
        RootedAreNames(stack, parts[1..]);
      }
    }
  }

  lemma {:induction false} RootedNames(stack: seq<string>, names: seq<string>)
    requires forall k :: 0 <= k < |names| ==> IsName(names[k])
    ensures CollapseRooted(stack, names) == stack + names
    decreases |names|
  {
    if names != [] {
      RootedNames(stack + [names[0]], names[1..]);
      assert stack + [names[0]] + names[1..] == stack + names;
    }
  }

  lemma JoinedNames(names: seq<string>)
    requires forall k :: 0 <= k < |names| ==> IsName(names[k])
    ensures CollapseRooted([], Split(Join(names, '/'), '/')) == names
    ensures !("/" <= Join(names, '/'))
  {
    if names != [] {
      SplitJoin(names, '/');
      RootedNames([], names);
      assert [] + names == names;
      JoinStartsInName(names);
    } else {
      assert Split("", '/') == [""];
    }
  }

  lemma JoinStartsInName(names: seq<string>)
    requires names != [] && IsName(names[0])
    ensures !("/" <= Join(names, '/'))
  {
    var first := names[0];
    assert first[0] in first;
    assert Join(names, '/')[0] == first[0];
  }

  lemma RootedSlash(text: string)
    ensures CollapseRooted([], Split("/" + text, '/')) == CollapseRooted([], Split(text, '/'))
  {
    var s := "/" + text;
    assert s[0] == '/' && s[1..] == text;
    SplitStep(s, '/');
    assert ([""] + Split(text, '/'))[1..] == Split(text, '/');
  }

  lemma LeadingSlashes(text: string)
    requires !("/" <= text)
    ensures !("//" <= "/" + text) && "//" <= "//" + text && !("///" <= "//" + text)
  {
    assert "/" + "/" == "//" && "//" + "/" == "///";
    PrefixAfter("/", "/", text);
    PrefixAfter("//", "/", text);
  }

  lemma PrefixAfter(a: string, b: string, s: string)
    ensures a + b <= a + s ==> b <= s
  {
    if a + b <= a + s {
      assert (a + b)[|a|..] == b && (a + s)[|a|..] == s;
      assert (a + s)[..|a| + |b|] == a + b;
    }
  }

  lemma OneSlash(names: seq<string>)
    requires forall k :: 0 <= k < |names| ==> IsName(names[k])
    ensures var path := "/" + Join(names, '/'); "/" <= path && Normpath(path) == path
  {
    JoinedNames(names);
    RootedSlash(Join(names, '/'));
    LeadingSlashes(Join(names, '/'));
  }

  lemma TwoSlashes(names: seq<string>)
    requires forall k :: 0 <= k < |names| ==> IsName(names[k])
    ensures var path := "//" + Join(names, '/'); "/" <= path && Normpath(path) == path
  {
    var text := Join(names, '/');
    JoinedNames(names);
    RootedSlash(text);
    RootedSlash("/" + text);
    LeadingSlashes(text);
    NormalTwo(text, names);
  }

  lemma NormalTwo(text: string, names: seq<string>)
    requires text == Join(names, '/') && "//" <= "//" + text && !("///" <= "//" + text)
    requires CollapseRooted([], Split("/" + ("/" + text), '/')) == names
    ensures "/" <= "//" + text && Normpath("//" + text) == "//" + text
  {
    assert "//" + text == "/" + ("/" + text);
  }
}
