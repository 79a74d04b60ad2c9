/** Which object inside a managed root an argv token designates. */
module Resolution {
  import opened Wrappers
  import opened Text
  import opened PosixPath

  /** A root's path with exactly one slash at its end, and the root's key. */
  type Prefix = (string, string)

  datatype Outcome = Outside | Escape | Member(rootKey: string, relative: string)

  function StripLeft(s: string): string
    decreases |s|
  {
    if s != "" && s[0] == '/' then StripLeft(s[1..]) else s
  }

  function StripRight(s: string): string
    decreases |s|
  {
    if s != "" && s[|s| - 1] == '/' then StripRight(s[..|s| - 1]) else s
  }

  // ----- prefixes, longest first

  function Insert(p: Prefix, sorted: seq<Prefix>): seq<Prefix> {
    if sorted == [] then [p]
    else if |p.0| >= |sorted[0].0| then [p] + sorted
    else [sorted[0]] + Insert(p, sorted[1..])
  }

  /** `root_prefixes`: a stable sort by decreasing length. */
  function RootPrefixes(roots: seq<(string, string)>): seq<Prefix> {
    if roots == [] then []
    else Insert((StripRight(roots[0].0) + "/", roots[0].1), RootPrefixes(roots[1..]))
  }

  ghost predicate LongestFirst(prefixes: seq<Prefix>) {
    forall i, j :: 0 <= i < j < |prefixes| ==> |prefixes[i].0| >= |prefixes[j].0|
  }

  lemma {:induction false} InsertKeeps(p: Prefix, sorted: seq<Prefix>)
    requires LongestFirst(sorted)
    ensures LongestFirst(Insert(p, sorted))
    ensures multiset(Insert(p, sorted)) == multiset(sorted) + multiset{p}
  {
    if sorted == [] {
    } else if |p.0| >= |sorted[0].0| {
      assert multiset([p] + sorted) == multiset{p} + multiset(sorted);
    } else {
      var rest := sorted[1..];
      InsertKeeps(p, rest);
      assert sorted == [sorted[0]] + rest;
      FirstIsLongest(sorted, p, Insert(p, rest));
    }
  }

  lemma FirstIsLongest(sorted: seq<Prefix>, p: Prefix, inserted: seq<Prefix>)
    requires sorted != [] && LongestFirst(sorted) && |p.0| <= |sorted[0].0|
    requires multiset(inserted) == multiset(sorted[1..]) + multiset{p}
    ensures forall k :: 0 <= k < |inserted| ==> |sorted[0].0| >= |inserted[k].0|
  {
    forall k | 0 <= k < |inserted| ensures |sorted[0].0| >= |inserted[k].0| {
      assert inserted[k] in multiset(inserted);
      assert inserted[k] in sorted[1..] || inserted[k] == p;
    }
  }

  /** The prefixes are those of the roots, longest first. */
  lemma {:induction false} PrefixesAreRoots(roots: seq<(string, string)>)
    ensures LongestFirst(RootPrefixes(roots))
    ensures forall p :: p in RootPrefixes(roots) <==>
                        exists i :: 0 <= i < |roots| && p == (StripRight(roots[i].0) + "/", roots[i].1)
  {
    if roots != [] {
      var p := (StripRight(roots[0].0) + "/", roots[0].1);
      var rest := RootPrefixes(roots[1..]);
      PrefixesAreRoots(roots[1..]);
      InsertKeeps(p, rest);
      forall q ensures q in Insert(p, rest) <==>
                       exists i :: 0 <= i < |roots| && q == (StripRight(roots[i].0) + "/", roots[i].1)
      {
        assert q in Insert(p, rest) <==> q in multiset(Insert(p, rest));
        assert q in rest <==> q in multiset(rest);
        if q in rest {
          var i :| 0 <= i < |roots| - 1 && q == (StripRight(roots[1..][i].0) + "/", roots[1..][i].1);
          assert roots[1..][i] == roots[i + 1];
        }
        if i :| 0 < i < |roots| && q == (StripRight(roots[i].0) + "/", roots[i].1) {
          assert roots[1..][i - 1] == roots[i];
        }
      }
    }
  }

  // ----- one token

  /** What follows the prefix, normalised, and refused unless it is a clean path strictly inside. */
  function Inside(key: string, rest: string): Outcome {
    var remainder := Normpath(StripLeft(rest));
    if remainder == "." || remainder == "" || ".." <= remainder || "/" <= remainder then Escape
    else Member(key, remainder)
  }

  function ResolveAbsolute(token: string, prefixes: seq<Prefix>): Outcome {
    if prefixes == [] then Outside
    else
      var (prefix, key) := prefixes[0];
      if prefix <= token then Inside(key, token[|prefix|..])
      else if StripRight(token) + "/" == prefix then Escape
      else ResolveAbsolute(token, prefixes[1..])
  }

  /** `resolve_token`. */
  function ResolveToken(token: string, prefixes: seq<Prefix>, primary: Option<string>, cwd: string): Outcome {
    if token == "" || "-" <= token then Outside
    else if "/" <= token then ResolveAbsolute(token, prefixes)
    else if primary.None? then Outside
    else
      var relative := Normpath(if cwd != "" then JoinPath(cwd, token) else token);
      if ".." <= relative || "/" <= relative then Escape else Member(primary.value, relative)
  }

  // ----- what a member is

  /** Components of a path as the normaliser leaves them. */
  function Components(rest: string): seq<string> {
    Collapse([], Split(rest, '/'))
  }

  ghost predicate CleanRelative(relative: string) {
    && relative != "" && relative != "."
    && !("/" <= relative)
    && Normpath(relative) == relative
    && forall part :: part in Split(relative, '/') ==> IsName(part)
  }

  lemma {:induction false} StripLeftKeepsComponents(rest: string)
    ensures Components(StripLeft(rest)) == Components(rest)
    ensures !("/" <= StripLeft(rest))
    decreases |rest|
  {
    if rest != "" && rest[0] == '/' {
      StripLeftKeepsComponents(rest[1..]);
      SplitStep(rest, '/');
      var parts := Split(rest[1..], '/');
      assert ([""] + parts)[0] == "" && ([""] + parts)[1..] == parts;
    } else {
      assert "/"[0] == '/';
    }
  }

  lemma ComponentsAreCollapsed(rest: string)
    ensures Collapsed(Components(rest))
  {
    CollapseIsCollapsed([], Split(rest, '/'));
  }

  /** The text of collapsed components, read back. */
  lemma CollapsedText(parts: seq<string>)
    requires Collapsed(parts) && parts != []
    ensures var text := Join(parts, '/');
            && text != "" && Split(text, '/') == parts
            && (".." <= text <==> ".." <= parts[0]) && !("/" <= text)
            && (text == "." <==> parts == ["."])
  {
    SplitJoin(parts, '/');
    TextClimbs(parts);
    var text := Join(parts, '/');
    assert parts[0] != "" && text[0] == parts[0][0];
    assert OrDot(text) == text;
    FirstPart(parts);
    SplitPlain(".", '/');
  }

  /** A text that begins with ".." has a first component that does. */
  lemma FirstPart(parts: seq<string>)
    requires Collapsed(parts) && parts != []
    ensures ".." <= Join(parts, '/') <==> ".." <= parts[0]
  {
    var text := Join(parts, '/');
    assert forall c :: c in parts[0] ==> c != '/';
    if |parts| > 1 {
      assert text == parts[0] + ['/'] + Join(parts[1..], '/');
      if |parts[0]| < 2 {
        assert text[1] == '/';
      }
    }
    assert ".."[0] == '.' && ".."[1] == '.';
  }

  /** The one rule: the outcome depends on the components after the prefix, and a member is exactly
      a nonempty path that does not begin with "..". */
  lemma InsideByComponents(key: string, rest: string)
    ensures var parts := Components(rest);
            Inside(key, rest) == if parts == [] || ".." <= parts[0] then Escape else Member(key, Join(parts, '/'))
  {
    StripLeftKeepsComponents(rest);
    ComponentsAreCollapsed(rest);
    var stripped := StripLeft(rest);
    var parts := Components(rest);
    if stripped == "" {
      assert Split(stripped, '/') == [""];
      assert parts == [];
    }
    if parts != [] {
      CollapsedText(parts);
      assert parts[0] != ".";
    }
  }

  lemma NamesOnlyBelow(parts: seq<string>)
    requires Collapsed(parts) && parts != [] && parts[0] != ".."
    ensures forall k :: 0 <= k < |parts| ==> IsName(parts[k])
  {
    var k := 0;
    while k < |parts|
      invariant 0 <= k <= |parts|
      invariant forall j :: 0 <= j < k ==> parts[j] != ".."
    {
      if k > 0 {
        assert parts[k - 1] != "..";
      }
      assert parts[k] != "..";
      k := k + 1;
    }
  }

  lemma {:induction false} AbsoluteMatches(token: string, prefixes: seq<Prefix>)
    requires ResolveAbsolute(token, prefixes).Member?
    ensures exists i :: && 0 <= i < |prefixes| && prefixes[i].0 <= token
                        && ResolveAbsolute(token, prefixes) == Inside(prefixes[i].1, token[|prefixes[i].0|..])
  {
    var (prefix, key) := prefixes[0];
    if !(prefix <= token) {
      AbsoluteMatches(token, prefixes[1..]);
      var i :| 0 <= i < |prefixes| - 1 && prefixes[1..][i].0 <= token
               && ResolveAbsolute(token, prefixes[1..]) == Inside(prefixes[1..][i].1, token[|prefixes[1..][i].0|..]);
      assert prefixes[1..][i] == prefixes[i + 1];
    }
  }

  /** An absolute token classified a member names a clean path strictly inside a root: normalised,
      not empty, not ".", with no ".." in it. */
  lemma AbsoluteMemberIsClean(token: string, prefixes: seq<Prefix>, primary: Option<string>, cwd: string)
    requires "/" <= token
    requires ResolveToken(token, prefixes, primary, cwd).Member?
    ensures CleanRelative(ResolveToken(token, prefixes, primary, cwd).relative)
    ensures exists i :: 0 <= i < |prefixes| && prefixes[i].0 <= token
                        && prefixes[i].1 == ResolveToken(token, prefixes, primary, cwd).rootKey
  {
    assert token[0] == '/' && "-"[0] == '-' && "/"[0] == '/';
    AbsoluteMatches(token, prefixes);
    var i :| 0 <= i < |prefixes| && prefixes[i].0 <= token
             && ResolveAbsolute(token, prefixes) == Inside(prefixes[i].1, token[|prefixes[i].0|..]);
    var rest := token[|prefixes[i].0|..];
    InsideByComponents(prefixes[i].1, rest);
    ComponentsAreCollapsed(rest);
    var parts := Components(rest);
    NamesOnlyBelow(parts);
    CollapsedText(parts);
    CollapseNames([], parts);
    assert [] + parts == parts;
  }

  // ----- respelling

  /** No root's prefix is a prefix of another's, as registration requires. */
  ghost predicate NonNesting(prefixes: seq<Prefix>) {
    forall i, j :: 0 <= i < |prefixes| && 0 <= j < |prefixes| && prefixes[i].0 <= prefixes[j].0 ==> i == j
  }

  lemma {:induction false} OnlyItsRoot(token: string, prefixes: seq<Prefix>, i: nat)
    requires NonNesting(prefixes) && i < |prefixes| && prefixes[i].0 <= token
    requires forall j :: 0 <= j < |prefixes| ==> prefixes[j].0 != "" && prefixes[j].0[|prefixes[j].0| - 1] == '/'
    ensures ResolveAbsolute(token, prefixes) == Inside(prefixes[i].1, token[|prefixes[i].0|..])
  {
    if i > 0 {
      var (prefix, key) := prefixes[0];
      var mine := prefixes[i].0;
      TwoPrefixes(prefix, mine, token);
      if StripRight(token) + "/" == prefix {
        StripRightSlash(token);
        TwoPrefixes(prefix, mine, token + "/");
      }
      forall j, k | 0 <= j < |prefixes| - 1 && 0 <= k < |prefixes| - 1 && prefixes[1..][j].0 <= prefixes[1..][k].0
        ensures j == k
      {
        assert prefixes[j + 1].0 <= prefixes[k + 1].0;
      }
      OnlyItsRoot(token, prefixes[1..], i - 1);
    }
  }

  lemma TwoPrefixes(a: string, b: string, s: string)
    requires b <= s
    ensures a <= s ==> a <= b || b <= a
  {
    if a <= s {
      assert a == s[..|a|] && b == s[..|b|];
      if |a| <= |b| {
        assert b[..|a|] == a;
      } else {
        assert a[..|b|] == b;
      }
    }
  }

  lemma {:induction false} StripRightSlash(s: string)
    requires s != ""
    ensures StripRight(s) + "/" <= s + "/"
    decreases |s|
  {
    if s[|s| - 1] == '/' {
      var front := s[..|s| - 1];
      if front != "" {
        StripRightSlash(front);
        assert StripRight(front) + "/" <= front + "/";
        assert front + "/" == s;
      } else {
        assert StripRight(s) == "";
      }
    }
  }

  /** Two spellings of the same components after a root's prefix resolve alike. */
  lemma RespellingsAgree(prefixes: seq<Prefix>, i: nat, rest: string, again: string, primary: Option<string>, cwd: string)
    requires NonNesting(prefixes) && i < |prefixes| && "/" <= prefixes[i].0
    requires forall j :: 0 <= j < |prefixes| ==> prefixes[j].0 != "" && prefixes[j].0[|prefixes[j].0| - 1] == '/'
    requires Components(rest) == Components(again)
    ensures ResolveToken(prefixes[i].0 + rest, prefixes, primary, cwd)
            == ResolveToken(prefixes[i].0 + again, prefixes, primary, cwd)
            == Inside(prefixes[i].1, rest)
  {
    var prefix := prefixes[i].0;
    assert prefix[0] == '/' by { assert "/"[0] == '/'; }
    forall s: string
      ensures ResolveToken(prefix + s, prefixes, primary, cwd) == Inside(prefixes[i].1, s)
    {
      assert (prefix + s)[0] == '/' && "-"[0] == '-' && "/"[0] == '/';
      assert (prefix + s)[|prefix|..] == s;
      OnlyItsRoot(prefix + s, prefixes, i);
    }
    InsideByComponents(prefixes[i].1, rest);
    InsideByComponents(prefixes[i].1, again);
  }

  /** Doubled slashes, "./" and "x/.." between two parts of a path leave its components alone. */
  lemma RespelledComponents(a: string, b: string, x: string)
    requires IsName(x)
    ensures Components(a + "/" + b) == Components(a + "/" + "" + "/" + b)
    ensures Components(a + "/" + b) == Components(a + "/" + "." + "/" + b)
    ensures Components(a + "/" + b) == Components(a + "/" + x + "/" + ".." + "/" + b)
  {
    Between(a, "", b);
    Between(a, ".", b);
    SplitConcat(a, b, '/');
    var stack := Collapse([], Split(a, '/'));
    CollapseConcat([], Split(a, '/'), Split(b, '/'));
    SplitPlain("", '/');
    SplitPlain(".", '/');
    assert Collapse(stack, [""]) == Collapse(stack, []) && Collapse(stack, ["."]) == Collapse(stack, []);
    DownAndUp(a, x, b);
  }

  lemma Between(a: string, part: string, b: string)
    ensures Components(a + "/" + part + "/" + b)
            == Collapse(Collapse(Collapse([], Split(a, '/')), Split(part, '/')), Split(b, '/'))
  {
    SplitConcat(a, part, '/');
    SplitConcat(a + "/" + part, b, '/');
    CollapseConcat([], Split(a, '/') + Split(part, '/'), Split(b, '/'));
    CollapseConcat([], Split(a, '/'), Split(part, '/'));
  }

  lemma DownAndUp(a: string, x: string, b: string)
    requires IsName(x)
    ensures Components(a + "/" + x + "/" + ".." + "/" + b)
            == Collapse(Collapse([], Split(a, '/')), Split(b, '/'))
  {
    var ax := a + "/" + x;
    Between(ax, "..", b);
    SplitConcat(a, x, '/');
    SplitPlain(x, '/');
    SplitPlain("..", '/');
    CollapseConcat([], Split(a, '/'), [x]);
    PushPop(Collapse([], Split(a, '/')), x);
  }

  lemma PushPop(stack: seq<string>, x: string)
    requires IsName(x)
    ensures Collapse(Collapse(stack, [x]), [".."]) == stack
  {
    CollapseNames(stack, [x]);
    var down := stack + [x];
    assert down[..|down| - 1] == stack && [".."][1..] == [];
    assert Collapse(down, [".."]) == Collapse(stack, []);
  }

  // ----- relative tokens, and spellings before the prefix

  /** A relative token is classified by the components of the working directory and its own, one after the
      other; unlike an absolute one it can be the root itself, as the member ".". */
  lemma RelativeByComponents(token: string, prefixes: seq<Prefix>, key: string, cwd: string)
    requires token != "" && !("-" <= token) && !("/" <= token)
    ensures var parts := Collapse([], Split(cwd, '/') + Split(token, '/'));
            ResolveToken(token, prefixes, Some(key), cwd) ==
              if "/" <= cwd then Escape
              else if parts == [] then Member(key, ".")
              else if ".." <= parts[0] then Escape
              else Member(key, Join(parts, '/'))
  {
    var path := if cwd != "" then JoinPath(cwd, token) else token;
    JoinedComponents(cwd, token);
    var parts := Components(path);
    if "/" <= cwd {
      AbsoluteStaysSo(path);
    } else {
      ComponentsAreCollapsed(path);
      if parts != [] {
        CollapsedText(parts);
      } else {
        assert Normpath(path) == "." && "."[0] == '.' && "/"[0] == '/';
      }
    }
  }

  lemma AbsoluteStaysSo(path: string)
    requires "/" <= path
    ensures "/" <= Normpath(path)
  {
    assert "//"[0] == '/' && "/"[0] == '/';
  }

  lemma JoinedComponents(cwd: string, token: string)
    requires token != "" && !("/" <= token)
    ensures var path := if cwd != "" then JoinPath(cwd, token) else token;
            && path != "" && ("/" <= path <==> "/" <= cwd)
            && Components(path) == Collapse([], Split(cwd, '/') + Split(token, '/'))
  {
    var none := "";
    if cwd == "" {
      assert ([none] + Split(token, '/'))[0] == none && ([none] + Split(token, '/'))[1..] == Split(token, '/');
    } else if cwd[|cwd| - 1] == '/' {
      SlashEnds(cwd[..|cwd| - 1], token);
      assert cwd == cwd[..|cwd| - 1] + ['/'];
      assert "/" <= cwd + token <==> "/" <= cwd;
    } else {
      assert JoinPath(cwd, token) == cwd + ['/'] + token;
      SplitConcat(cwd, token, '/');
      assert "/" <= cwd + ['/'] + token <==> "/" <= cwd;
    }
  }

  lemma SlashEnds(dir: string, token: string)
    ensures Collapse([], Split(dir + ['/'] + token, '/')) == Collapse([], Split(dir + ['/'], '/') + Split(token, '/'))
  {
    var none := "";
    SplitConcat(dir, token, '/');
    SplitConcat(dir, none, '/');
    assert dir + ['/'] + none == dir + ['/'];
    CollapseConcat([], Split(dir, '/'), Split(token, '/'));
    CollapseConcat([], Split(dir, '/') + [none], Split(token, '/'));
    CollapseConcat([], Split(dir, '/'), [none]);
    var stack := Collapse([], Split(dir, '/'));
    assert [none][1..] == [] && Collapse(stack, [none]) == Collapse(stack, []);
  }

  lemma DotIsAMember(prefixes: seq<Prefix>, key: string, dot: string)
    requires dot == "."
    ensures ResolveToken(dot, prefixes, Some(key), "") == Member(key, ".")
    ensures !CleanRelative(".")
  {
    assert dot[0] == '.' && "-"[0] == '-' && "/"[0] == '/';
    SplitPlain(dot, '/');
    assert ["."][1..] == [];
    RelativeByComponents(dot, prefixes, key, "");
    assert Split("", '/') == [""];
    assert [""] + ["."] == ["", "."] && ["", "."][1..] == ["."];
    assert Collapse([], ["", "."]) == Collapse([], ["."]) == Collapse([], []);
  }

  /** The token's text matches the prefix, or is the root itself. */
  predicate Matches(token: string, prefix: string) {
    prefix <= token || StripRight(token) + "/" == prefix
  }

  lemma {:induction false} AbsoluteOutside(token: string, prefixes: seq<Prefix>)
    ensures ResolveAbsolute(token, prefixes) == Outside
            <==> forall i :: 0 <= i < |prefixes| ==> !Matches(token, prefixes[i].0)
  {
    if prefixes != [] {
      AbsoluteOutside(token, prefixes[1..]);
      assert forall i :: 0 < i < |prefixes| ==> prefixes[i] == prefixes[1..][i - 1];
    }
  }

  /** "outside" means that no prefix matches the text, not that no root is addressed. */
  lemma OutsideMeaning(token: string, prefixes: seq<Prefix>, primary: Option<string>, cwd: string)
    ensures ResolveToken(token, prefixes, primary, cwd) == Outside <==>
              || token == "" || "-" <= token
              || (if "/" <= token then forall i :: 0 <= i < |prefixes| ==> !Matches(token, prefixes[i].0)
                  else primary.None?)
  {
    if "/" <= token { AbsoluteOutside(token, prefixes); }
  }

  /** Prefixes of roots whose paths are normalised, as registered roots' are. */
  ghost predicate NormalRoots(prefixes: seq<Prefix>) {
    forall i :: 0 <= i < |prefixes| ==> NormalRoot(prefixes[i].0)
  }

  ghost predicate NormalRoot(prefix: string) {
    && prefix != "" && prefix[|prefix| - 1] == '/'
    && (prefix == "/" || Normpath(prefix[..|prefix| - 1]) == prefix[..|prefix| - 1])
  }

  /** So a token whose normalised text is a member is outside exactly if no prefix begins the token as it
      is written. */
  lemma MemberSpelledOutside(token: string, prefixes: seq<Prefix>, primary: Option<string>, cwd: string)
    requires "/" <= token && NormalRoots(prefixes) && ResolveAbsolute(Normpath(token), prefixes).Member?
    ensures ResolveToken(token, prefixes, primary, cwd) == Outside
            <==> forall i :: 0 <= i < |prefixes| ==> !(prefixes[i].0 <= token)
  {
    OutsideMeaning(token, prefixes, primary, cwd);
    assert token[0] == '/' && "-"[0] == '-' && "/"[0] == '/';
    AbsoluteMatches(Normpath(token), prefixes);
    var m :| 0 <= m < |prefixes| && prefixes[m].0 <= Normpath(token)
             && ResolveAbsolute(Normpath(token), prefixes) == Inside(prefixes[m].1, Normpath(token)[|prefixes[m].0|..]);
    if forall i :: 0 <= i < |prefixes| ==> !(prefixes[i].0 <= token) {
      forall i | 0 <= i < |prefixes| ensures !Matches(token, prefixes[i].0) {
        RootIsNormal(token, prefixes[i].0);
        assert !(prefixes[m].0 <= token);
      }
    }
  }

  /** A token that is a root's path, without a slash at its end, is normalised. */
  lemma RootIsNormal(token: string, prefix: string)
    requires "/" <= token && NormalRoot(prefix) && !(prefix <= token)
    ensures Matches(token, prefix) ==> Normpath(token) == token
  {
    if Matches(token, prefix) {
      StripRightIsPrefix(token);
      var stripped := StripRight(token);
      assert stripped == token;
      assert prefix[..|prefix| - 1] == stripped;
    }
  }

  lemma {:induction false} StripRightIsPrefix(s: string)
    ensures StripRight(s) <= s
    ensures StripRight(s) != s ==> StripRight(s) + "/" <= s
    decreases |s|
  {
    if s != "" && s[|s| - 1] == '/' {
      var front := s[..|s| - 1];
      StripRightIsPrefix(front);
      assert s == front + "/";
    }
  }

  /** There are such spellings: one that differs before the end of the prefix. */
  lemma RespelledPrefixIsOutside(root: string, key: string, name: string, token: string)
    requires IsName(root) && IsName(name) && !(".." <= name) && root[0] != '.'
    requires token == "/./" + root + "/" + name
    ensures var prefixes := [("/" + root + "/", key)];
            && ResolveToken(token, prefixes, None, "") == Outside
            && Normpath(token) == "/" + root + "/" + name
            && ResolveToken(Normpath(token), prefixes, None, "") == Member(key, name)
  {
    var prefix := "/" + root + "/";
    var prefixes := [(prefix, key)];
    var normal := "/" + root + "/" + name;
    assert normal == prefix + name;
    RespelledIsOutside(root, key, name, token, prefix);
    NormalisedToken(root, name, token);
    NameIsMember(prefix, key, name, normal);
  }

  lemma RespelledIsOutside(root: string, key: string, name: string, token: string, prefix: string)
    requires IsName(root) && IsName(name) && root[0] != '.'
    requires token == "/./" + root + "/" + name && prefix == "/" + root + "/"
    ensures ResolveToken(token, [(prefix, key)], None, "") == Outside
  {
    var prefixes := [(prefix, key)];
    assert token[0] == '/' && token[1] == '.' && prefix[1] == root[0] && "-"[0] == '-' && "/"[0] == '/';
    StripRightOfName(token, name);
    assert |token + "/"| > |prefix|;
    assert !Matches(token, prefixes[0].0);
    OutsideMeaning(token, prefixes, None, "");
  }

  lemma NameIsMember(prefix: string, key: string, name: string, normal: string)
    requires prefix != "" && prefix[0] == '/' && IsName(name) && !(".." <= name) && normal == prefix + name
    ensures ResolveToken(normal, [(prefix, key)], None, "") == Member(key, name)
  {
    assert normal[0] == '/' && "-"[0] == '-' && "/"[0] == '/';
    assert normal[|prefix|..] == name;
    NameIsInside(key, name);
  }

  lemma NameIsInside(key: string, name: string)
    requires IsName(name) && !(".." <= name)
    ensures Inside(key, name) == Member(key, name)
  {
    InsideByComponents(key, name);
    SplitPlain(name, '/');
    CollapseNames([], [name]);
    assert [] + [name] == [name];
  }

  lemma StripRightOfName(token: string, name: string)
    requires IsName(name) && |token| >= |name| && token[|token| - |name|..] == name
    ensures StripRight(token) == token
  {
    var last := token[|token| - 1];
    assert last == name[|name| - 1] && name[|name| - 1] in name;
  }

  lemma NormalisedToken(root: string, name: string, token: string)
    requires IsName(root) && IsName(name) && token == "/./" + root + "/" + name
    ensures Normpath(token) == "/" + root + "/" + name
  {
    TokenParts(root, name, token);
    TwoNames(root, name);
    assert token[0] == '/' && token[1] == '.' && "//"[1] == '/';
    assert "/" <= token && !("//" <= token);
    assert [root, name][1..] == [name];
    assert Join([name], '/') == name;
    assert Join([root, name], '/') == root + ['/'] + name;
  }

  lemma TokenParts(root: string, name: string, token: string)
    requires IsName(root) && IsName(name) && token == "/./" + root + "/" + name
    ensures Split(token, '/') == ["", ".", root, name]
  {
    var none, dot := "", ".";
    var tail := root + ['/'] + name;
    var dotted := dot + ['/'] + tail;
    assert token == none + ['/'] + dotted;
    NameParts(root, name);
    DotParts(dot, tail);
    SplitConcat(none, dotted, '/');
  }

  lemma NameParts(root: string, name: string)
    requires IsName(root) && IsName(name)
    ensures Split(root + ['/'] + name, '/') == [root, name]
  {
    SplitConcat(root, name, '/');
    SplitPlain(root, '/');
    SplitPlain(name, '/');
  }

  lemma DotParts(dot: string, tail: string)
    requires dot == "."
    ensures Split(dot + ['/'] + tail, '/') == [dot] + Split(tail, '/')
  {
    assert dot[0] == '.';
    SplitConcat(dot, tail, '/');
    SplitPlain(dot, '/');
  }

  lemma TwoNames(root: string, name: string)
    requires IsName(root) && IsName(name)
    ensures CollapseRooted([], ["", ".", root, name]) == [root, name]
  {
    var parts := ["", ".", root, name];
    assert parts[1..] == [".", root, name] && [".", root, name][1..] == [root, name];
    assert [root, name][1..] == [name] && [name][1..] == [] && [] + [root] == [root] && [root] + [name] == [root, name];
    assert CollapseRooted([], parts) == CollapseRooted([], [".", root, name]);
    assert CollapseRooted([], [".", root, name]) == CollapseRooted([], [root, name]);
    assert CollapseRooted([], [root, name]) == CollapseRooted([root], [name]);
    assert CollapseRooted([root], [name]) == CollapseRooted([root, name], []);
  }
}
