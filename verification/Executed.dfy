/** The staged verifiers of one check, and argv rewritten to run them. */
module Executed {
  import opened Wrappers
  import opened Resolution

  const VERIFIER_MOUNT := "/run/worldline-verifiers"

  datatype StagedVerifier = StagedVerifier(rootKey: string, relative: string, staged: string, sha256: string)

  datatype Rewrite = Rewrite(from: string, to: string, sha256: string)

  datatype Unbound = Unbound(token: string, rootKey: string, path: string)

  datatype ArgvPlan = ArgvPlan(argv: seq<string>, rewrites: seq<Rewrite>, escapes: seq<string>, unbound: seq<Unbound>)

  type Members = map<(string, string), StagedVerifier>

  function KeyOf(item: StagedVerifier): (string, string) {
    (item.rootKey, item.relative)
  }

  /** The staged items by root and path. */
  function MembersOf(items: seq<StagedVerifier>): (members: Members)
    ensures forall key :: key in members ==> members[key] in items && key == KeyOf(members[key])
    ensures forall item :: item in items ==> KeyOf(item) in members
  {
    if items == [] then map[]
    else
      var last := items[|items| - 1];
      assert items == items[..|items| - 1] + [last];
      MembersOf(items[..|items| - 1])[KeyOf(last) := last]
  }

  /** Where staging has made root and path unique, every item is found by its own. */
  lemma {:induction false} EachItemIsFound(items: seq<StagedVerifier>, i: nat)
    requires i < |items| && forall j, k :: 0 <= j < k < |items| ==> KeyOf(items[j]) != KeyOf(items[k])
    ensures KeyOf(items[i]) in MembersOf(items) && MembersOf(items)[KeyOf(items[i])] == items[i]
  {
    if i < |items| - 1 {
      EachItemIsFound(items[..|items| - 1], i);
    }
  }

  /** `by_member`. */
  method ByMember(items: seq<StagedVerifier>) returns (members: Members)
    ensures members == MembersOf(items)
  {
    members := map[];
    for n := 0 to |items|
      invariant members == MembersOf(items[..n])
    {
      assert items[..n + 1][..n] == items[..n];
      members := members[KeyOf(items[n]) := items[n]];
    }
    assert items[..|items|] == items;
  }

  // ----- what becomes of one token

  /** The staged copy a token is bound to, if any. */
  function BoundTo(members: Members, outcome: Outcome): Option<StagedVerifier> {
    if outcome.Member? && (outcome.rootKey, outcome.relative) in members
    then Some(members[(outcome.rootKey, outcome.relative)]) else None
  }

  function RewritesOf(members: Members, tokens: seq<string>, outcomes: seq<Outcome>): seq<Rewrite>
    requires |tokens| == |outcomes|
    decreases |tokens|
  {
    if tokens == [] then []
    else
      var last := |tokens| - 1;
      var bound := BoundTo(members, outcomes[last]);
      RewritesOf(members, tokens[..last], outcomes[..last])
        + if bound.Some? then [Rewrite(tokens[last], bound.value.staged, bound.value.sha256)] else []
  }

  function EscapesOf(tokens: seq<string>, outcomes: seq<Outcome>): seq<string>
    requires |tokens| == |outcomes|
    decreases |tokens|
  {
    if tokens == [] then []
    else
      var last := |tokens| - 1;
      EscapesOf(tokens[..last], outcomes[..last]) + if outcomes[last].Escape? then [tokens[last]] else []
  }

  function UnboundOf(members: Members, tokens: seq<string>, outcomes: seq<Outcome>): seq<Unbound>
    requires |tokens| == |outcomes|
    decreases |tokens|
  {
    if tokens == [] then []
    else
      var last := |tokens| - 1;
      var outcome := outcomes[last];
      UnboundOf(members, tokens[..last], outcomes[..last])
        + if outcome.Member? && BoundTo(members, outcome).None?
          then [Unbound(tokens[last], outcome.rootKey, outcome.relative)] else []
  }

  function OutcomesOf(argv: seq<string>, prefixes: seq<Prefix>, primary: Option<string>, cwd: string): (r: seq<Outcome>)
    ensures |r| == |argv|
    ensures forall i :: 0 <= i < |argv| ==> r[i] == ResolveToken(argv[i], prefixes, primary, cwd)
  {
    if argv == [] then []
    else
      var last := |argv| - 1;
      OutcomesOf(argv[..last], prefixes, primary, cwd) + [ResolveToken(argv[last], prefixes, primary, cwd)]
  }

  /** The command keeps its length; exactly the tokens bound to a staged member are replaced, each by
      its staged copy; rewrites, escapes and unbound members are listed in order. */
  ghost predicate PlanFor(plan: ArgvPlan, members: Members, tokens: seq<string>, outcomes: seq<Outcome>) {
    && |plan.argv| == |tokens| == |outcomes|
    && (forall i :: 0 <= i < |tokens| ==>
          plan.argv[i] == if BoundTo(members, outcomes[i]).Some? then BoundTo(members, outcomes[i]).value.staged
                          else tokens[i])
    && plan.rewrites == RewritesOf(members, tokens, outcomes)
    && plan.escapes == EscapesOf(tokens, outcomes)
    && plan.unbound == UnboundOf(members, tokens, outcomes)
  }

  method PlanToken(plan: ArgvPlan, members: Members, token: string, outcome: Outcome,
                   ghost tokens: seq<string>, ghost outcomes: seq<Outcome>)
    returns (plan': ArgvPlan)
    requires PlanFor(plan, members, tokens, outcomes)
    ensures PlanFor(plan', members, tokens + [token], outcomes + [outcome])
  {
    assert (tokens + [token])[..|tokens|] == tokens && (outcomes + [outcome])[..|outcomes|] == outcomes;
    match outcome {
      case Escape =>
        plan' := plan.(escapes := plan.escapes + [token], argv := plan.argv + [token]);
      case Member(rootKey, relative) =>
        if (rootKey, relative) in members {
          var item := members[(rootKey, relative)];
          plan' := plan.(argv := plan.argv + [item.staged],
                         rewrites := plan.rewrites + [Rewrite(token, item.staged, item.sha256)]);
        } else {
          plan' := plan.(argv := plan.argv + [token],
                         unbound := plan.unbound + [Unbound(token, rootKey, relative)]);
        }
      case Outside =>
        plan' := plan.(argv := plan.argv + [token]);
    }
  }

  lemma OutcomesSnoc(argv: seq<string>, n: nat, prefixes: seq<Prefix>, primary: Option<string>, cwd: string)
    requires n < |argv|
    ensures argv[..n + 1] == argv[..n] + [argv[n]]
    ensures OutcomesOf(argv[..n + 1], prefixes, primary, cwd)
            == OutcomesOf(argv[..n], prefixes, primary, cwd) + [ResolveToken(argv[n], prefixes, primary, cwd)]
  {
    assert argv[..n + 1][..n] == argv[..n];
  }

  /** `rewrite_argv`. */
  method RewriteArgv(items: seq<StagedVerifier>, argv: seq<string>, roots: seq<(string, string)>,
                     primary: Option<string>, cwd: string) returns (plan: ArgvPlan)
    ensures PlanFor(plan, MembersOf(items), argv, OutcomesOf(argv, RootPrefixes(roots), primary, cwd))
  {
    var members := ByMember(items);
    var prefixes := RootPrefixes(roots);
    plan := ArgvPlan([], [], [], []);
    for n := 0 to |argv|
      invariant PlanFor(plan, members, argv[..n], OutcomesOf(argv[..n], prefixes, primary, cwd))
    {
      var outcome := ResolveToken(argv[n], prefixes, primary, cwd);
      OutcomesSnoc(argv, n, prefixes, primary, cwd);
      plan := PlanToken(plan, members, argv[n], outcome, argv[..n], OutcomesOf(argv[..n], prefixes, primary, cwd));
    }
    assert argv[..|argv|] == argv;
  }

  // ----- what is listed

  /** What one token adds to the lists: where its member is staged, the token, the staged copy and its
      digest; else where it is a member, the token and the member; where it escapes, the token. */
  lemma ListsOfOne(members: Members, token: string, outcome: Outcome)
    ensures RewritesOf(members, [token], [outcome]) ==
              if outcome.Member? && (outcome.rootKey, outcome.relative) in members
              then var item := members[(outcome.rootKey, outcome.relative)]; [Rewrite(token, item.staged, item.sha256)] else []
    ensures UnboundOf(members, [token], [outcome]) ==
              if outcome.Member? && (outcome.rootKey, outcome.relative) !in members
              then [Unbound(token, outcome.rootKey, outcome.relative)] else []
    ensures EscapesOf([token], [outcome]) == if outcome.Escape? then [token] else []
  {
    var none, nothing := [token][..0], [outcome][..0];
    assert none == [] && nothing == [];
    assert RewritesOf(members, none, nothing) == [] && UnboundOf(members, none, nothing) == [];
    assert EscapesOf(none, nothing) == [];
  }

  /** The tokens are listed in their order: what a command lists is what its first part does and then the rest. */
  lemma ListsConcat(members: Members, a: seq<string>, x: seq<Outcome>, b: seq<string>, y: seq<Outcome>)
    requires |a| == |x| && |b| == |y|
    ensures RewritesOf(members, a + b, x + y) == RewritesOf(members, a, x) + RewritesOf(members, b, y)
    ensures UnboundOf(members, a + b, x + y) == UnboundOf(members, a, x) + UnboundOf(members, b, y)
    ensures EscapesOf(a + b, x + y) == EscapesOf(a, x) + EscapesOf(b, y)
  {
    RewritesConcat(members, a, x, b, y);
    UnboundConcat(members, a, x, b, y);
    EscapesConcat(a, x, b, y);
  }

  lemma {:induction false} RewritesConcat(members: Members, a: seq<string>, x: seq<Outcome>, b: seq<string>, y: seq<Outcome>)
    requires |a| == |x| && |b| == |y|
    ensures RewritesOf(members, a + b, x + y) == RewritesOf(members, a, x) + RewritesOf(members, b, y)
    decreases |b|
  {
    if b == [] {
      assert a + b == a && x + y == x;
    } else {
      var last := |b| - 1;
      RewritesConcat(members, a, x, b[..last], y[..last]);
      LastOfConcat(a, b);
      LastOfConcat(x, y);
    }
  }

  lemma {:induction false} UnboundConcat(members: Members, a: seq<string>, x: seq<Outcome>, b: seq<string>, y: seq<Outcome>)
    requires |a| == |x| && |b| == |y|
    ensures UnboundOf(members, a + b, x + y) == UnboundOf(members, a, x) + UnboundOf(members, b, y)
    decreases |b|
  {
    if b == [] {
      assert a + b == a && x + y == x;
    } else {
      var last := |b| - 1;
      UnboundConcat(members, a, x, b[..last], y[..last]);
      LastOfConcat(a, b);
      LastOfConcat(x, y);
    }
  }

  lemma {:induction false} EscapesConcat(a: seq<string>, x: seq<Outcome>, b: seq<string>, y: seq<Outcome>)
    requires |a| == |x| && |b| == |y|
    ensures EscapesOf(a + b, x + y) == EscapesOf(a, x) + EscapesOf(b, y)
    decreases |b|
  {
    if b == [] {
      assert a + b == a && x + y == x;
    } else {
      var last := |b| - 1;
      EscapesConcat(a, x, b[..last], y[..last]);
      LastOfConcat(a, b);
      LastOfConcat(x, y);
    }
  }

  lemma LastOfConcat<T>(a: seq<T>, b: seq<T>)
    requires b != []
    ensures (a + b)[..|a + b| - 1] == a + b[..|b| - 1] && (a + b)[|a + b| - 1] == b[|b| - 1]
  {
  }

  function OutsideCount(outcomes: seq<Outcome>): nat {
    if outcomes == [] then 0
    else (if outcomes[|outcomes| - 1].Outside? then 1 else 0) + OutsideCount(outcomes[..|outcomes| - 1])
  }

  /** Every token is rewritten, an escape, an unbound member or outside every root, and only one of these. */
  lemma {:induction false} EachTokenOnce(members: Members, tokens: seq<string>, outcomes: seq<Outcome>)
    requires |tokens| == |outcomes|
    ensures |RewritesOf(members, tokens, outcomes)| + |EscapesOf(tokens, outcomes)|
            + |UnboundOf(members, tokens, outcomes)| + OutsideCount(outcomes) == |tokens|
    decreases |tokens|
  {
    if tokens != [] {
      var last := |tokens| - 1;
      EachTokenOnce(members, tokens[..last], outcomes[..last]);
    }
  }

  /** Two spellings of a staged verifier's path below its root run the same staged copy. */
  lemma SpellingsRunTheSameCopy(members: Members, prefixes: seq<Prefix>, i: nat, rest: string, again: string,
                                primary: Option<string>, cwd: string)
    requires NonNesting(prefixes) && i < |prefixes| && "/" <= prefixes[i].0
    requires forall j :: 0 <= j < |prefixes| ==> prefixes[j].0 != "" && prefixes[j].0[|prefixes[j].0| - 1] == '/'
    requires Components(rest) == Components(again)
    ensures BoundTo(members, ResolveToken(prefixes[i].0 + rest, prefixes, primary, cwd))
            == BoundTo(members, ResolveToken(prefixes[i].0 + again, prefixes, primary, cwd))
  {
    RespellingsAgree(prefixes, i, rest, again, primary, cwd);
  }
}
